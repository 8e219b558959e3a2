/**
 The search for a deliverable page: the store hands out bounded batches of rows behind a cursor, and the
 hook walks batches and delivery states until something fits. Written for any kind of item, so that only
 the sizes matter; `AnswerSelection` applies it to answers.
 */
module AnswerSearch {
  import opened Basics
  import opened Packing

  // ---- The store's rows ----

  /** A stored row in key order. `item` is absent when the record does not decode or is not addressed here. */
  datatype Row<+T> = Row(key: string, item: Option<T>)

  ghost predicate Distinct<T>(rows: seq<Row<T>>) {
    forall i, j :: 0 <= i < j < |rows| ==> rows[i].key != rows[j].key
  }

  /** The first row after the cursor. */
  function Start<T>(rows: seq<Row<T>>, after: Option<string>): (n: nat)
    ensures n <= |rows|
  {
    if after.None? || rows == [] then 0
    else if rows[0].key == after.value then 1
    else 1 + Start(rows[1..], after)
  }

  lemma {:induction false} StartAt<T>(rows: seq<Row<T>>, i: nat)
    requires Distinct(rows) && i < |rows|
    ensures Start(rows, Some(rows[i].key)) == i + 1
  {
    if i > 0 { StartAt(rows[1..], i - 1); }
  }

  /** The items of rows whose key is not in `skip`, in order. */
  function Items<T>(rows: seq<Row<T>>, skip: seq<string>): seq<T> {
    if rows == [] then []
    else (if rows[0].item.Some? && rows[0].key !in skip then [rows[0].item.value] else []) + Items(rows[1..], skip)
  }

  lemma {:induction false} ItemsAppend<T>(a: seq<Row<T>>, b: seq<Row<T>>, skip: seq<string>)
    ensures Items(a + b, skip) == Items(a, skip) + Items(b, skip)
  {
    if a == [] {
      assert a + b == b;
    } else {
      assert (a + b)[1..] == a[1..] + b;
      ItemsAppend(a[1..], b, skip);
    }
  }

  lemma {:induction false} ItemsSkipMore<T>(rows: seq<Row<T>>, skip: seq<string>, key: string)
    requires forall r <- rows :: r.key != key
    ensures Items(rows, skip + [key]) == Items(rows, skip)
  {
    if rows != [] {
      assert rows[0] in rows;
      ItemsSkipMore(rows[1..], skip, key);
    }
  }

  lemma {:induction false} ItemsSubsequence<T>(rows: seq<Row<T>>, skip: seq<string>)
    ensures Subsequence(Items(rows, skip), Items(rows, []))
  {
    if rows != [] {
      ItemsSubsequence(rows[1..], skip);
      if rows[0].item.None? {
        assert Items(rows, skip) == Items(rows[1..], skip) && Items(rows, []) == Items(rows[1..], []);
      } else {
        var x := rows[0].item.value;
        if rows[0].key in skip {
          SubsequenceSkips(Items(rows[1..], skip), Items(rows[1..], []), x);
          assert Items(rows, skip) == Items(rows[1..], skip);
        } else {
          SubsequenceRefl([x]);
          SubsequenceAppend([x], [x], Items(rows[1..], skip), Items(rows[1..], []));
        }
      }
    }
  }

  lemma {:induction false} ItemsMember<T>(rows: seq<Row<T>>, skip: seq<string>, i: nat)
    requires i < |rows| && rows[i].item.Some? && rows[i].key !in skip
    ensures rows[i].item.value in Items(rows, skip)
  {
    if i > 0 { ItemsMember(rows[1..], skip, i - 1); }
  }

  // ---- One bounded read ----

  /** `row` alone is over the store's page limit. */
  ghost predicate TooBig<T>(row: Row<T>, size: T -> nat, room: int) {
    row.item.Some? && Load(size, Page([row.item.value], false)) > room
  }

  ghost predicate Explained<T>(rows: seq<Row<T>>, from: nat, to: nat, key: string, size: T -> nat, room: int)
    requires to <= |rows|
  {
    exists i :: from <= i < to && rows[i].key == key && TooBig(rows[i], size, room)
  }

  /** `row` fits on a page of its own that is marked truncated. */
  ghost predicate FitsAlone<T>(row: Row<T>, size: T -> nat, room: int) {
    row.item.Some? ==> Load(size, Page([row.item.value], true)) <= room
  }

  /** After scanning `rows[from..to]`: their items are in hand except the oversized ones, each of which is too big. */
  ghost predicate Scanned<T>(rows: seq<Row<T>>, from: nat, to: nat, items: seq<T>, oversized: seq<string>,
                             size: T -> nat, room: int)
  {
    && from <= to <= |rows|
    && items == Items(rows[from..to], oversized)
    && (forall k <- oversized :: Explained(rows, from, to, k, size, room))
    && forall i :: from <= i < to && rows[i].key !in oversized ==> FitsAlone(rows[i], size, room)
  }

  lemma ScanKeep<T>(rows: seq<Row<T>>, from: nat, to: nat, items: seq<T>, oversized: seq<string>, size: T -> nat,
                    room: int)
    requires Distinct(rows) && Scanned(rows, from, to, items, oversized, size, room) && to < |rows|
    requires FitsAlone(rows[to], size, room)
    ensures Scanned(rows, from, to + 1, items + (if rows[to].item.Some? then [rows[to].item.value] else []), oversized,
                    size, room)
  {
    var row := rows[to];
    forall k <- oversized ensures k != row.key { assert Explained(rows, from, to, k, size, room); }
    assert rows[from..to + 1] == rows[from..to] + [row];
    ItemsAppend(rows[from..to], [row], oversized);
    forall k <- oversized ensures Explained(rows, from, to + 1, k, size, room) {
      assert Explained(rows, from, to, k, size, room);
    }
  }

  lemma ScanSkip<T>(rows: seq<Row<T>>, from: nat, to: nat, items: seq<T>, oversized: seq<string>, size: T -> nat,
                    room: int)
    requires Distinct(rows) && Scanned(rows, from, to, items, oversized, size, room) && to < |rows|
    requires TooBig(rows[to], size, room)
    ensures Scanned(rows, from, to + 1, items, oversized + [rows[to].key], size, room)
  {
    var row := rows[to];
    assert rows[from..to + 1] == rows[from..to] + [row];
    ItemsAppend(rows[from..to], [row], oversized + [row.key]);
    ItemsSkipMore(rows[from..to], oversized, row.key);
    forall k <- oversized + [row.key] ensures Explained(rows, from, to + 1, k, size, room) {
      if k in oversized {
        assert Explained(rows, from, to, k, size, room);
      } else {
        assert rows[to].key == k;
      }
    }
  }

  /** A page with one more item is no lighter than that item alone on a truncated page. */
  lemma {:induction false} AloneIsLighter<T>(size: T -> nat, items: seq<T>, x: T, truncated: bool)
    ensures Load(size, Page([x], true)) <= Load(size, Page(items + [x], truncated))
  {
    if items == [] {
      assert items + [x] == [x];
    } else {
      assert (items + [x])[1..] == items[1..] + [x];
      AloneIsLighter(size, items[1..], x, truncated);
    }
  }

  /** Why a read stops before a row: it has scanned as many as it may, or the item there does not fit beside others. */
  ghost predicate Stops<T>(rows: seq<Row<T>>, from: nat, to: nat, items: seq<T>, skipped: bool, limit: nat,
                           size: T -> nat, room: int)
  {
    to < |rows| && from <= to ==>
      || to - from == limit
      || (rows[to].item.Some? && Load(size, Page(items + [rows[to].item.value], skipped)) > room)
  }

  /** What one read returns: it scans a stretch of rows, and its cursor is the last scanned key, or absent
      exactly when every row was scanned and nothing was left out. */
  ghost predicate ReadMeans<T>(rows: seq<Row<T>>, from: nat, to: nat, page: Page<T>, next: Option<string>,
                               oversized: seq<string>, limit: nat, size: T -> nat, room: int)
  {
    && Scanned(rows, from, to, page.items, oversized, size, room)
    && to - from <= limit && Stops(rows, from, to, page.items, oversized != [], limit, size, room)
    && page.truncated == next.Some?
    && (next.Some? <==> to < |rows| || oversized != [])
    && (next.Some? ==> to > from && next.value == rows[to - 1].key)
  }

  /** Where the reader stands before row `n`. */
  ghost predicate Reading<T>(rows: seq<Row<T>>, from: nat, n: nat, limit: nat, page: Page<T>, oversized: seq<string>,
                             last: Option<string>, size: T -> nat, room: int)
  {
    && n - from <= limit && Scanned(rows, from, n, page.items, oversized, size, room)
    && last == (if n == from then None else Some(rows[n - 1].key))
    && (page.truncated <==> oversized != []) && (page.truncated ==> n > from)
  }

  lemma ReadKeep<T>(rows: seq<Row<T>>, from: nat, n: nat, limit: nat, page: Page<T>, oversized: seq<string>,
                    last: Option<string>, size: T -> nat, room: int, next: Page<T>)
    requires Distinct(rows) && Reading(rows, from, n, limit, page, oversized, last, size, room)
    requires n < |rows| && n - from < limit && next.truncated == page.truncated
    requires next.items == page.items + if rows[n].item.Some? then [rows[n].item.value] else []
    requires rows[n].item.Some? ==> Load(size, next) <= room
    ensures Reading(rows, from, n + 1, limit, next, oversized, Some(rows[n].key), size, room)
  {
    if rows[n].item.Some? { AloneIsLighter(size, page.items, rows[n].item.value, page.truncated); }
    ScanKeep(rows, from, n, page.items, oversized, size, room);
  }

  lemma ReadSkip<T>(rows: seq<Row<T>>, from: nat, n: nat, limit: nat, page: Page<T>, oversized: seq<string>,
                    last: Option<string>, size: T -> nat, room: int)
    requires Distinct(rows) && Reading(rows, from, n, limit, page, oversized, last, size, room)
    requires n < |rows| && n - from < limit && TooBig(rows[n], size, room)
    ensures Reading(rows, from, n + 1, limit, Page(page.items, true), oversized + [rows[n].key], Some(rows[n].key),
                    size, room)
  {
    ScanSkip(rows, from, n, page.items, oversized, size, room);
  }

  /** An item that does not fit beside others but would alone has some before it, so the cursor moves. */
  lemma ReadBreaks<T>(rows: seq<Row<T>>, from: nat, n: nat, limit: nat, page: Page<T>, oversized: seq<string>,
                      last: Option<string>, size: T -> nat, room: int)
    requires Reading(rows, from, n, limit, page, oversized, last, size, room) && n < |rows| && rows[n].item.Some?
    requires Load(size, Page(page.items + [rows[n].item.value], page.truncated)) > room
    requires Load(size, Page([rows[n].item.value], false)) <= room
    ensures ReadMeans(rows, from, n, Page(page.items, true), last, oversized, limit, size, room)
  {
    if n == from { JoinNothing([rows[n].item.value]); }
  }

  lemma ReadEnds<T>(rows: seq<Row<T>>, from: nat, n: nat, limit: nat, page: Page<T>, oversized: seq<string>,
                    last: Option<string>, size: T -> nat, room: int)
    requires Reading(rows, from, n, limit, page, oversized, last, size, room) && limit > 0
    ensures n == |rows| ==>
      ReadMeans(rows, from, n, page, if page.truncated then last else None, oversized, limit, size, room)
    ensures n < |rows| && n - from == limit ==>
      ReadMeans(rows, from, n, Page(page.items, true), last, oversized, limit, size, room)
  {
  }

  /** The store's reader: at most `limit` rows, under its own page limit. An item that does not fit beside
      its predecessors ends the read before itself; one that would not fit alone is reported as oversized. */
  method ReadPage<T(!new)>(rows: seq<Row<T>>, after: Option<string>, limit: nat, fits: Page<T> -> bool,
                           ghost size: T -> nat, ghost room: int)
    returns (page: Page<T>, next: Option<string>, oversized: seq<string>, ghost to: nat)
    requires Distinct(rows) && limit > 0
    requires forall p: Page<T> :: fits(p) <==> Load(size, p) <= room
    ensures ReadMeans(rows, Start(rows, after), to, page, next, oversized, limit, size, room)
  {
    var from := Start(rows, after);
    page, oversized := Page([], false), [];
    var n, last := from, None;
    while n < |rows|
      invariant Reading(rows, from, n, limit, page, oversized, last, size, room)
      decreases |rows| - n
    {
      if n - from == limit {
        ReadEnds(rows, from, n, limit, page, oversized, last, size, room);
        return page.(truncated := true), last, oversized, n;
      }
      var row := rows[n];
      if row.item.None? {
        JoinNothing(page.items);
        ReadKeep(rows, from, n, limit, page, oversized, last, size, room, page);
      } else {
        var tried := page.(items := page.items + [row.item.value]);
        if fits(tried) {
          ReadKeep(rows, from, n, limit, page, oversized, last, size, room, tried);
          page := tried;
        } else {
          var single := Page([row.item.value], false);
          if fits(single) {
            // Revisit it on the next page.
            ReadBreaks(rows, from, n, limit, page, oversized, last, size, room);
            return page.(truncated := true), last, oversized, n;
          }
          ReadSkip(rows, from, n, limit, page, oversized, last, size, room);
          page, oversized := page.(truncated := true), oversized + [row.key];
        }
      }
      n, last := n + 1, Some(row.key);
    }
    ReadEnds(rows, from, n, limit, page, oversized, last, size, room);
    next, to := if page.truncated then last else None, n;
  }

  // ---- The hook's own handling of a batch ----

  /** How the hook treats items: the form they take when offered (absent if an attempt count overflows),
      the context-free size test, their key, the store's page limit and the reply budget. */
  datatype Policy<!T> = Policy(
    prepare: T -> Option<T>, exceeds: T -> bool, key: T -> string, fits: Page<T> -> bool, accepts: Page<T> -> bool)

  /** Both size limits, said as loads. */
  datatype Sizes<!T> = Sizes(store: T -> nat, storeRoom: int, reply: T -> nat, replyRoom: int)

  ghost predicate Measured<T(!new)>(policy: Policy<T>, sizes: Sizes<T>) {
    && (forall p: Page<T> :: policy.fits(p) <==> Load(sizes.store, p) <= sizes.storeRoom)
    && (forall p: Page<T> :: policy.accepts(p) <==> p.items != [] && Load(sizes.reply, p) <= sizes.replyRoom)
  }

  ghost predicate Keyed<T>(rows: seq<Row<T>>, policy: Policy<T>) {
    && Distinct(rows)
    && forall i :: 0 <= i < |rows| && rows[i].item.Some? ==> policy.key(rows[i].item.value) == rows[i].key
  }

  /** Why a row may be written off for good: over the store's limit, or over the context-free bound. */
  ghost predicate WrittenOff<T>(row: Row<T>, policy: Policy<T>, sizes: Sizes<T>) {
    TooBig(row, sizes.store, sizes.storeRoom) || (row.item.Some? && policy.exceeds(row.item.value))
  }

  /** The row holds nothing that could be delivered now, even alone on an untruncated page. */
  ghost predicate Undeliverable<T>(row: Row<T>, policy: Policy<T>, sizes: Sizes<T>) {
    || row.item.None?
    || WrittenOff(row, policy, sizes)
    || (var y := policy.prepare(row.item.value);
        y.Some? && Load(sizes.reply, Page([y.value], false)) > sizes.replyRoom)
  }

  function Exceeding<T>(policy: Policy<T>, items: seq<T>): seq<string> {
    if items == [] then []
    else (if policy.exceeds(items[0]) then [policy.key(items[0])] else []) + Exceeding(policy, items[1..])
  }

  function Retain<T>(policy: Policy<T>, items: seq<T>, skip: seq<string>): seq<T> {
    if items == [] then []
    else (if policy.key(items[0]) !in skip then [items[0]] else []) + Retain(policy, items[1..], skip)
  }

  /** The offered forms, in order. */
  function Prepared<T>(prepare: T -> Option<T>, items: seq<T>): seq<T> {
    if items == [] then []
    else (match prepare(items[0]) case Some(y) => [y] case None => []) + Prepared(prepare, items[1..])
  }

  lemma {:induction false} ExceedingMember<T>(policy: Policy<T>, items: seq<T>, k: string) returns (x: T)
    requires k in Exceeding(policy, items)
    ensures x in items && policy.exceeds(x) && policy.key(x) == k
  {
    if policy.exceeds(items[0]) && policy.key(items[0]) == k {
      x := items[0];
    } else {
      x := ExceedingMember(policy, items[1..], k);
    }
  }

  lemma {:induction false} RetainSubsequence<T>(policy: Policy<T>, items: seq<T>, skip: seq<string>)
    ensures Subsequence(Retain(policy, items, skip), items)
  {
    if items != [] {
      var rest := Retain(policy, items[1..], skip);
      RetainSubsequence(policy, items[1..], skip);
      assert [items[0]] + items[1..] == items;
      if policy.key(items[0]) in skip {
        SubsequenceSkips(rest, items[1..], items[0]);
        assert Retain(policy, items, skip) == rest;
      } else {
        SubsequenceRefl([items[0]]);
        SubsequenceAppend([items[0]], [items[0]], rest, items[1..]);
      }
    }
  }

  lemma {:induction false} RetainMember<T>(policy: Policy<T>, items: seq<T>, skip: seq<string>, x: T)
    requires x in items && policy.key(x) !in skip
    ensures x in Retain(policy, items, skip)
  {
    if x != items[0] { RetainMember(policy, items[1..], skip, x); }
  }

  lemma {:induction false} PreparedSubsequence<T>(prepare: T -> Option<T>, xs: seq<T>, ys: seq<T>)
    requires Subsequence(xs, ys)
    ensures Subsequence(Prepared(prepare, xs), Prepared(prepare, ys))
    decreases |ys|
  {
    if xs == [] {
    } else if xs[0] == ys[0] {
      PreparedSubsequence(prepare, xs[1..], ys[1..]);
      var head := match prepare(xs[0]) case Some(y) => [y] case None => [];
      SubsequenceRefl(head);
      SubsequenceAppend(head, head, Prepared(prepare, xs[1..]), Prepared(prepare, ys[1..]));
    } else {
      PreparedSubsequence(prepare, xs, ys[1..]);
      var head := match prepare(ys[0]) case Some(y) => [y] case None => [];
      SubsequenceAppend([], head, Prepared(prepare, xs), Prepared(prepare, ys[1..]));
      assert [] + Prepared(prepare, xs) == Prepared(prepare, xs);
    }
  }

  lemma {:induction false} PreparedMember<T>(prepare: T -> Option<T>, items: seq<T>, x: T)
    requires x in items && prepare(x).Some?
    ensures prepare(x).value in Prepared(prepare, items)
  {
    if x != items[0] { PreparedMember(prepare, items[1..], x); }
  }

  /** The loop that turns queued items into offers; an overflowing attempt count fails the whole read. */
  method PrepareItems<T>(prepare: T -> Option<T>, items: seq<T>) returns (r: Option<seq<T>>)
    ensures r.Some? ==> r.value == Prepared(prepare, items) && forall x <- items :: prepare(x).Some?
    ensures r.None? ==> exists x :: x in items && prepare(x).None?
  {
    var done := [];
    JoinNothing(Prepared(prepare, items));
    for n := 0 to |items|
      invariant done + Prepared(prepare, items[n..]) == Prepared(prepare, items)
      invariant forall i :: 0 <= i < n ==> prepare(items[i]).Some?
    {
      SliceFirst(items, n);
      var y := prepare(items[n]);
      if y.None? { return None; }
      Group2(done, [y.value], Prepared(prepare, items[n + 1..]));
      done := done + [y.value];
    }
    JoinNothing(done);
    r := Some(done);
  }

  /** The loop that adds the keys of items over the context-free bound. */
  method FindExceeding<T>(policy: Policy<T>, items: seq<T>) returns (keys: seq<string>)
    ensures keys == Exceeding(policy, items)
  {
    keys := [];
    JoinNothing(Exceeding(policy, items));
    for n := 0 to |items|
      invariant keys + Exceeding(policy, items[n..]) == Exceeding(policy, items)
    {
      SliceFirst(items, n);
      JoinNothing(Exceeding(policy, items[n + 1..]));
      if policy.exceeds(items[n]) {
        Group2(keys, [policy.key(items[n])], Exceeding(policy, items[n + 1..]));
        keys := keys + [policy.key(items[n])];
      }
    }
    JoinNothing(keys);
  }

  // ---- The search ----

  datatype Found<+T> = Overflow | Nothing(truncated: bool) | Deliver(page: Page<T>)

  /**
   What is recorded about a row. One over the context-free bound, or too big for the store on any page, is marked; the
   mark says true only if the store handed the item out and it is over the bound, and false only if the store could not
   hand it out alone.
   */
  ghost predicate Marked<T>(row: Row<T>, marks: seq<(string, bool)>, policy: Policy<T>, sizes: Sizes<T>) {
    var k := row.key;
    if row.item.None? then Unmarked(k, marks)
    else
      && (policy.exceeds(row.item.value) || !FitsAlone(row, sizes.store, sizes.storeRoom) ==>
            (k, true) in marks || (k, false) in marks)
      && ((k, true) in marks ==> policy.exceeds(row.item.value) && FitsAlone(row, sizes.store, sizes.storeRoom))
      && ((k, false) in marks ==> TooBig(row, sizes.store, sizes.storeRoom))
  }

  predicate Unmarked(key: string, marks: seq<(string, bool)>) {
    (key, true) !in marks && (key, false) !in marks
  }

  ghost predicate HasRow<T>(rows: seq<Row<T>>, from: nat, to: nat, key: string)
    requires to <= |rows|
  {
    exists i :: from <= i < to && rows[i].key == key
  }

  /** The marks are exactly those of the rows of a stretch. */
  ghost predicate MarksExact<T>(
    marks: seq<(string, bool)>, rows: seq<Row<T>>, from: nat, to: nat, policy: Policy<T>, sizes: Sizes<T>)
  {
    && from <= to <= |rows|
    && (forall i :: from <= i < to ==> Marked(rows[i], marks, policy, sizes))
    && forall m <- marks :: HasRow(rows, from, to, m.0)
  }

  ghost predicate MarkSound<T>(key: string, rows: seq<Row<T>>, policy: Policy<T>, sizes: Sizes<T>) {
    exists i :: 0 <= i < |rows| && rows[i].key == key && WrittenOff(rows[i], policy, sizes)
  }

  ghost predicate Searched<T>(rows: seq<Row<T>>, policy: Policy<T>, sizes: Sizes<T>, found: Found<T>) {
    match found
    case Overflow => exists i :: 0 <= i < |rows| && rows[i].item.Some? && policy.prepare(rows[i].item.value).None?
    case Nothing(_) => forall i :: 0 <= i < |rows| ==> Undeliverable(rows[i], policy, sizes)
    case Deliver(page) =>
      && page.items != [] && Load(sizes.reply, page) <= sizes.replyRoom
      && Subsequence(page.items, Prepared(policy.prepare, Items(rows, [])))
  }

  lemma {:induction false} ItemRow<T>(rows: seq<Row<T>>, skip: seq<string>, x: T) returns (i: nat)
    requires x in Items(rows, skip)
    ensures i < |rows| && rows[i].item == Some(x) && rows[i].key !in skip
  {
    if rows[0].item == Some(x) && rows[0].key !in skip {
      i := 0;
    } else {
      var j := ItemRow(rows[1..], skip, x);
      i := j + 1;
    }
  }

  lemma ScannedRow<T>(rows: seq<Row<T>>, from: nat, to: nat, items: seq<T>, oversized: seq<string>,
                      size: T -> nat, room: int, x: T) returns (i: nat)
    requires Scanned(rows, from, to, items, oversized, size, room) && x in items
    ensures from <= i < to && rows[i].item == Some(x)
  {
    var j := ItemRow(rows[from..to], oversized, x);
    i := from + j;
  }

  /** What is recorded about each key written off: whether only the reply, not the store, is too small for it. */
  function MarksOf(all: seq<string>, oversized: seq<string>): (marks: seq<(string, bool)>)
    ensures forall m <- marks :: m.0 in all
  {
    seq(|all|, i requires 0 <= i < |all| => (all[i], all[i] !in oversized))
  }

  lemma MarksOfMeans(all: seq<string>, oversized: seq<string>, k: string)
    ensures (k, false) in MarksOf(all, oversized) <==> k in all && k in oversized
    ensures (k, true) in MarksOf(all, oversized) <==> k in all && k !in oversized
  {
    var marks := MarksOf(all, oversized);
    if k in all {
      var i :| 0 <= i < |all| && all[i] == k;
      assert marks[i] == (k, k !in oversized);
    }
  }

  lemma {:induction false} ExceedingHas<T>(policy: Policy<T>, items: seq<T>, x: T)
    requires x in items && policy.exceeds(x)
    ensures policy.key(x) in Exceeding(policy, items)
  {
    if x != items[0] { ExceedingHas(policy, items[1..], x); }
  }

  /** The keys that a batch writes off, row by row. */
  lemma BatchKeys<T>(rows: seq<Row<T>>, from: nat, to: nat, items: seq<T>, oversized: seq<string>,
                     policy: Policy<T>, sizes: Sizes<T>, i: nat)
    requires Keyed(rows, policy) && Scanned(rows, from, to, items, oversized, sizes.store, sizes.storeRoom)
    requires from <= i < to
    ensures rows[i].key in oversized ==> TooBig(rows[i], sizes.store, sizes.storeRoom)
    ensures rows[i].key !in oversized ==>
      (rows[i].key in Exceeding(policy, items) <==> rows[i].item.Some? && policy.exceeds(rows[i].item.value))
  {
    var k := rows[i].key;
    if k in oversized {
      assert Explained(rows, from, to, k, sizes.store, sizes.storeRoom);
    } else {
      if rows[i].item.Some? && policy.exceeds(rows[i].item.value) {
        ItemsMember(rows[from..to], oversized, i - from);
        ExceedingHas(policy, items, rows[i].item.value);
      }
      if k in Exceeding(policy, items) {
        var x := ExceedingMember(policy, items, k);
        var j := ScannedRow(rows, from, to, items, oversized, sizes.store, sizes.storeRoom, x);
        assert rows[j].key == k;
      }
    }
  }

  lemma BatchRow<T>(rows: seq<Row<T>>, from: nat, to: nat, items: seq<T>, oversized: seq<string>,
                    policy: Policy<T>, sizes: Sizes<T>, i: nat)
    requires Keyed(rows, policy) && Scanned(rows, from, to, items, oversized, sizes.store, sizes.storeRoom)
    requires from <= i < to
    ensures Marked(rows[i], MarksOf(oversized + Exceeding(policy, items), oversized), policy, sizes)
  {
    BatchKeys(rows, from, to, items, oversized, policy, sizes, i);
    MarksOfMeans(oversized + Exceeding(policy, items), oversized, rows[i].key);
  }

  /** What a batch writes off is exactly what its rows call for. */
  lemma BatchMarks<T>(rows: seq<Row<T>>, from: nat, to: nat, items: seq<T>, oversized: seq<string>,
                      policy: Policy<T>, sizes: Sizes<T>)
    requires Keyed(rows, policy) && Scanned(rows, from, to, items, oversized, sizes.store, sizes.storeRoom)
    ensures MarksExact(MarksOf(oversized + Exceeding(policy, items), oversized), rows, from, to, policy, sizes)
  {
    var marks := MarksOf(oversized + Exceeding(policy, items), oversized);
    forall i | from <= i < to ensures Marked(rows[i], marks, policy, sizes) {
      BatchRow(rows, from, to, items, oversized, policy, sizes, i);
    }
    forall m <- marks ensures HasRow(rows, from, to, m.0) {
      BatchHasRow(rows, from, to, items, oversized, policy, sizes, m.0);
    }
  }

  lemma BatchHasRow<T>(rows: seq<Row<T>>, from: nat, to: nat, items: seq<T>, oversized: seq<string>,
                       policy: Policy<T>, sizes: Sizes<T>, k: string)
    requires Keyed(rows, policy) && Scanned(rows, from, to, items, oversized, sizes.store, sizes.storeRoom)
    requires k in oversized + Exceeding(policy, items)
    ensures HasRow(rows, from, to, k)
  {
    if k in oversized {
      assert Explained(rows, from, to, k, sizes.store, sizes.storeRoom);
    } else {
      var x := ExceedingMember(policy, items, k);
      var i := ScannedRow(rows, from, to, items, oversized, sizes.store, sizes.storeRoom, x);
      assert rows[i].key == k;
    }
  }

  /** Nothing is marked without a reason. */
  lemma ExactIsSound<T>(marks: seq<(string, bool)>, rows: seq<Row<T>>, from: nat, to: nat, policy: Policy<T>,
                        sizes: Sizes<T>, m: (string, bool))
    requires MarksExact(marks, rows, from, to, policy, sizes) && m in marks
    ensures MarkSound(m.0, rows, policy, sizes)
  {
    assert HasRow(rows, from, to, m.0);
    var i :| from <= i < to && rows[i].key == m.0;
    assert Marked(rows[i], marks, policy, sizes);
    assert m == (m.0, m.1);
    if m.1 { assert (m.0, true) in marks; } else { assert (m.0, false) in marks; }
  }

  /** Marks of neighbouring stretches are together those of the whole. */
  lemma MarksJoin<T>(a: seq<(string, bool)>, b: seq<(string, bool)>, rows: seq<Row<T>>, from: nat, mid: nat, to: nat,
                     policy: Policy<T>, sizes: Sizes<T>)
    requires Distinct(rows) && MarksExact(a, rows, from, mid, policy, sizes)
    requires MarksExact(b, rows, mid, to, policy, sizes)
    ensures MarksExact(a + b, rows, from, to, policy, sizes)
  {
    forall i | from <= i < to ensures Marked(rows[i], a + b, policy, sizes) {
      if i < mid {
        OtherStretch(b, rows, mid, to, policy, sizes, i);
        assert Marked(rows[i], a, policy, sizes);
      } else {
        OtherStretch(a, rows, from, mid, policy, sizes, i);
        assert Marked(rows[i], b, policy, sizes);
      }
    }
    forall m <- a + b ensures HasRow(rows, from, to, m.0) {
      if m in a { assert HasRow(rows, from, mid, m.0); } else { assert HasRow(rows, mid, to, m.0); }
    }
  }

  lemma MarkedHasRow<T>(marks: seq<(string, bool)>, rows: seq<Row<T>>, from: nat, to: nat, policy: Policy<T>,
                        sizes: Sizes<T>, m: (string, bool))
    requires MarksExact(marks, rows, from, to, policy, sizes) && m in marks
    ensures HasRow(rows, from, to, m.0)
  {
  }

  lemma OtherStretch<T>(marks: seq<(string, bool)>, rows: seq<Row<T>>, from: nat, to: nat, policy: Policy<T>,
                        sizes: Sizes<T>, i: nat)
    requires Distinct(rows) && MarksExact(marks, rows, from, to, policy, sizes) && i < |rows| && !(from <= i < to)
    ensures Unmarked(rows[i].key, marks)
  {
    var k := rows[i].key;
    if (k, true) in marks { MarkedHasRow(marks, rows, from, to, policy, sizes, (k, true)); }
    if (k, false) in marks { MarkedHasRow(marks, rows, from, to, policy, sizes, (k, false)); }
  }

  /** A row that is scanned and not written off is still in the batch after the write-offs are removed. */
  lemma KeptInBatch<T>(rows: seq<Row<T>>, from: nat, to: nat, items: seq<T>, oversized: seq<string>,
                       policy: Policy<T>, sizes: Sizes<T>, i: nat)
    requires Keyed(rows, policy) && Scanned(rows, from, to, items, oversized, sizes.store, sizes.storeRoom)
    requires from <= i < to && rows[i].item.Some? && !WrittenOff(rows[i], policy, sizes)
    ensures rows[i].item.value in Retain(policy, items, oversized + Exceeding(policy, items))
  {
    NotOversized(rows, from, to, items, oversized, policy, sizes, i);
    NotExceeding(rows, from, to, items, oversized, policy, sizes, i);
    ItemsMember(rows[from..to], oversized, i - from);
    RetainMember(policy, items, oversized + Exceeding(policy, items), rows[i].item.value);
  }

  lemma NotOversized<T>(rows: seq<Row<T>>, from: nat, to: nat, items: seq<T>, oversized: seq<string>,
                        policy: Policy<T>, sizes: Sizes<T>, i: nat)
    requires Distinct(rows) && Scanned(rows, from, to, items, oversized, sizes.store, sizes.storeRoom)
    requires from <= i < to && !WrittenOff(rows[i], policy, sizes)
    ensures rows[i].key !in oversized
  {
    forall l <- oversized ensures l != rows[i].key {
      assert Explained(rows, from, to, l, sizes.store, sizes.storeRoom);
    }
  }

  lemma NotExceeding<T>(rows: seq<Row<T>>, from: nat, to: nat, items: seq<T>, oversized: seq<string>,
                        policy: Policy<T>, sizes: Sizes<T>, i: nat)
    requires Keyed(rows, policy) && Scanned(rows, from, to, items, oversized, sizes.store, sizes.storeRoom)
    requires from <= i < to && !WrittenOff(rows[i], policy, sizes)
    ensures rows[i].key !in Exceeding(policy, items)
  {
    forall l <- Exceeding(policy, items) ensures l != rows[i].key {
      var z := ExceedingMember(policy, items, l);
      var j := ScannedRow(rows, from, to, items, oversized, sizes.store, sizes.storeRoom, z);
      assert rows[j].item == Some(z);
    }
  }

  /** If nothing of a batch is kept by the packing, nothing in it was deliverable. */
  lemma BatchEmpty<T>(rows: seq<Row<T>>, from: nat, to: nat, items: seq<T>, oversized: seq<string>,
                      policy: Policy<T>, sizes: Sizes<T>, truncated: bool)
    requires Keyed(rows, policy) && Scanned(rows, from, to, items, oversized, sizes.store, sizes.storeRoom)
    requires var kept := Retain(policy, items, oversized + Exceeding(policy, items));
      && (forall x <- kept :: policy.prepare(x).Some?)
      && Fit(sizes.reply, Page(Prepared(policy.prepare, kept), truncated), sizes.replyRoom).items == []
    ensures forall i :: from <= i < to ==> Undeliverable(rows[i], policy, sizes)
  {
    var kept := Retain(policy, items, oversized + Exceeding(policy, items));
    var ready := Prepared(policy.prepare, kept);
    forall i | from <= i < to ensures Undeliverable(rows[i], policy, sizes) {
      if rows[i].item.Some? && !WrittenOff(rows[i], policy, sizes) {
        KeptInBatch(rows, from, to, items, oversized, policy, sizes, i);
        var x := rows[i].item.value;
        PreparedMember(policy.prepare, kept, x);
        var j :| 0 <= j < |ready| && ready[j] == policy.prepare(x).value;
        PackEmpty(sizes.reply, ready, Page([], truncated), sizes.replyRoom, j);
      }
    }
  }

  lemma BatchSubsequence<T>(rows: seq<Row<T>>, from: nat, to: nat, items: seq<T>, oversized: seq<string>,
                            policy: Policy<T>, skip: seq<string>, out: seq<T>)
    requires from <= to <= |rows| && items == Items(rows[from..to], oversized)
    requires Subsequence(out, Prepared(policy.prepare, Retain(policy, items, skip)))
    ensures Subsequence(out, Prepared(policy.prepare, Items(rows[..to], [])))
  {
    var all := Items(rows[..to], []);
    assert rows[..to] == rows[..from] + rows[from..to];
    ItemsAppend(rows[..from], rows[from..to], []);
    var (a, b) := (Items(rows[..from], []), Items(rows[from..to], []));
    ItemsSubsequence(rows[from..to], oversized);
    RetainSubsequence(policy, items, skip);
    var kept := Retain(policy, items, skip);
    SubsequenceTrans(kept, items, b);
    SubsequenceAppend([], a, kept, b);
    JoinNothing(kept);
    PreparedSubsequence(policy.prepare, kept, all);
    SubsequenceTrans(out, Prepared(policy.prepare, kept), Prepared(policy.prepare, all));
  }

  lemma BatchOverflow<T>(rows: seq<Row<T>>, from: nat, to: nat, items: seq<T>, oversized: seq<string>,
                         policy: Policy<T>, sizes: Sizes<T>, skip: seq<string>, x: T)
    requires Scanned(rows, from, to, items, oversized, sizes.store, sizes.storeRoom)
    requires x in Retain(policy, items, skip) && policy.prepare(x).None?
    ensures Searched(rows[..to], policy, sizes, Overflow)
  {
    RetainSubsequence(policy, items, skip);
    SubsequenceMember(Retain(policy, items, skip), items, x);
    var i := ScannedRow(rows, from, to, items, oversized, sizes.store, sizes.storeRoom, x);
    assert rows[..to][i].item == Some(x);
  }

  // ---- What the search leaves out, and when it says so ----

  function Keys(marks: seq<(string, bool)>): seq<string> {
    seq(|marks|, i requires 0 <= i < |marks| => marks[i].0)
  }

  lemma {:induction false} RetainItems<T>(policy: Policy<T>, rows: seq<Row<T>>, skip: seq<string>, all: seq<string>)
    requires forall r <- rows :: r.item.Some? ==> policy.key(r.item.value) == r.key
    requires forall k <- skip :: k in all
    ensures Retain(policy, Items(rows, skip), all) == Items(rows, all)
  {
    if rows != [] {
      assert rows[0] in rows;
      RetainItems(policy, rows[1..], skip, all);
      if rows[0].item.Some? && rows[0].key !in skip {
        var rest := Items(rows[1..], skip);
        assert Items(rows, skip)[0] == rows[0].item.value && Items(rows, skip)[1..] == rest;
      } else {
        assert Items(rows, skip) == Items(rows[1..], skip);
      }
    }
  }

  lemma {:induction false} ItemsSame<T>(rows: seq<Row<T>>, a: seq<string>, b: seq<string>)
    requires forall r <- rows :: r.key in a <==> r.key in b
    ensures Items(rows, a) == Items(rows, b)
  {
    if rows != [] {
      assert rows[0] in rows;
      ItemsSame(rows[1..], a, b);
    }
  }

  lemma {:induction false} PreparedAll<T>(prepare: T -> Option<T>, items: seq<T>)
    requires forall x <- items :: prepare(x).Some?
    ensures |Prepared(prepare, items)| == |items|
  {
    if items != [] {
      assert items[0] in items;
      PreparedAll(prepare, items[1..]);
    }
  }

  lemma {:induction false} SubsequenceSame<T>(xs: seq<T>, ys: seq<T>)
    requires Subsequence(xs, ys) && |xs| == |ys|
    ensures xs == ys
    decreases |ys|
  {
    if xs != [] {
      if xs[0] == ys[0] {
        SubsequenceSame(xs[1..], ys[1..]);
        HeadTail(xs);
        HeadTail(ys);
      } else {
        SubsequenceLength(xs, ys[1..]);
      }
    }
  }

  /** A page that is not marked truncated holds everything there is, and nothing was left out before. */
  ghost predicate Whole<T>(rows: seq<Row<T>>, policy: Policy<T>, carried: bool, found: Found<T>) {
    match found
    case Overflow => true
    case Nothing(truncated) => !truncated ==> !carried && Items(rows, []) == []
    case Deliver(page) => !page.truncated ==> !carried && page.items == Prepared(policy.prepare, Items(rows, []))
  }

  /** The page is the greedy packing of the offered forms of those rows of a stretch that are not written off. */
  ghost predicate Packed<T>(rows: seq<Row<T>>, from: nat, to: nat, marks: seq<(string, bool)>, policy: Policy<T>,
                            page: Page<T>)
    requires from <= to <= |rows|
  {
    exists flag ::
      page == Greedy(policy.accepts, Prepared(policy.prepare, Items(rows[from..to], Keys(marks))), Page([], flag))
  }

  /** The two ways a batch is told complete: nothing was fitted away and nothing written off. */
  lemma BatchWhole<T>(rows: seq<Row<T>>, to: nat, policy: Policy<T>, sizes: Sizes<T>, marks: seq<(string, bool)>,
                      kept: seq<T>, full: Page<T>, fitted: Page<T>)
    requires to == |rows| && kept == Items(rows[0..to], Keys(marks)) && marks == []
    requires (forall x <- kept :: policy.prepare(x).Some?) && full.items == Prepared(policy.prepare, kept)
    requires fitted == Fit(sizes.reply, full, sizes.replyRoom) && !fitted.truncated
    ensures fitted.items == Prepared(policy.prepare, Items(rows, []))
    ensures fitted.items == [] ==> Items(rows, []) == []
  {
    FitMeaning(sizes.reply, full, sizes.replyRoom);
    SubsequenceLength(fitted.items, full.items);
    SubsequenceSame(fitted.items, full.items);
    PreparedAll(policy.prepare, kept);
    assert rows[0..to] == rows;
  }

  /** Prepare and pack what is left of a batch; `from` and `to` are the stretch of rows it was read from. */
  method OfferBatch<T(!new)>(page: Page<T>, oversized: seq<string>, policy: Policy<T>, carried: bool,
                             ghost rows: seq<Row<T>>, ghost from: nat, ghost to: nat, ghost sizes: Sizes<T>)
    returns (found: Found<T>, marks: seq<(string, bool)>)
    requires Keyed(rows, policy) && Measured(policy, sizes)
    requires Scanned(rows, from, to, page.items, oversized, sizes.store, sizes.storeRoom)
    ensures !found.Nothing? ==> Searched(rows[..to], policy, sizes, found)
    ensures found.Nothing? ==> forall i :: from <= i < to ==> Undeliverable(rows[i], policy, sizes)
    ensures MarksExact(marks, rows, from, to, policy, sizes)
    ensures found.Deliver? ==> Packed(rows, from, to, marks, policy, found.page)
    ensures found.Nothing? && (page.truncated || carried) ==> found.truncated
    ensures found.Deliver? && (page.truncated || carried) ==> found.page.truncated
    ensures from == 0 && to == |rows| ==> Whole(rows, policy, carried, found)
  {
    var over := FindExceeding(policy, page.items);
    var all := oversized + over;
    BatchMarks(rows, from, to, page.items, oversized, policy, sizes);
    marks := MarksOf(all, oversized);
    var kept := Retain(policy, page.items, all);
    KeptIs(rows, from, to, page.items, oversized, policy, sizes, all, marks);
    var ready := PrepareItems(policy.prepare, kept);
    if ready.None? {
      ghost var x :| x in kept && policy.prepare(x).None?;
      BatchOverflow(rows, from, to, page.items, oversized, policy, sizes, all, x);
      return Overflow, marks;
    }
    var full := Page(ready.value, page.truncated || all != [] || carried);
    var fitted := PackLoop(full, policy.accepts, sizes.reply, sizes.replyRoom);
    FitMeaning(sizes.reply, full, sizes.replyRoom);
    if from == 0 && to == |rows| && !fitted.truncated {
      BatchWhole(rows, to, policy, sizes, marks, kept, full, fitted);
    }
    PackIsGreedy(sizes.reply, sizes.replyRoom, policy.accepts, full.items, Page([], full.truncated));
    if fitted.items != [] {
      BatchSubsequence(rows, from, to, page.items, oversized, policy, all, fitted.items);
      found := Deliver(fitted);
    } else {
      BatchEmpty(rows, from, to, page.items, oversized, policy, sizes, full.truncated);
      found := Nothing(carried || fitted.truncated);
    }
  }

  /** What is left of a batch are the items of its rows that are not marked. */
  lemma KeptIs<T>(rows: seq<Row<T>>, from: nat, to: nat, items: seq<T>, oversized: seq<string>, policy: Policy<T>,
                  sizes: Sizes<T>, all: seq<string>, marks: seq<(string, bool)>)
    requires Keyed(rows, policy) && Scanned(rows, from, to, items, oversized, sizes.store, sizes.storeRoom)
    requires (forall k <- oversized :: k in all) && marks == MarksOf(all, oversized)
    ensures Retain(policy, items, all) == Items(rows[from..to], Keys(marks))
    ensures marks == [] <==> all == []
  {
    assert Keys(marks) == all;
    forall r <- rows[from..to] ensures r.item.Some? ==> policy.key(r.item.value) == r.key {
      var i :| from <= i < to && rows[i] == r;
    }
    RetainItems(policy, rows[from..to], oversized, all);
  }

  /** One turn of the page loop: read a batch, write off what cannot travel, prepare and pack the rest. */
  method SearchBatch<T(!new)>(rows: seq<Row<T>>, after: Option<string>, limit: nat, policy: Policy<T>, carried: bool,
                              ghost sizes: Sizes<T>)
    returns (found: Found<T>, marks: seq<(string, bool)>, next: Option<string>, ghost to: nat)
    requires Keyed(rows, policy) && limit > 0 && Measured(policy, sizes)
    ensures Start(rows, after) <= to <= |rows|
    ensures next.Some? ==> Start(rows, after) < to && Start(rows, next) == to
    ensures next.None? ==> to == |rows|
    ensures !found.Nothing? ==> Searched(rows[..to], policy, sizes, found)
    ensures found.Nothing? ==> forall i :: Start(rows, after) <= i < to ==> Undeliverable(rows[i], policy, sizes)
    ensures MarksExact(marks, rows, Start(rows, after), to, policy, sizes)
    ensures found.Deliver? ==> Packed(rows, Start(rows, after), to, marks, policy, found.page)
    ensures Stretch(rows, Start(rows, after), to, limit, policy)
    ensures found.Nothing? && (next.Some? || carried) ==> found.truncated
    ensures found.Deliver? && (next.Some? || carried) ==> found.page.truncated
    ensures after.None? && next.None? ==> Whole(rows, policy, carried, found)
  {
    var page, cursor, oversized;
    page, cursor, oversized, to := ReadPage(rows, after, limit, policy.fits, sizes.store, sizes.storeRoom);
    next := cursor;
    if next.Some? { StartAt(rows, to - 1); }
    ReadStretch(rows, Start(rows, after), to, page, next, oversized, limit, policy, sizes);
    found, marks := OfferBatch(page, oversized, policy, carried, rows, Start(rows, after), to, sizes);
  }

  /** A batch goes on for `limit` rows, unless the next row does not fit on a store page beside the others. */
  ghost predicate Stretch<T>(rows: seq<Row<T>>, from: nat, to: nat, limit: nat, policy: Policy<T>) {
    && from <= to <= |rows| && to - from <= limit
    && (to < |rows| && to - from < limit ==>
          rows[to].item.Some? && !policy.fits(Page(Items(rows[from..to], []) + [rows[to].item.value], false)))
  }

  lemma ReadStretch<T(!new)>(rows: seq<Row<T>>, from: nat, to: nat, page: Page<T>, next: Option<string>,
                             oversized: seq<string>, limit: nat, policy: Policy<T>, sizes: Sizes<T>)
    requires Measured(policy, sizes)
    requires ReadMeans(rows, from, to, page, next, oversized, limit, sizes.store, sizes.storeRoom)
    ensures Stretch(rows, from, to, limit, policy)
  {
    if to < |rows| && to - from < limit {
      var all, x := Items(rows[from..to], []), rows[to].item.value;
      ItemsSubsequence(rows[from..to], oversized);
      SubsequenceRefl([x]);
      SubsequenceAppend(page.items, all, [x], [x]);
      SubsequenceTotal(sizes.store, page.items + [x], all + [x]);
    }
  }

  /** How a search of one state ended: what was found, in which stretch of rows, and what was marked on the way. */
  ghost predicate Ended<T>(rows: seq<Row<T>>, from: nat, to: nat, limit: nat, policy: Policy<T>, sizes: Sizes<T>,
                           carried: bool, found: Found<T>, marks: seq<(string, bool)>)
  {
    && from <= to <= |rows| && (found.Nothing? ==> to == |rows|)
    && (!found.Nothing? ==> Stretch(rows, from, to, limit, policy))
    && Searched(rows[..to], policy, sizes, found)
    && (forall i :: 0 <= i < from ==> Undeliverable(rows[i], policy, sizes))
    && MarksExact(marks, rows, 0, to, policy, sizes)
    && (found.Deliver? ==> Packed(rows, from, to, marks, policy, found.page))
    && Whole(rows, policy, carried, found)
  }

  /** Marks of earlier rows say nothing about a stretch. */
  lemma PackedMore<T>(rows: seq<Row<T>>, from: nat, to: nat, a: seq<(string, bool)>, b: seq<(string, bool)>,
                      policy: Policy<T>, sizes: Sizes<T>, page: Page<T>)
    requires Distinct(rows) && MarksExact(a, rows, 0, from, policy, sizes)
    requires MarksExact(b, rows, from, to, policy, sizes)
    requires Packed(rows, from, to, b, policy, page)
    ensures Packed(rows, from, to, a + b, policy, page)
  {
    forall r <- rows[from..to] ensures r.key in Keys(a + b) <==> r.key in Keys(b) {
      var i :| from <= i < to && rows[i] == r;
      OtherStretch(a, rows, 0, from, policy, sizes, i);
      KeysJoin(a, b, r.key);
    }
    ItemsSame(rows[from..to], Keys(a + b), Keys(b));
  }

  lemma KeysJoin(a: seq<(string, bool)>, b: seq<(string, bool)>, k: string)
    requires Unmarked(k, a)
    ensures k in Keys(a + b) <==> k in Keys(b)
  {
    assert Keys(a + b) == Keys(a) + Keys(b);
    NoKey(a, k);
  }

  lemma NoKey(a: seq<(string, bool)>, k: string)
    requires Unmarked(k, a)
    ensures k !in Keys(a)
  {
    forall i | 0 <= i < |a| ensures Keys(a)[i] != k {
      assert a[i] in a && a[i] == (a[i].0, a[i].1);
      if a[i].1 { assert a[i] == (a[i].0, true); } else { assert a[i] == (a[i].0, false); }
    }
  }

  /** The page loop for one delivery state. It ends because every cursor is past the one before. */
  method SearchState<T(!new)>(rows: seq<Row<T>>, limit: nat, policy: Policy<T>, carried: bool, ghost sizes: Sizes<T>)
    returns (found: Found<T>, marks: seq<(string, bool)>, ghost from: nat, ghost to: nat)
    requires Keyed(rows, policy) && limit > 0 && Measured(policy, sizes)
    ensures Ended(rows, from, to, limit, policy, sizes, carried, found, marks)
  {
    var truncated, after := carried, None;
    marks, from := [], 0;
    while true
      invariant from == Start(rows, after) <= |rows|
      invariant (after.Some? || carried ==> truncated) && (after.None? ==> truncated == carried)
      invariant forall i :: 0 <= i < from ==> Undeliverable(rows[i], policy, sizes)
      invariant MarksExact(marks, rows, 0, from, policy, sizes)
      decreases |rows| - Start(rows, after)
    {
      var batch, more, next;
      batch, more, next, to := SearchBatch(rows, after, limit, policy, truncated, sizes);
      MarksJoin(marks, more, rows, 0, from, to, policy, sizes);
      if !batch.Nothing? {
        if batch.Deliver? { PackedMore(rows, from, to, marks, more, policy, sizes, batch.page); }
        return batch, marks + more, from, to;
      }
      marks := marks + more;
      truncated := batch.truncated;
      if next.None? { break; }
      after, from := next, to;
    }
    found := Nothing(truncated);
    assert rows[..to] == rows;
  }

  /** The whole search: queued rows first, then rows already offered. The first `split` marks are of queued rows. */
  method Search<T(!new)>(queued: seq<Row<T>>, offered: seq<Row<T>>, limit: nat, policy: Policy<T>,
                         ghost sizes: Sizes<T>)
    returns (found: Found<T>, marks: seq<(string, bool)>, ghost fromQueued: bool, ghost split: nat, ghost from: nat,
             ghost to: nat, ghost carried: bool)
    requires Keyed(queued, policy) && Keyed(offered, policy) && limit > 0 && Measured(policy, sizes)
    ensures split <= |marks|
    ensures fromQueued ==>
      !found.Nothing? && split == |marks| && Ended(queued, from, to, limit, policy, sizes, false, found, marks[..split])
    ensures !fromQueued ==>
      && Ended(queued, 0, |queued|, limit, policy, sizes, false, Nothing(carried), marks[..split])
      && Ended(offered, from, to, limit, policy, sizes, carried, found, marks[split..])
  {
    found, marks, from, to := SearchState(queued, limit, policy, false, sizes);
    fromQueued, split, carried := !found.Nothing?, |marks|, false;
    assert marks[..split] == marks;
    if found.Nothing? {
      ghost var first := marks;
      assert queued[..to] == queued;
      carried := found.truncated;
      var more;
      found, more, from, to := SearchState(offered, limit, policy, found.truncated, sizes);
      marks := marks + more;
      assert marks[..split] == first && marks[split..] == more;
    }
  }
}
