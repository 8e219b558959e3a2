/**
 The search applied to human answers: preparing an offer, the two size limits, and the guarantees about
 what is returned, what is passed over and what is written off for good.
 */
module AnswerSelection {
  import opened Basics
  import opened Json
  import opened Packing
  import opened AnswerRecords
  import opened AnswerReply
  import opened AnswerGuarantees
  import opened AnswerSearch

  const MAX_LOCAL_OFFER_ITEMS: nat := 16
  const MAX_LOCAL_OFFER_BYTES: nat := MAX_OFFER_BYTES * MAX_LOCAL_OFFER_ITEMS
  const U64_MAX: nat := 0xFFFF_FFFF_FFFF_FFFF

  /** A queued offer records the attempt; an offer already made is replayed unchanged. */
  function PrepareOffer(o: Offer, at: string): Option<Offer> {
    if o.delivery.state == Offered then Some(o)
    else if o.delivery.attempts >= U64_MAX then None
    else Some(o.(delivery := Attempted(o.delivery, at)))
  }

  /** The offered form: an offer stays as it is; a queued one has its attempt counted and timed, and nothing else. */
  lemma PreparedFields(o: Offer, at: string)
    ensures PrepareOffer(o, at).None? <==>
      o.delivery.state != Offered && o.delivery.attempts >= 18446744073709551615
    ensures o.delivery.state == Offered ==> PrepareOffer(o, at) == Some(o)
    ensures o.delivery.state != Offered && PrepareOffer(o, at).Some? ==>
      var p := PrepareOffer(o, at).value;
      p.extra == o.extra && p.answer == o.answer && Booking(o.delivery, p.delivery, at)
  {
  }

  /** `e` is `d` with one more attempt, made at `at`, field by field. */
  ghost predicate Booking(d: Delivery, e: Delivery, at: string) {
    && e.state == Offered && e.attempts == d.attempts + 1 && e.lastAttemptAt == Some(at)
    && e.extra == d.extra && e.schemaVersion == d.schemaVersion && e.answerId == d.answerId
    && e.targetHost == d.targetHost && e.targetSession == d.targetSession && e.targetActor == d.targetActor
    && e.transport == d.transport && e.messageId == d.messageId && e.acknowledgedAt == d.acknowledgedAt
    && e.error == d.error
  }

  // ---- A record too big for the store's page is too big for every reply ----

  function FieldSizeOf(wire: bool): Field -> nat {
    (f: Field) => Size(wire, PrintField(Escape, f))
  }

  lemma {:induction false} FieldsTotal(wire: bool, fields: seq<Field>)
    ensures Size(wire, PrintFields(Escape, fields)) == Total(FieldSizeOf(wire), fields)
  {
    if fields == [] {
      assert Wire([]) == [];
    } else if |fields| > 1 {
      FieldsTotal(wire, fields[1..]);
      Size3(wire, PrintField(Escape, fields[0]), ",", PrintFields(Escape, fields[1..]));
      CommaSize(wire);
    }
  }

  lemma ObjectTotal(fields: seq<Field>)
    ensures Size(false, Print(Escape, Obj(fields))) == Total(FieldSizeOf(false), fields) + 2
  {
    Braced(PrintFields(Escape, fields));
    FieldsTotal(false, fields);
  }

  lemma Braced(body: string)
    ensures Bytes("{" + body + "}") == Bytes(body) + 2
  {
    Bytes3("{", body, "}");
    AsciiBytes("{");
    AsciiBytes("}");
  }

  lemma {:induction false} TotalUpdate<T>(size: T -> nat, s: seq<T>, i: nat, v: T)
    requires i < |s|
    ensures Total(size, s[i := v]) + size(s[i]) == Total(size, s) + size(v)
  {
    if i == 0 {
      assert s[0 := v][1..] == s[1..];
    } else {
      assert s[i := v][1..] == s[1..][i - 1 := v];
      TotalUpdate(size, s[1..], i - 1, v);
    }
  }

  lemma FieldGrowth(key: string, v: Value, w: Value, slack: nat)
    requires Size(false, Print(Escape, v)) <= Size(false, Print(Escape, w)) + slack
    ensures FieldSizeOf(false)(Field(key, v)) <= FieldSizeOf(false)(Field(key, w)) + slack
  {
    Size3(false, Quoted(Escape, key), ":", Print(Escape, v));
    Size3(false, Quoted(Escape, key), ":", Print(Escape, w));
  }

  lemma {:induction false} DecimalGrows(n: nat)
    ensures |Decimal(n)| <= |Decimal(n + 1)|
  {
    if n >= 10 && (n + 1) / 10 != n / 10 {
      assert (n + 1) / 10 == n / 10 + 1;
      DecimalGrows(n / 10);
    }
  }

  lemma {:induction false} DecimalBytes(n: nat)
    ensures Bytes(Decimal(n)) == |Decimal(n)|
  {
    if n >= 10 {
      DecimalBytes(n / 10);
      BytesAppend(Decimal(n / 10), [Digit(n % 10)]);
    }
    AsciiBytes([Digit(n % 10)]);
  }

  /** The timestamps the store writes are short text. */
  predicate ShortTimestamp(d: Delivery) {
    Size(false, Print(Escape, Maybe(d.lastAttemptAt))) <= 64
  }

  lemma NumberGrows(n: nat)
    ensures Size(false, Print(Escape, Number(n))) <= Size(false, Print(Escape, Number(n + 1)))
  {
    DecimalBytes(n);
    DecimalBytes(n + 1);
    DecimalGrows(n);
  }

  lemma PlainStr(name: string)
    requires forall c <- name :: Plain(c)
    ensures Size(false, Print(Escape, Str(name))) == |name| + 2
  {
    forall c <- name ensures Escape(c) == [c] { assert Plain(c); }
    forall i | 0 <= i < |name| ensures name[i] as int < 0x80 { assert Plain(name[i]); }
    EscapePlain(name);
    QuotedBytes(name);
    AsciiBytes(name);
  }

  predicate Lower(c: char) {
    'a' <= c <= 'z'
  }

  lemma StateNames(s: DeliveryState)
    ensures |StateName(s)| <= 12 && forall c <- StateName(s) :: Lower(c)
  {
  }

  lemma StateSlack(s: DeliveryState, t: DeliveryState)
    ensures Size(false, Print(Escape, Str(StateName(s)))) <= Size(false, Print(Escape, Str(StateName(t)))) + 16
  {
    StateNames(s);
    StateNames(t);
    LowerStr(StateName(s));
    LowerStr(StateName(t));
  }

  lemma LowerStr(name: string)
    requires forall c <- name :: Lower(c)
    ensures Size(false, Print(Escape, Str(name))) == |name| + 2
  {
    forall c <- name ensures Plain(c) { assert Lower(c); }
    PlainStr(name);
  }

  lemma ThreeUpdates<T>(size: T -> nat, s: seq<T>, i: nat, x: T, y: T, z: T, a: nat, b: nat, c: nat)
    requires i + 2 < |s|
    requires size(s[i]) <= size(x) + a && size(s[i + 1]) <= size(y) + b && size(s[i + 2]) <= size(z) + c
    ensures Total(size, s) <= Total(size, s[i := x][i + 1 := y][i + 2 := z]) + a + b + c
  {
    TotalUpdate(size, s, i, x);
    TotalUpdate(size, s[i := x], i + 1, y);
    TotalUpdate(size, s[i := x][i + 1 := y], i + 2, z);
  }

  /** The delivery record once the attempt is recorded. */
  function Attempted(d: Delivery, at: string): Delivery {
    d.(state := Offered, attempts := d.attempts + 1, lastAttemptAt := Some(at))
  }

  function Changed(d: Delivery): (Field, Field, Field) {
    (Field("state", Str(StateName(d.state))), Field("attempts", Number(d.attempts)),
     Field("last_attempt_at", Maybe(d.lastAttemptAt)))
  }

  lemma ChangedFields(d: Delivery, at: string)
    ensures var (e, n, s) := (Attempted(d, at), |d.extra|, d.extra + DeliveryFields(d));
      && |s| == n + 12 && s[n + 7] == Changed(d).0 && s[n + 8] == Changed(d).1 && s[n + 9] == Changed(d).2
      && e.extra + DeliveryFields(e) == s[n + 7 := Changed(e).0][n + 8 := Changed(e).1][n + 9 := Changed(e).2]
  {
  }

  lemma StateField(key: string, s: DeliveryState, t: DeliveryState)
    ensures FieldSizeOf(false)(Field(key, Str(StateName(s)))) <= FieldSizeOf(false)(Field(key, Str(StateName(t)))) + 16
  {
    StateSlack(s, t);
    FieldGrowth(key, Str(StateName(s)), Str(StateName(t)), 16);
  }

  lemma AttemptsField(key: string, n: nat)
    ensures FieldSizeOf(false)(Field(key, Number(n))) <= FieldSizeOf(false)(Field(key, Number(n + 1)))
  {
    NumberGrows(n);
    FieldGrowth(key, Number(n), Number(n + 1), 0);
  }

  lemma TimeField(key: string, t: Option<string>, u: Option<string>)
    requires Size(false, Print(Escape, Maybe(t))) <= 64
    ensures FieldSizeOf(false)(Field(key, Maybe(t))) <= FieldSizeOf(false)(Field(key, Maybe(u))) + 64
  {
    FieldGrowth(key, Maybe(t), Maybe(u), 64);
  }

  lemma DeliveryKeys(d: Delivery, e: Delivery, size: Field -> nat)
    requires size == FieldSizeOf(false)
    requires ShortTimestamp(d) && e.attempts == d.attempts + 1
    ensures size(Changed(d).0) <= size(Changed(e).0) + 16
    ensures size(Changed(d).1) <= size(Changed(e).1)
    ensures size(Changed(d).2) <= size(Changed(e).2) + 64
  {
    StateField("state", d.state, e.state);
    AttemptsField("attempts", d.attempts);
    TimeField("last_attempt_at", d.lastAttemptAt, e.lastAttemptAt);
  }

  lemma DeliveryTotals(d: Delivery, at: string, size: Field -> nat)
    requires var g := Changed(Attempted(d, at));
      && size(Changed(d).0) <= size(g.0) + 16 && size(Changed(d).1) <= size(g.1)
      && size(Changed(d).2) <= size(g.2) + 64
    ensures Total(size, d.extra + DeliveryFields(d))
         <= Total(size, Attempted(d, at).extra + DeliveryFields(Attempted(d, at))) + 80
  {
    var g := Changed(Attempted(d, at));
    ChangedFields(d, at);
    ThreeUpdates(size, d.extra + DeliveryFields(d), |d.extra| + 7, g.0, g.1, g.2, 16, 0, 64);
  }

  lemma DeliveryGrowth(d: Delivery, at: string)
    requires ShortTimestamp(d)
    ensures Size(false, Print(Escape, DeliveryValue(d)))
         <= Size(false, Print(Escape, DeliveryValue(Attempted(d, at)))) + 80
  {
    var e := Attempted(d, at);
    DeliveryKeys(d, e, FieldSizeOf(false));
    DeliveryTotals(d, at, FieldSizeOf(false));
    ObjectTotal(d.extra + DeliveryFields(d));
    ObjectTotal(e.extra + DeliveryFields(e));
  }

  lemma LastFieldGrowth(extra: seq<Field>, a: Field, k: string, v: Value, w: Value, slack: nat)
    requires Size(false, Print(Escape, v)) <= Size(false, Print(Escape, w)) + slack
    ensures Size(false, Print(Escape, Obj(extra + [a, Field(k, v)])))
         <= Size(false, Print(Escape, Obj(extra + [a, Field(k, w)]))) + slack
  {
    var s := extra + [a, Field(k, v)];
    FieldGrowth(k, v, w, slack);
    assert extra + [a, Field(k, w)] == s[|extra| + 1 := Field(k, w)];
    TotalUpdate(FieldSizeOf(false), s, |extra| + 1, Field(k, w));
    ObjectTotal(s);
    ObjectTotal(extra + [a, Field(k, w)]);
  }

  lemma OfferGrowth(o: Offer, at: string)
    requires ShortTimestamp(o.delivery) && PrepareOffer(o, at).Some?
    ensures OfferSize(false, o) <= OfferSize(false, PrepareOffer(o, at).value) + 80
  {
    if o.delivery.state != Offered {
      DeliveryGrowth(o.delivery, at);
      LastFieldGrowth(o.extra, Field("answer", AnswerValue(o.answer)), "delivery", DeliveryValue(o.delivery),
                      DeliveryValue(Attempted(o.delivery, at)), 80);
    }
  }

  function StoreRoom(): int {
    MAX_LOCAL_OFFER_BYTES - FrameSize(false, ITEMS, TRUNCATED)
  }

  /** The store measures a page by its compact text; its canonical form only reorders keys. */
  predicate StoreFits(p: AnswerPage) {
    Bytes(PageText(p)) <= MAX_LOCAL_OFFER_BYTES
  }

  lemma StoreFitsIff(p: AnswerPage)
    ensures StoreFits(p) <==> Load(SizeOf(false), p) <= StoreRoom()
  {
    PageTextSize(false, p);
    FlagSize(false, p.truncated);
  }

  lemma FrameGrows(k: string, j: string)
    ensures FrameSize(false, k, j) <= FrameSize(true, k, j)
  {
    WireGrows(Lead(Escape, "{", k));
    WireGrows("[");
    WireGrows("]");
    WireGrows(Lead(Escape, ",", j));
    WireGrows("}");
  }

  /** A record over the store's page limit cannot appear, in its offered form, in any acceptable reply. */
  lemma StoreOversizedNeverDeliverable(o: Offer, at: string, p: AnswerPage, i: nat, h: Hook)
    requires !StoreFits(Page([o], false))
    requires ShortTimestamp(o.delivery) && PrepareOffer(o, at).Some?
    requires i < |p.items| && p.items[i] == PrepareOffer(o, at).value
    ensures !Accepts(p, h)
  {
    var y := p.items[i];
    StoreFitsIff(Page([o], false));
    OfferGrowth(o, at);
    WireGrows(Print(Escape, OfferValue(y)));
    ItemWithin(SizeOf(true), p.items, i);
    FrameGrows(ITEMS, TRUNCATED);
    ReplySize(p, h);
  }

  // ---- The search with the hook's own policy ----

  function HookPolicy(at: string, h: Hook): Policy<Offer> {
    Policy((o: Offer) => PrepareOffer(o, at), (o: Offer) => ExceedsAnyEnvelope(o), (o: Offer) => o.answer.id,
           (p: AnswerPage) => StoreFits(p), (p: AnswerPage) => Accepts(p, h))
  }

  function HookSizes(h: Hook): Sizes<Offer> {
    Sizes(SizeOf(false), StoreRoom(), SizeOf(true), Room(h))
  }

  /** Both of the hook's limits are bounds on the load of a page. */
  lemma HookMeasured(at: string, h: Hook)
    ensures exists sizes :: Measured(HookPolicy(at, h), sizes)
  {
    var (policy, sizes) := (HookPolicy(at, h), HookSizes(h));
    forall p: AnswerPage
      ensures policy.fits(p) <==> Load(sizes.store, p) <= sizes.storeRoom
      ensures policy.accepts(p) <==> p.items != [] && Load(sizes.reply, p) <= sizes.replyRoom
    {
      StoreFitsIff(p);
      AcceptsIff(p, h);
    }
    assert Measured(policy, sizes);
  }

  /** Rows as the store holds them: unique keys, each the key of its own answer, with short timestamps. */
  ghost predicate StoredRows(rows: seq<Row<Offer>>) {
    && Distinct(rows)
    && forall i :: 0 <= i < |rows| && rows[i].item.Some? ==>
         rows[i].item.value.answer.id == rows[i].key && ShortTimestamp(rows[i].item.value.delivery)
  }

  /** The row's offered form would not fit even alone on an untruncated page. */
  predicate PassedOver(row: Row<Offer>, at: string, h: Hook) {
    row.item.Some? && PrepareOffer(row.item.value, at).Some? ==>
      !Accepts(Page([PrepareOffer(row.item.value, at).value], false), h)
  }

  /** No page that carries this offer is acceptable, for any event, prefix and wording. */
  ghost predicate Refused(y: Offer) {
    forall p: AnswerPage, i: nat, h: Hook :: Carries(p, i, y) ==> !Accepts(p, h)
  }

  predicate Carries(p: AnswerPage, i: nat, y: Offer) {
    i < |p.items| && p.items[i] == y
  }

  /** Refused in its offered form, whenever the attempt is made. */
  ghost predicate NeverDelivered(o: Offer) {
    forall at: string :: PrepareOffer(o, at).Some? ==> Refused(PrepareOffer(o, at).value)
  }

  ghost predicate Hopeless(key: string, rows: seq<Row<Offer>>) {
    exists i :: 0 <= i < |rows| && rows[i].key == key && rows[i].item.Some? && NeverDelivered(rows[i].item.value)
  }

  lemma ExceedsRefused(o: Offer, y: Offer)
    requires ExceedsAnyEnvelope(o) && y.answer == o.answer
    ensures Refused(y)
  {
    forall p: AnswerPage, i: nat, h: Hook | Carries(p, i, y) ensures !Accepts(p, h) {
      NeverDeliverable(o, p, i, h);
    }
  }

  lemma StoreOversizedRefused(o: Offer, at: string)
    requires !StoreFits(Page([o], false))
    requires ShortTimestamp(o.delivery) && PrepareOffer(o, at).Some?
    ensures Refused(PrepareOffer(o, at).value)
  {
    var y := PrepareOffer(o, at).value;
    forall p: AnswerPage, i: nat, h: Hook | Carries(p, i, y) ensures !Accepts(p, h) {
      StoreOversizedNeverDeliverable(o, at, p, i, h);
    }
  }

  lemma WrittenOffCases(row: Row<Offer>, at: string, h: Hook, sizes: Sizes<Offer>)
    requires Measured(HookPolicy(at, h), sizes) && row.item.Some? && WrittenOff(row, HookPolicy(at, h), sizes)
    ensures ExceedsAnyEnvelope(row.item.value) || !StoreFits(Page([row.item.value], false))
  {
    assert HookPolicy(at, h).fits(Page([row.item.value], false)) == StoreFits(Page([row.item.value], false));
  }

  lemma TooBigNeverDelivered(o: Offer)
    requires ShortTimestamp(o.delivery)
    requires ExceedsAnyEnvelope(o) || !StoreFits(Page([o], false))
    ensures NeverDelivered(o)
  {
    forall at: string | PrepareOffer(o, at).Some? ensures Refused(PrepareOffer(o, at).value) {
      if ExceedsAnyEnvelope(o) {
        ExceedsRefused(o, PrepareOffer(o, at).value);
      } else {
        StoreOversizedRefused(o, at);
      }
    }
  }

  lemma RefusedAlone(y: Offer, h: Hook)
    requires Refused(y)
    ensures !Accepts(Page([y], false), h)
  {
    assert Carries(Page([y], false), 0, y);
  }

  lemma UndeliverablePassed(row: Row<Offer>, at: string, h: Hook, sizes: Sizes<Offer>)
    requires row.item.Some? ==> ShortTimestamp(row.item.value.delivery)
    requires Measured(HookPolicy(at, h), sizes)
    requires Undeliverable(row, HookPolicy(at, h), sizes)
    ensures PassedOver(row, at, h)
  {
    if row.item.Some? && PrepareOffer(row.item.value, at).Some? {
      var y := PrepareOffer(row.item.value, at).value;
      if WrittenOff(row, HookPolicy(at, h), sizes) {
        WrittenOffCases(row, at, h, sizes);
        TooBigNeverDelivered(row.item.value);
        RefusedAlone(y, h);
      } else {
        assert !HookPolicy(at, h).accepts(Page([y], false));
      }
    }
  }

  /**
   What is recorded about a stored answer. One that no hook's reply can hold, or that the store cannot hand out on any
   page, is marked; the mark says true only if the store handed it out, and false only if it would not do so alone.
   */
  ghost predicate MarkedAnswer(row: Row<Offer>, marks: seq<(string, bool)>) {
    var k := row.key;
    if row.item.None? then (k, true) !in marks && (k, false) !in marks
    else
      var o := row.item.value;
      && (ExceedsAnyEnvelope(o) || !StoreFits(Page([o], true)) ==> (k, true) in marks || (k, false) in marks)
      && ((k, true) in marks ==> ExceedsAnyEnvelope(o) && StoreFits(Page([o], true)))
      && ((k, false) in marks ==> !StoreFits(Page([o], false)))
  }

  /** The marks are those of the first `n` rows. */
  ghost predicate MarkedUpTo(rows: seq<Row<Offer>>, n: nat, marks: seq<(string, bool)>) {
    && n <= |rows| && (forall i :: 0 <= i < n ==> MarkedAnswer(rows[i], marks))
    && forall m <- marks :: HasRow(rows, 0, n, m.0)
  }

  lemma MarkedAnswers(
    rows: seq<Row<Offer>>, to: nat, at: string, h: Hook, sizes: Sizes<Offer>, marks: seq<(string, bool)>)
    requires Measured(HookPolicy(at, h), sizes) && MarksExact(marks, rows, 0, to, HookPolicy(at, h), sizes)
    ensures MarkedUpTo(rows, to, marks)
  {
    forall i | 0 <= i < to ensures MarkedAnswer(rows[i], marks) {
      assert Marked(rows[i], marks, HookPolicy(at, h), sizes);
      if rows[i].item.Some? {
        var o := rows[i].item.value;
        assert HookPolicy(at, h).fits(Page([o], true)) == StoreFits(Page([o], true));
        assert HookPolicy(at, h).fits(Page([o], false)) == StoreFits(Page([o], false));
      }
    }
  }

  /** The items of the first `n` rows in the form in which they are offered. */
  ghost function Ready(rows: seq<Row<Offer>>, n: nat, at: string): seq<Offer>
    requires n <= |rows|
  {
    Prepared((o: Offer) => PrepareOffer(o, at), Items(rows[..n], []))
  }

  ghost predicate AllPassed(rows: seq<Row<Offer>>, n: nat, at: string, h: Hook) {
    n <= |rows| && forall i :: 0 <= i < n ==> PassedOver(rows[i], at, h)
  }

  /**
   How the search of one delivery state ended, with rows `from` to `to`: no row before them could be delivered alone;
   what is delivered is acceptable, an in-order part of the rows come to, and the greedy packing of those last rows that
   are not written off; every row come to is marked if it has to be; what is not marked truncated is all there is; and
   the last rows are sixteen, unless one more would not fit on a store page or there is no more.
   */
  ghost predicate StateEnd(
    rows: seq<Row<Offer>>, from: nat, to: nat, at: string, h: Hook, found: Found<Offer>, marks: seq<(string, bool)>)
  {
    && from <= to <= |rows| && AllPassed(rows, from, at, h) && MarkedUpTo(rows, to, marks)
    && (!found.Nothing? ==> Stretch(rows, from, to, 16, HookPolicy(at, h)))
    && match found
       case Overflow => SomeOverflows(rows[..to], at)
       case Nothing(truncated) => to == |rows| && AllPassed(rows, to, at, h) && (!truncated ==> Items(rows, []) == [])
       case Deliver(page) =>
         && Accepts(page, h) && Subsequence(page.items, Ready(rows, to, at))
         && Packed(rows, from, to, marks, HookPolicy(at, h), page)
         && (!page.truncated ==> page.items == Ready(rows, |rows|, at))
  }

  /**
   The hook's selection. Queued answers come before offered ones; an answer is passed over only if it could not have
   been delivered alone; nothing deliverable is ever marked as undeliverable, and everything that has to be marked is.
   The first `split` marks are of queued answers.
   */
  method SelectAnswers(queued: seq<Row<Offer>>, offered: seq<Row<Offer>>, at: string, h: Hook)
    returns (found: Found<Offer>, marks: seq<(string, bool)>, ghost fromQueued: bool, ghost split: nat,
             ghost from: nat, ghost to: nat, ghost carried: bool)
    requires StoredRows(queued) && StoredRows(offered)
    ensures split <= |marks| && (fromQueued ==> split == |marks| && !found.Nothing?)
    ensures fromQueued ==> StateEnd(queued, from, to, at, h, found, marks[..split])
    ensures !fromQueued ==> StateEnd(queued, 0, |queued|, at, h, Nothing(carried), marks[..split])
    ensures !fromQueued ==> StateEnd(offered, from, to, at, h, found, marks[split..])
    // What was left out of the queued answers still shows when an offered one is delivered.
    ensures !fromQueued && carried ==>
      (found.Nothing? ==> found.truncated) && (found.Deliver? ==> found.page.truncated)
    ensures forall m <- marks :: Hopeless(m.0, queued) || Hopeless(m.0, offered)
    // Nothing deliverable is starved: something that fits alone means something is delivered.
    ensures SomeFits(queued, at, h) || SomeFits(offered, at, h) ==>
      found.Deliver? || SomeOverflows(queued, at) || SomeOverflows(offered, at)
  {
    var policy := HookPolicy(at, h);
    HookMeasured(at, h);
    ghost var sizes :| Measured(HookPolicy(at, h), sizes);
    found, marks, fromQueued, split, from, to, carried :=
      Search(queued, offered, MAX_LOCAL_OFFER_ITEMS, policy, sizes);
    if fromQueued {
      StateMeans(queued, from, to, at, h, sizes, false, found, marks[..split]);
    } else {
      StateMeans(queued, 0, |queued|, at, h, sizes, false, Nothing(carried), marks[..split]);
      StateMeans(offered, from, to, at, h, sizes, carried, found, marks[split..]);
    }
    assert marks == marks[..split] + marks[split..];
  }

  lemma StateMarks(
    rows: seq<Row<Offer>>, to: nat, at: string, h: Hook, sizes: Sizes<Offer>, marks: seq<(string, bool)>)
    requires StoredRows(rows) && Measured(HookPolicy(at, h), sizes)
    requires MarksExact(marks, rows, 0, to, HookPolicy(at, h), sizes)
    ensures MarkedUpTo(rows, to, marks) && forall m <- marks :: Hopeless(m.0, rows)
  {
    MarkedAnswers(rows, to, at, h, sizes, marks);
    forall m <- marks ensures Hopeless(m.0, rows) {
      ExactIsSound(marks, rows, 0, to, HookPolicy(at, h), sizes, m);
      MarkHopeless(m.0, rows, at, h, sizes);
    }
  }

  lemma StatePasses(rows: seq<Row<Offer>>, n: nat, at: string, h: Hook, sizes: Sizes<Offer>)
    requires StoredRows(rows) && Measured(HookPolicy(at, h), sizes) && n <= |rows|
    requires forall i :: 0 <= i < n ==> Undeliverable(rows[i], HookPolicy(at, h), sizes)
    ensures AllPassed(rows, n, at, h)
  {
    forall i | 0 <= i < n ensures PassedOver(rows[i], at, h) { UndeliverablePassed(rows[i], at, h, sizes); }
  }

  lemma StateFails(rows: seq<Row<Offer>>, to: nat, at: string)
    requires to <= |rows| && SomeOverflows(rows[..to], at)
    ensures SomeOverflows(rows, at)
  {
    var i :| 0 <= i < to && rows[..to][i].item.Some? && PrepareOffer(rows[..to][i].item.value, at).None?;
    assert rows[i].item.Some?;
  }

  lemma StateDelivers(rows: seq<Row<Offer>>, to: nat, at: string, h: Hook, sizes: Sizes<Offer>, page: AnswerPage)
    requires Measured(HookPolicy(at, h), sizes) && to <= |rows|
    requires Searched(rows[..to], HookPolicy(at, h), sizes, Deliver(page))
    ensures Accepts(page, h) && Subsequence(page.items, Ready(rows, to, at))
  {
    assert HookPolicy(at, h).accepts(page);
  }

  /** The end of the search of one state, in terms of answers. */
  lemma StateMeans(
    rows: seq<Row<Offer>>, from: nat, to: nat, at: string, h: Hook, sizes: Sizes<Offer>, carried: bool,
    found: Found<Offer>, marks: seq<(string, bool)>)
    requires StoredRows(rows) && Measured(HookPolicy(at, h), sizes)
    requires Ended(rows, from, to, MAX_LOCAL_OFFER_ITEMS, HookPolicy(at, h), sizes, carried, found, marks)
    ensures StateEnd(rows, from, to, at, h, found, marks) && forall m <- marks :: Hopeless(m.0, rows)
    ensures found.Overflow? ==> SomeOverflows(rows, at)
    ensures carried ==> (found.Nothing? ==> found.truncated) && (found.Deliver? ==> found.page.truncated)
  {
    StateMarks(rows, to, at, h, sizes, marks);
    StatePasses(rows, from, at, h, sizes);
    assert rows[..|rows|] == rows;
    match found
    case Overflow =>
      OverflowRow(rows[..to], at, h, sizes);
      StateFails(rows, to, at);
    case Nothing(_) => StatePasses(rows, to, at, h, sizes);
    case Deliver(page) => StateDelivers(rows, to, at, h, sizes, page);
  }

  ghost predicate SomeOverflows(rows: seq<Row<Offer>>, at: string) {
    exists i :: 0 <= i < |rows| && rows[i].item.Some? && PrepareOffer(rows[i].item.value, at).None?
  }

  ghost predicate SomeFits(rows: seq<Row<Offer>>, at: string, h: Hook) {
    exists i :: 0 <= i < |rows| && !PassedOver(rows[i], at, h)
  }

  lemma OverflowRow(rows: seq<Row<Offer>>, at: string, h: Hook, sizes: Sizes<Offer>)
    requires Searched(rows, HookPolicy(at, h), sizes, Overflow)
    ensures SomeOverflows(rows, at)
  {
    var i :| 0 <= i < |rows| && rows[i].item.Some? && HookPolicy(at, h).prepare(rows[i].item.value).None?;
    assert PrepareOffer(rows[i].item.value, at).None?;
  }

  lemma MarkHopeless(key: string, rows: seq<Row<Offer>>, at: string, h: Hook, sizes: Sizes<Offer>)
    requires StoredRows(rows) && Measured(HookPolicy(at, h), sizes)
    requires MarkSound(key, rows, HookPolicy(at, h), sizes)
    ensures Hopeless(key, rows)
  {
    var i :| 0 <= i < |rows| && rows[i].key == key && WrittenOff(rows[i], HookPolicy(at, h), sizes);
    WrittenOffCases(rows[i], at, h, sizes);
    TooBigNeverDelivered(rows[i].item.value);
  }
}
