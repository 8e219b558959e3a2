/**
 The hook's truncation-tolerant readers of the lane and worktree streams. A stream is a header line followed by
 one line per record; a timed-out producer leaves any byte prefix of it. JSON decoding of one line is a parameter.
 */
module HookStreams {
  import opened Basics

  const NEWLINE: Byte := 10
  const PAGE_BOUND: nat := 100

  /** The first line of a stream: how many records the page has, and the cursor of a further page. */
  datatype Header = Header(total: nat, next: Option<nat>)

  /** One record line: the cursor of the row and the row. */
  datatype Row<L> = Row(cursor: nat, lane: L)

  /** Reading and writing single lines; a reader answers `None` for anything it cannot use. */
  datatype Codec<!R> = Codec(
    readHeader: seq<Byte> -> Option<Header>,
    readRow: seq<Byte> -> Option<R>,
    writeHeader: Header -> seq<Byte>,
    writeRow: R -> seq<Byte>)

  /** Where to list from next: nowhere, the first page (an empty cursor), or after a row. */
  datatype Continuation = Finished | FromStart | After(cursor: nat)

  datatype Read<R> = Read(rows: seq<R>, next: Continuation, skipped: nat)

  // ---- Lines ----

  /** One past the first newline at or after `i`. */
  function NewlineFrom(b: seq<Byte>, i: nat): (r: Option<nat>)
    requires i <= |b|
    ensures r.Some? ==> i < r.value <= |b| && b[r.value - 1] == NEWLINE
    ensures r.Some? ==> forall j :: i <= j < r.value - 1 ==> b[j] != NEWLINE
    ensures r.None? ==> forall j :: i <= j < |b| ==> b[j] != NEWLINE
    decreases |b| - i
  {
    if i == |b| then None
    else if b[i] == NEWLINE then Some(i + 1)
    else NewlineFrom(b, i + 1)
  }

  /** The length of the first complete line. */
  function LineEnd(b: seq<Byte>): (r: Option<nat>) {
    NewlineFrom(b, 0)
  }

  /** A line ends at the first byte 10, which belongs to it. */
  lemma LineEndMeans(b: seq<Byte>, n: nat)
    ensures LineEnd(b) == Some(n) <==> 0 < n <= |b| && b[n - 1] == 10 && forall j :: 0 <= j < n - 1 ==> b[j] != 10
  {
  }

  /** A line as a producer writes it: one newline, at the end. */
  ghost predicate Framed(line: seq<Byte>) {
    line != [] && line[|line| - 1] == NEWLINE && forall j :: 0 <= j < |line| - 1 ==> line[j] != NEWLINE
  }

  /** A framed line is the first line of whatever follows it. */
  lemma FramedEnd(line: seq<Byte>, rest: seq<Byte>)
    requires Framed(line)
    ensures LineEnd(line + rest) == Some(|line|)
    ensures (line + rest)[..|line|] == line && (line + rest)[|line|..] == rest
  {
    assert (line + rest)[|line| - 1] == NEWLINE;
  }

  /** Part of a framed line is no complete line. */
  lemma FramedCut(line: seq<Byte>, k: nat)
    requires Framed(line) && k < |line|
    ensures LineEnd(line[..k]) == None
  {
  }

  /** Cutting a framed line and what follows it: nothing before the line is complete, then the line stands. */
  lemma FirstLine(line: seq<Byte>, rest: seq<Byte>, k: nat)
    requires Framed(line) && k <= |line| + |rest|
    ensures k < |line| ==> LineEnd((line + rest)[..k]) == None
    ensures k >= |line| ==> LineEnd((line + rest)[..k]) == Some(|line|)
    ensures k >= |line| ==> (line + rest)[..k][..|line|] == line
    ensures k >= |line| ==> (line + rest)[..k][|line|..] == rest[..k - |line|]
  {
    if k < |line| {
      FramedCut(line, k);
      CutLeft(line, rest, k);
    } else {
      CutRight(line, rest, k);
      FramedEnd(line, rest[..k - |line|]);
    }
  }

  // ---- Reading records ----

  /** The leading records of `b`: complete lines that decode, up to `room` of them. */
  function Rows<R>(c: Codec<R>, b: seq<Byte>, room: nat): seq<R>
    decreases room
  {
    if room == 0 then []
    else match LineEnd(b)
      case None => []
      case Some(n) =>
        match c.readRow(b[..n])
        case None => []
        case Some(row) => [row] + Rows(c, b[n..], room - 1)
  }

  lemma {:induction false} RowsBounded<R>(c: Codec<R>, b: seq<Byte>, room: nat)
    ensures |Rows(c, b, room)| <= room
    decreases room
  {
    if room != 0 && LineEnd(b).Some? {
      RowsBounded(c, b[LineEnd(b).value..], room - 1);
    }
  }

  /** The record loop shared by the two readers. */
  method ReadRows<R>(c: Codec<R>, b: seq<Byte>, total: nat) returns (rows: seq<R>)
    ensures rows == Rows(c, b, total) && |rows| <= total
  {
    rows := [];
    var rest := b;
    while |rows| < total
      invariant |rows| <= total
      invariant Rows(c, b, total) == rows + Rows(c, rest, total - |rows|)
    {
      var end := LineEnd(rest);
      if end.None? { break; }
      var row := c.readRow(rest[..end.value]);
      if row.None? { break; }
      Group2(rows, [row.value], Rows(c, rest[end.value..], total - |rows| - 1));
      rows := rows + [row.value];
      rest := rest[end.value..];
    }
  }

  // ---- What a producer writes ----

  function Body<R>(c: Codec<R>, rows: seq<R>): seq<Byte> {
    if rows == [] then [] else c.writeRow(rows[0]) + Body(c, rows[1..])
  }

  /** The header and every record are framed lines that the reader decodes back. */
  ghost predicate WellFormed<R>(c: Codec<R>, h: Header, rows: seq<R>) {
    && Framed(c.writeHeader(h)) && c.readHeader(c.writeHeader(h)) == Some(h)
    && RowsFormed(c, rows)
  }

  ghost predicate RowsFormed<R>(c: Codec<R>, rows: seq<R>) {
    forall i :: 0 <= i < |rows| ==> Framed(c.writeRow(rows[i])) && c.readRow(c.writeRow(rows[i])) == Some(rows[i])
  }

  function Stream<R>(c: Codec<R>, h: Header, rows: seq<R>): seq<Byte> {
    c.writeHeader(h) + Body(c, rows)
  }

  /** How many records lie wholly within the first `k` bytes after the header. */
  function Whole<R>(c: Codec<R>, rows: seq<R>, k: nat): (n: nat)
    ensures n <= |rows|
  {
    if rows == [] || k < |c.writeRow(rows[0])| then 0
    else 1 + Whole(c, rows[1..], k - |c.writeRow(rows[0])|)
  }

  /** `Whole` is the largest number of records that fit in `k` bytes. */
  lemma {:induction false} WholeMeans<R>(c: Codec<R>, rows: seq<R>, k: nat)
    ensures |Body(c, rows[..Whole(c, rows, k)])| <= k
    ensures Whole(c, rows, k) < |rows| ==> k < |Body(c, rows[..Whole(c, rows, k) + 1])|
  {
    var n := Whole(c, rows, k);
    if rows != [] {
      assert rows[..1][1..] == [];
      if k >= |c.writeRow(rows[0])| {
        WholeMeans(c, rows[1..], k - |c.writeRow(rows[0])|);
        assert rows[..n][1..] == rows[1..][..n - 1];
        if n < |rows| { assert rows[..n + 1][1..] == rows[1..][..n]; }
      }
    }
  }

  lemma {:induction false} WholeMonotone<R>(c: Codec<R>, rows: seq<R>, j: nat, k: nat)
    requires j <= k
    ensures Whole(c, rows, j) <= Whole(c, rows, k)
  {
    if rows != [] && j >= |c.writeRow(rows[0])| {
      WholeMonotone(c, rows[1..], j - |c.writeRow(rows[0])|, k - |c.writeRow(rows[0])|);
    }
  }

  /** A cut inside the first line leaves no record; a cut past it leaves that record and a cut of the rest. */
  lemma CutStep<R>(c: Codec<R>, line: seq<Byte>, row: R, rest: seq<Byte>, k: nat, room: nat)
    requires Framed(line) && c.readRow(line) == Some(row) && k <= |line| + |rest| && room > 0
    ensures k < |line| ==> Rows(c, (line + rest)[..k], room) == []
    ensures k >= |line| ==> Rows(c, (line + rest)[..k], room) == [row] + Rows(c, rest[..k - |line|], room - 1)
  {
    FirstLine(line, rest, k);
  }

  lemma ConsSlice<R>(rows: seq<R>, n: nat)
    requires n < |rows|
    ensures [rows[0]] + rows[1..][..n] == rows[..n + 1]
  {
  }

  /** Any cut of the record lines decodes to exactly the whole records. */
  lemma {:induction false} RowsOfCut<R>(c: Codec<R>, rows: seq<R>, k: nat, room: nat)
    requires RowsFormed(c, rows) && k <= |Body(c, rows)| && |rows| <= room
    ensures Rows(c, Body(c, rows)[..k], room) == rows[..Whole(c, rows, k)]
  {
    if rows != [] {
      var line := c.writeRow(rows[0]);
      CutStep(c, line, rows[0], Body(c, rows[1..]), k, room);
      if k >= |line| {
        RowsOfCut(c, rows[1..], k - |line|, room - 1);
        ConsSlice(rows, Whole(c, rows[1..], k - |line|));
      }
    }
  }

  // ---- The lane stream ----

  /** Resume after the last record read when some were not; otherwise where the header says. */
  function Resume<L>(h: Header, rows: seq<Row<L>>): Continuation {
    if |rows| < h.total then (if rows == [] then FromStart else After(rows[|rows| - 1].cursor))
    else match h.next case None => Finished case Some(n) => After(n)
  }

  function LaneRead<L>(c: Codec<Row<L>>, b: seq<Byte>): Option<Read<Row<L>>> {
    match LineEnd(b)
    case None => None
    case Some(n) =>
      match c.readHeader(b[..n])
      case None => None
      case Some(h) =>
        if h.total > PAGE_BOUND then None
        else
          var rows := Rows(c, b[n..], h.total);
          RowsBounded(c, b[n..], h.total);
          Some(Read(rows, Resume(h, rows), h.total - |rows|))
  }

  /** The part of a lane that decides whether a listing of settled lanes shows it. */
  datatype Lane<D> = Lane(state: Option<string>, finished: Option<int>, detail: D)

  /** Outcomes after which a lane no longer runs. */
  predicate Terminal(state: string) {
    state in {
      "succeeded", "review_required", "failed", "rejected", "timed_out", "rate_limited", "quota_limited",
      "auth_required", "model_unavailable", "permission_denied", "quarantined", "lost", "uncommitted", "cancelled",
      "input_required"
    }
  }

  /** How an attempt ended, and the name under which it travels. */
  datatype Outcome =
    | Succeeded | ReviewRequired | Failed | Rejected | Cancelled | TimedOut | RateLimited | QuotaLimited | AuthRequired
    | ModelUnavailable | PermissionDenied | Quarantined | Lost | Unsettled | Uncommitted | InputRequired

  function OutcomeName(o: Outcome): string {
    match o
    case Succeeded => "succeeded"
    case ReviewRequired => "review_required"
    case Failed => "failed"
    case Rejected => "rejected"
    case Cancelled => "cancelled"
    case TimedOut => "timed_out"
    case RateLimited => "rate_limited"
    case QuotaLimited => "quota_limited"
    case AuthRequired => "auth_required"
    case ModelUnavailable => "model_unavailable"
    case PermissionDenied => "permission_denied"
    case Quarantined => "quarantined"
    case Lost => "lost"
    case Unsettled => "unsettled"
    case Uncommitted => "uncommitted"
    case InputRequired => "input_required"
  }

  /** The settled listing knows every way an attempt can end but one: an unsettled attempt is never listed there. */
  lemma TerminalIff(state: string)
    ensures Terminal(state) <==> exists o: Outcome :: o != Unsettled && OutcomeName(o) == state
  {
    forall o: Outcome ensures Terminal(OutcomeName(o)) <==> o != Unsettled { OutcomeTerminal(o); }
    if Terminal(state) { var o := OutcomeOf(state); }
  }

  lemma OutcomeOf(state: string) returns (o: Outcome)
    requires Terminal(state)
    ensures o != Unsettled && OutcomeName(o) == state
  {
    if state in {"succeeded", "review_required", "failed", "rejected", "cancelled", "timed_out", "rate_limited"} {
      o := if state == "succeeded" then Succeeded else if state == "review_required" then ReviewRequired
           else if state == "failed" then Failed else if state == "rejected" then Rejected
           else if state == "cancelled" then Cancelled else if state == "timed_out" then TimedOut else RateLimited;
    } else {
      o := if state == "quota_limited" then QuotaLimited else if state == "auth_required" then AuthRequired
           else if state == "model_unavailable" then ModelUnavailable
           else if state == "permission_denied" then PermissionDenied
           else if state == "quarantined" then Quarantined else if state == "lost" then Lost
           else if state == "uncommitted" then Uncommitted else InputRequired;
    }
  }

  lemma OutcomeTerminal(o: Outcome)
    ensures Terminal(OutcomeName(o)) <==> o != Unsettled
  {
    if o == Unsettled {
      assert |"unsettled"| == 9 && "unsettled"[0] == 'u' && |"succeeded"| == 9 && "succeeded"[0] == 's';
      assert |"timed_out"| == 9 && "timed_out"[0] == 't' && |"cancelled"| == 9 && "cancelled"[0] == 'c';
    }
  }

  /** An active listing shows every lane; a settled one only terminal lanes that finished after the given time. */
  predicate Shows<D>(lane: Lane<D>, after: Option<int>) {
    after.Some? ==>
      && lane.state.Some? && Terminal(lane.state.value)
      && lane.finished.Some? && lane.finished.value > after.value
  }

  function Shown<D>(rows: seq<Row<Lane<D>>>, after: Option<int>): seq<Lane<D>> {
    if rows == [] then []
    else (if Shows(rows[0].lane, after) then [rows[0].lane] else []) + Shown(rows[1..], after)
  }

  /** Filtering a page in two parts shows the same lanes in the same order. */
  lemma {:induction false} ShownParts<D>(a: seq<Row<Lane<D>>>, b: seq<Row<Lane<D>>>, after: Option<int>)
    ensures Shown(a + b, after) == Shown(a, after) + Shown(b, after)
  {
    if a == [] {
      assert a + b == b;
    } else {
      ShownParts(a[1..], b, after);
      assert (a + b)[1..] == a[1..] + b;
      var head := if Shows(a[0].lane, after) then [a[0].lane] else [];
      Group2(head, Shown(a[1..], after), Shown(b, after));
    }
  }

  /** A lane is shown if and only if some inspected row holds it and the filter passes it. */
  lemma {:induction false} ShownExact<D(!new)>(rows: seq<Row<Lane<D>>>, after: Option<int>, lane: Lane<D>)
    ensures lane in Shown(rows, after) <==>
      && (exists i :: 0 <= i < |rows| && rows[i].lane == lane)
      && (after.None? ||
          (&& lane.state.Some? && Terminal(lane.state.value)
           && lane.finished.Some? && lane.finished.value > after.value))
  {
    if rows != [] {
      ShownExact(rows[1..], after, lane);
      forall i | 0 <= i < |rows| ensures rows[i] == if i == 0 then rows[0] else rows[1..][i - 1] {}
    }
  }

  method ParseLanes<D>(rows: seq<Row<Lane<D>>>, after: Option<int>) returns (lanes: seq<Lane<D>>)
    ensures lanes == Shown(rows, after)
  {
    lanes := [];
    var i := 0;
    while i < |rows|
      invariant 0 <= i <= |rows|
      invariant lanes == Shown(rows[..i], after)
    {
      var lane := rows[i].lane;
      ShownParts(rows[..i], [rows[i]], after);
      assert rows[..i + 1] == rows[..i] + [rows[i]];
      if after.Some? {
        if lane.state.None? || !Terminal(lane.state.value) {
          i := i + 1;
          continue;
        }
        if lane.finished.None? || lane.finished.value <= after.value {
          i := i + 1;
          continue;
        }
      }
      lanes := lanes + [lane];
      i := i + 1;
    }
    assert rows[..i] == rows;
  }

  method ParseLaneStream<D>(c: Codec<Row<Lane<D>>>, b: seq<Byte>, after: Option<int>)
    returns (r: Option<(seq<Lane<D>>, Continuation, nat)>)
    ensures r == match LaneRead(c, b)
                 case None => None
                 case Some(read) => Some((Shown(read.rows, after), read.next, read.skipped))
    // Nothing is read without a complete header, or from a page of more than a hundred records.
    ensures r.Some? <==>
      && LineEnd(b).Some? && c.readHeader(b[..LineEnd(b).value]).Some?
      && c.readHeader(b[..LineEnd(b).value]).value.total <= 100
    ensures r.Some? ==>
      var h := c.readHeader(b[..LineEnd(b).value]).value;
      var rows := Rows(c, b[LineEnd(b).value..], h.total);
      && r.value.2 == h.total - |rows|
      && r.value.1 ==
           if |rows| < h.total && rows == [] then FromStart
           else if |rows| < h.total then After(rows[|rows| - 1].cursor)
           else if h.next.Some? then After(h.next.value)
           else Finished
  {
    var end := LineEnd(b);
    if end.None? { return None; }
    var header := c.readHeader(b[..end.value]);
    if header.None? || header.value.total > PAGE_BOUND { return None; }
    var rows := ReadRows(c, b[end.value..], header.value.total);
    var skipped := header.value.total - |rows|;
    var next := Finished;
    if skipped > 0 {
      next := if rows == [] then FromStart else After(rows[|rows| - 1].cursor);
    } else if header.value.next.Some? {
      next := After(header.value.next.value);
    }
    var lanes := ParseLanes(rows, after);
    return Some((lanes, next, skipped));
  }

  /**
   Every truncation after the header of a well-formed page inspects exactly the complete leading records, and
   inspected plus skipped is the page's total; a truncated header reads as nothing.
   */
  lemma LaneCut<L>(c: Codec<Row<L>>, h: Header, rows: seq<Row<L>>, k: nat)
    requires WellFormed(c, h, rows) && h.total == |rows| <= PAGE_BOUND && k <= |Stream(c, h, rows)|
    ensures k < |c.writeHeader(h)| ==> LaneRead(c, Stream(c, h, rows)[..k]) == None
    ensures k >= |c.writeHeader(h)| ==>
      var n := Whole(c, rows, k - |c.writeHeader(h)|);
      LaneRead(c, Stream(c, h, rows)[..k]) == Some(Read(rows[..n], Resume(h, rows[..n]), |rows| - n))
  {
    var line := c.writeHeader(h);
    FirstLine(line, Body(c, rows), k);
    if k >= |line| {
      RowsOfCut(c, rows, k - |line|, h.total);
    }
  }

  lemma SlicesNest<T>(s: seq<T>, m: nat, n: nat)
    requires m <= n <= |s|
    ensures s[..m] <= s[..n] <= s
  {
  }

  /** Reading more bytes only adds records at the end, and skips no more. */
  lemma LaneMonotone<L>(c: Codec<Row<L>>, h: Header, rows: seq<Row<L>>, j: nat, k: nat)
    requires WellFormed(c, h, rows) && h.total == |rows| <= PAGE_BOUND
    requires |c.writeHeader(h)| <= j <= k <= |Stream(c, h, rows)|
    ensures var short, long := LaneRead(c, Stream(c, h, rows)[..j]), LaneRead(c, Stream(c, h, rows)[..k]);
      && short.Some? && long.Some? && short.value.rows <= long.value.rows <= rows
      && long.value.skipped <= short.value.skipped
  {
    LaneCut(c, h, rows, j);
    LaneCut(c, h, rows, k);
    WholeMonotone(c, rows, j - |c.writeHeader(h)|, k - |c.writeHeader(h)|);
    SlicesNest(rows, Whole(c, rows, j - |c.writeHeader(h)|), Whole(c, rows, k - |c.writeHeader(h)|));
  }

  // ---- Resuming ----

  /** Rows in listing order: ascending, or newest first. Cursors are positive. */
  ghost predicate Sorted<L>(listing: seq<Row<L>>, newest: bool) {
    && (forall i :: 0 <= i < |listing| ==> listing[i].cursor > 0)
    && forall i, j :: 0 <= i < j < |listing| ==>
      if newest then listing[i].cursor > listing[j].cursor else listing[i].cursor < listing[j].cursor
  }

  /** The store's selection of rows after a cursor; zero means from the start. */
  predicate Follows(newest: bool, cursor: nat, after: nat) {
    if newest then after == 0 || cursor < after else cursor > after
  }

  function Remaining<L>(listing: seq<Row<L>>, newest: bool, after: nat): seq<Row<L>> {
    if listing == [] then []
    else if Follows(newest, listing[0].cursor, after) then [listing[0]] + Remaining(listing[1..], newest, after)
    else Remaining(listing[1..], newest, after)
  }

  /** One page: at most `limit` rows, and the last one's cursor when there are more. */
  function PageRows<L>(listing: seq<Row<L>>, newest: bool, after: nat, limit: nat): seq<Row<L>> {
    var rest := Remaining(listing, newest, after);
    if |rest| > limit then rest[..limit] else rest
  }

  function PageHeader<L>(listing: seq<Row<L>>, newest: bool, after: nat, limit: nat): Header
    requires limit >= 1
  {
    var rest := Remaining(listing, newest, after);
    if |rest| > limit then Header(limit, Some(rest[limit - 1].cursor)) else Header(|rest|, None)
  }

  /** What is left of the listing at a continuation. */
  function Rest<L>(listing: seq<Row<L>>, newest: bool, next: Continuation): seq<Row<L>> {
    match next
    case Finished => []
    case FromStart => Remaining(listing, newest, 0)
    case After(cursor) => Remaining(listing, newest, cursor)
  }

  /** How many rows of a listing come before a cursor's page. */
  function Before<L>(listing: seq<Row<L>>, newest: bool, after: nat): (n: nat)
    ensures n <= |listing|
  {
    if listing == [] || Follows(newest, listing[0].cursor, after) then 0
    else 1 + Before(listing[1..], newest, after)
  }

  lemma {:induction false} RemainingIsSuffix<L>(listing: seq<Row<L>>, newest: bool, after: nat)
    requires Sorted(listing, newest)
    ensures Remaining(listing, newest, after) == listing[Before(listing, newest, after)..]
  {
    if listing != [] {
      RemainingIsSuffix(listing[1..], newest, after);
      if Follows(newest, listing[0].cursor, after) {
        assert |listing| > 1 ==> Follows(newest, listing[1].cursor, after);
        HeadTail(listing);
      } else {
        DropDrop(listing, 1, Before(listing[1..], newest, after));
      }
    }
  }

  /** Listing from the cursor of a row gives exactly the rows after it. */
  lemma {:induction false} RemainingAfterRow<L>(listing: seq<Row<L>>, newest: bool, i: nat)
    requires Sorted(listing, newest) && i < |listing|
    ensures Remaining(listing, newest, listing[i].cursor) == listing[i + 1..]
  {
    RemainingIsSuffix(listing, newest, listing[i].cursor);
    BeforeRow(listing, newest, i);
  }

  lemma {:induction false} BeforeRow<L>(listing: seq<Row<L>>, newest: bool, i: nat)
    requires Sorted(listing, newest) && i < |listing|
    ensures Before(listing, newest, listing[i].cursor) == i + 1
  {
    if i > 0 {
      BeforeRow(listing[1..], newest, i - 1);
    } else if |listing| > 1 {
      assert Follows(newest, listing[1].cursor, listing[0].cursor);
    }
  }

  lemma BeforeStart<L>(listing: seq<Row<L>>, newest: bool)
    requires Sorted(listing, newest)
    ensures Remaining(listing, newest, 0) == listing
  {
    RemainingIsSuffix(listing, newest, 0);
  }

  /** Where a reader that got the first `n` records of a page resumes. */
  function NextOf<L>(listing: seq<Row<L>>, newest: bool, after: nat, limit: nat, n: nat): Continuation
    requires 1 <= limit && n <= |PageRows(listing, newest, after, limit)|
  {
    Resume(PageHeader(listing, newest, after, limit), PageRows(listing, newest, after, limit)[..n])
  }

  lemma NextAfterRow<L>(listing: seq<Row<L>>, newest: bool, after: nat, limit: nat, n: nat)
    requires 1 <= limit && 1 <= n <= |PageRows(listing, newest, after, limit)|
    ensures n <= |Remaining(listing, newest, after)|
    ensures var next := NextOf(listing, newest, after, limit, n);
      || (next == Finished && n == |Remaining(listing, newest, after)|)
      || next == After(Remaining(listing, newest, after)[n - 1].cursor)
  {
  }

  /** Listing after the n-th row of what is left leaves what comes after that row. */
  lemma RemainingAgain<L>(listing: seq<Row<L>>, newest: bool, after: nat, n: nat)
    requires Sorted(listing, newest) && 1 <= n <= |Remaining(listing, newest, after)|
    ensures Remaining(listing, newest, Remaining(listing, newest, after)[n - 1].cursor)
         == Remaining(listing, newest, after)[n..]
  {
    RemainingIsSuffix(listing, newest, after);
    var skip := Before(listing, newest, after);
    RemainingAfterRow(listing, newest, skip + n - 1);
    DropDrop(listing, skip, n);
  }

  lemma NothingLeft<T>(s: seq<T>)
    ensures s[|s|..] == []
  {
  }

  lemma ResumeAfterRow<L>(listing: seq<Row<L>>, newest: bool, after: nat, limit: nat, n: nat)
    requires Sorted(listing, newest) && 1 <= limit && 1 <= n <= |PageRows(listing, newest, after, limit)|
    ensures n <= |Remaining(listing, newest, after)|
    ensures Rest(listing, newest, NextOf(listing, newest, after, limit, n)) == Remaining(listing, newest, after)[n..]
  {
    NextAfterRow(listing, newest, after, limit, n);
    RemainingAgain(listing, newest, after, n);
    NothingLeft(Remaining(listing, newest, after));
  }

  lemma ResumeWithNothing<L>(listing: seq<Row<L>>, newest: bool, after: nat, limit: nat)
    requires Sorted(listing, newest) && 1 <= limit
    ensures Rest(listing, newest, NextOf(listing, newest, after, limit, 0)) == Remaining(listing, newest, after)
      <==> (PageRows(listing, newest, after, limit) == [] || Before(listing, newest, after) == 0)
  {
    RemainingIsSuffix(listing, newest, after);
    BeforeStart(listing, newest);
  }

  /**
   Resuming after a page of which `n` records were read repeats and passes over nothing if and only if some record
   was read, there was none to read, or the page began where the listing begins. Otherwise (a later page of
   which not one record arrived) the reader starts over from the first page.
   */
  lemma ResumeIff<L>(listing: seq<Row<L>>, newest: bool, after: nat, limit: nat, n: nat)
    requires Sorted(listing, newest) && 1 <= limit && n <= |PageRows(listing, newest, after, limit)|
    ensures n <= |Remaining(listing, newest, after)|
    ensures Rest(listing, newest, NextOf(listing, newest, after, limit, n)) == Remaining(listing, newest, after)[n..]
      <==> (n > 0 || PageRows(listing, newest, after, limit) == [] || Before(listing, newest, after) == 0)
  {
    if n > 0 {
      ResumeAfterRow(listing, newest, after, limit, n);
    } else {
      ResumeWithNothing(listing, newest, after, limit);
    }
  }

  // ---- Resuming, in bytes ----

  function PageStream<L>(c: Codec<Row<L>>, listing: seq<Row<L>>, newest: bool, after: nat, limit: nat): seq<Byte>
    requires 1 <= limit
  {
    Stream(c, PageHeader(listing, newest, after, limit), PageRows(listing, newest, after, limit))
  }

  /** What a reader makes of the first `k` bytes of a page; a shorter page is read whole. */
  function ReadCut<L>(
    c: Codec<Row<L>>, listing: seq<Row<L>>, newest: bool, after: nat, limit: nat, k: nat): Option<Read<Row<L>>>
    requires 1 <= limit
  {
    var b := PageStream(c, listing, newest, after, limit);
    LaneRead(c, if k < |b| then b[..k] else b[..|b|])
  }

  /** Every page of the listing is written so that its lines read back. */
  ghost predicate PagesFormed<L>(c: Codec<Row<L>>, listing: seq<Row<L>>, newest: bool, limit: nat)
    requires 1 <= limit
  {
    forall after: nat ::
      WellFormed(c, PageHeader(listing, newest, after, limit), PageRows(listing, newest, after, limit))
  }

  /** The page began where the listing begins, there was nothing on it, or some record of it was read. */
  predicate Resumable<L>(listing: seq<Row<L>>, newest: bool, after: nat, limit: nat, read: Read<Row<L>>) {
    read.rows != [] || PageRows(listing, newest, after, limit) == [] || Before(listing, newest, after) == 0
  }

  /** A cut page reads as its first `n` records and the continuation after them, if its header arrived. */
  lemma ReadCutMeans<L>(c: Codec<Row<L>>, listing: seq<Row<L>>, newest: bool, after: nat, limit: nat, k: nat)
    requires 1 <= limit <= PAGE_BOUND && PagesFormed(c, listing, newest, limit)
    ensures ReadCut(c, listing, newest, after, limit, k).Some? ==>
      var read := ReadCut(c, listing, newest, after, limit, k).value;
      && |read.rows| <= |PageRows(listing, newest, after, limit)|
      && read.rows == PageRows(listing, newest, after, limit)[..|read.rows|]
      && read.next == NextOf(listing, newest, after, limit, |read.rows|)
    ensures k >= |c.writeHeader(PageHeader(listing, newest, after, limit))| ==>
      ReadCut(c, listing, newest, after, limit, k).Some?
  {
    var h, rows := PageHeader(listing, newest, after, limit), PageRows(listing, newest, after, limit);
    var b := PageStream(c, listing, newest, after, limit);
    LaneCut(c, h, rows, if k < |b| then k else |b|);
  }

  lemma JoinIff<T>(all: seq<T>, n: nat, rest: seq<T>)
    requires n <= |all|
    ensures all[..n] + rest == all <==> rest == all[n..]
  {
    if all[..n] + rest == all { assert all[n..] == (all[..n] + rest)[n..]; }
    if rest == all[n..] { assert all[..n] + rest == all; }
  }

  /**
   For every page and every cut of its bytes that leaves the header: what was read and what is listed next are together
   what was to be listed, if and only if the read is resumable.
   */
  lemma ResumeBytesIff<L>(c: Codec<Row<L>>, listing: seq<Row<L>>, newest: bool, after: nat, limit: nat, k: nat)
    requires Sorted(listing, newest) && 1 <= limit <= PAGE_BOUND && PagesFormed(c, listing, newest, limit)
    requires ReadCut(c, listing, newest, after, limit, k).Some?
    ensures var read := ReadCut(c, listing, newest, after, limit, k).value;
      read.rows + Rest(listing, newest, read.next) == Remaining(listing, newest, after)
      <==> Resumable(listing, newest, after, limit, read)
  {
    var read := ReadCut(c, listing, newest, after, limit, k).value;
    var all, rows := Remaining(listing, newest, after), PageRows(listing, newest, after, limit);
    ReadCutMeans(c, listing, newest, after, limit, k);
    ResumeIff(listing, newest, after, limit, |read.rows|);
    SlicesNest(all, |read.rows|, |rows|);
    assert rows[..|read.rows|] == all[..|read.rows|];
    JoinIff(all, |read.rows|, Rest(listing, newest, read.next));
  }

  /** The hook's own reads are of the first page: there, every cut after the header resumes exactly. */
  lemma FirstPageResumes<L>(c: Codec<Row<L>>, listing: seq<Row<L>>, newest: bool, limit: nat, k: nat)
    requires Sorted(listing, newest) && 1 <= limit <= PAGE_BOUND && PagesFormed(c, listing, newest, limit)
    requires k >= |c.writeHeader(PageHeader(listing, newest, 0, limit))|
    ensures ReadCut(c, listing, newest, 0, limit, k).Some?
    ensures var read := ReadCut(c, listing, newest, 0, limit, k).value;
      read.rows + Rest(listing, newest, read.next) == listing
  {
    ReadCutMeans(c, listing, newest, 0, limit, k);
    ResumeBytesIff(c, listing, newest, 0, limit, k);
    BeforeStart(listing, newest);
    StartFollows(listing, newest);
  }

  lemma StartFollows<L>(listing: seq<Row<L>>, newest: bool)
    requires Sorted(listing, newest)
    ensures Before(listing, newest, 0) == 0
  {
  }

  /** A page cut right after its header has every record still to come. */
  lemma HeaderOnly<L>(c: Codec<Row<L>>, h: Header, rows: seq<Row<L>>)
    requires WellFormed(c, h, rows) && h.total == |rows| <= PAGE_BOUND && rows != []
    ensures |c.writeHeader(h)| < |Stream(c, h, rows)|
    ensures LaneRead(c, Stream(c, h, rows)[..|c.writeHeader(h)|]) == Some(Read([], FromStart, |rows|))
  {
    assert Framed(c.writeRow(rows[0]));
    LaneCut(c, h, rows, |c.writeHeader(h)|);
  }

  /** The failing case, for a caller that lists from a later cursor: the second page of two rows, cut right after its
      header, sends the reader back to the first row. */
  lemma RestartExample<L>(c: Codec<Row<L>>, a: L, b: L)
    requires PagesFormed(c, [Row(1, a), Row(2, b)], false, 1)
    ensures var listing := [Row(1, a), Row(2, b)];
      var k := |c.writeHeader(PageHeader(listing, false, 1, 1))|;
      && Remaining(listing, false, 1) == [Row(2, b)]
      && ReadCut(c, listing, false, 1, 1, k) == Some(Read([], FromStart, 1))
      && Rest(listing, false, FromStart) == listing
  {
    var listing := [Row(1, a), Row(2, b)];
    RemainingAfterRow(listing, false, 0);
    BeforeStart(listing, false);
    assert listing[1..] == [Row(2, b)];
    HeaderOnly(c, PageHeader(listing, false, 1, 1), PageRows(listing, false, 1, 1));
  }

  /** Records gathered by reading on from `from`, the i-th read cut to `cuts[i]` bytes; a cut header is read again. */
  function Gather<L>(
    c: Codec<Row<L>>, listing: seq<Row<L>>, newest: bool, limit: nat, from: Continuation, cuts: seq<nat>): seq<Row<L>>
    requires 1 <= limit
    decreases |cuts|
  {
    if cuts == [] || from.Finished? then []
    else
      match ReadCut(c, listing, newest, AfterOf(from), limit, cuts[0])
      case None => Gather(c, listing, newest, limit, from, cuts[1..])
      case Some(read) => read.rows + Gather(c, listing, newest, limit, read.next, cuts[1..])
  }

  /** Where reading on ends up. */
  function Reached<L>(
    c: Codec<Row<L>>, listing: seq<Row<L>>, newest: bool, limit: nat, from: Continuation, cuts: seq<nat>): Continuation
    requires 1 <= limit
    decreases |cuts|
  {
    if cuts == [] || from.Finished? then from
    else
      match ReadCut(c, listing, newest, AfterOf(from), limit, cuts[0])
      case None => Reached(c, listing, newest, limit, from, cuts[1..])
      case Some(read) => Reached(c, listing, newest, limit, read.next, cuts[1..])
  }

  /** Every read on the way is resumable. */
  ghost predicate AllResumable<L>(
    c: Codec<Row<L>>, listing: seq<Row<L>>, newest: bool, limit: nat, from: Continuation, cuts: seq<nat>)
    requires 1 <= limit
    decreases |cuts|
  {
    cuts != [] && !from.Finished? ==>
      match ReadCut(c, listing, newest, AfterOf(from), limit, cuts[0])
      case None => AllResumable(c, listing, newest, limit, from, cuts[1..])
      case Some(read) =>
        && Resumable(listing, newest, AfterOf(from), limit, read)
        && AllResumable(c, listing, newest, limit, read.next, cuts[1..])
  }

  function AfterOf(next: Continuation): nat {
    if next.After? then next.cursor else 0
  }

  /**
   However often the stream is cut and resumed, as long as every read is resumable, the records gathered together with
   what is left are exactly what there was to list: none repeated, none passed over.
   */
  lemma {:induction false} GatherExact<L>(
    c: Codec<Row<L>>, listing: seq<Row<L>>, newest: bool, limit: nat, from: Continuation, cuts: seq<nat>)
    requires Sorted(listing, newest) && 1 <= limit <= PAGE_BOUND && PagesFormed(c, listing, newest, limit)
    requires AllResumable(c, listing, newest, limit, from, cuts)
    ensures Gather(c, listing, newest, limit, from, cuts)
      + Rest(listing, newest, Reached(c, listing, newest, limit, from, cuts)) == Rest(listing, newest, from)
    decreases |cuts|
  {
    JoinNothing(Rest(listing, newest, from));
    if cuts != [] && !from.Finished? {
      match ReadCut(c, listing, newest, AfterOf(from), limit, cuts[0])
      case None => GatherExact(c, listing, newest, limit, from, cuts[1..]);
      case Some(read) =>
        ResumeBytesIff(c, listing, newest, AfterOf(from), limit, cuts[0]);
        GatherExact(c, listing, newest, limit, read.next, cuts[1..]);
        Group2(read.rows, Gather(c, listing, newest, limit, read.next, cuts[1..]),
               Rest(listing, newest, Reached(c, listing, newest, limit, read.next, cuts[1..])));
    }
  }

  // ---- The worktree stream ----

  /** Registered worktrees other than the primary checkout, which comes first. */
  function Others<W>(entries: seq<W>): seq<W> {
    if entries == [] then [] else entries[1..]
  }

  /** The source saturates: a stream without a single record still counts the primary as seen. */
  function WorktreesSkipped(total: nat, seen: nat): nat {
    var counted := if seen < 1 then 1 else seen;
    if total < counted then 0 else total - counted
  }

  function WorktreeRead<W>(c: Codec<W>, b: seq<Byte>): Option<(seq<W>, nat)> {
    match LineEnd(b)
    case None => None
    case Some(n) =>
      match c.readHeader(b[..n])
      case None => None
      case Some(h) =>
        var entries := Rows(c, b[n..], h.total);
        Some((Others(entries), WorktreesSkipped(h.total, |entries|)))
  }

  method ParseWorktreeStream<W>(c: Codec<W>, b: seq<Byte>) returns (r: Option<(seq<W>, nat)>)
    ensures r == WorktreeRead(c, b)
    ensures r.Some? <==> LineEnd(b).Some? && c.readHeader(b[..LineEnd(b).value]).Some?
    // Every record read is listed, but for the first, which is the primary checkout.
    ensures r.Some? ==>
      var h := c.readHeader(b[..LineEnd(b).value]).value;
      var entries := Rows(c, b[LineEnd(b).value..], h.total);
      && |r.value.0| == (if entries == [] then 0 else |entries| - 1)
      && forall i :: 0 <= i < |r.value.0| ==> r.value.0[i] == entries[i + 1]
    // Listed plus skipped is the total minus the primary, whatever follows the header.
    ensures r.Some? ==>
      var h := c.readHeader(b[..LineEnd(b).value]).value;
      |r.value.0| + r.value.1 == if h.total == 0 then 0 else h.total - 1
  {
    var end := LineEnd(b);
    if end.None? { return None; }
    var header := c.readHeader(b[..end.value]);
    if header.None? { return None; }
    var entries := ReadRows(c, b[end.value..], header.value.total);
    return Some((Others(entries), WorktreesSkipped(header.value.total, |entries|)));
  }

  /**
   Every truncation after the header lists exactly the complete records from the second on, and counts as skipped the
   worktrees whose records are not complete; a truncated header reads as nothing.
   */
  lemma WorktreeCut<W>(c: Codec<W>, h: Header, entries: seq<W>, k: nat)
    requires WellFormed(c, h, entries) && h.total == |entries| && k <= |Stream(c, h, entries)|
    ensures k < |c.writeHeader(h)| ==> WorktreeRead(c, Stream(c, h, entries)[..k]) == None
    ensures k >= |c.writeHeader(h)| ==>
      var r := WorktreeRead(c, Stream(c, h, entries)[..k]);
      var n := Whole(c, entries, k - |c.writeHeader(h)|);
      && r.Some? && |r.value.0| == (if n == 0 then 0 else n - 1)
      && (forall i :: 0 <= i < |r.value.0| ==> r.value.0[i] == entries[i + 1])
      && |r.value.0| + r.value.1 == if entries == [] then 0 else |entries| - 1
  {
    var line := c.writeHeader(h);
    FirstLine(line, Body(c, entries), k);
    if k >= |line| {
      RowsOfCut(c, entries, k - |line|, h.total);
    }
  }
}
