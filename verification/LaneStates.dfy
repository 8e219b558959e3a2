/** Which worktrees have only finished lanes: a fold over every page of the lane listing, kept as a snapshot that
 stops answering for good once the store is seen to have changed. */
module LaneStates {
  import opened Basics
  import opened HookStreams

  const I64_MIN: int := -0x8000_0000_0000_0000
  type Micros = x: int | I64_MIN <= x < 0x8000_0000_0000_0000 witness 0

  datatype Task = Unknown | NoWriter | Writer(worktree: string)
  datatype Phase = Live | Ended(at: Micros)
  datatype Attempt = Attempt(task: Task, phase: Phase)

  /** An attempt the scan cannot account for protects every worktree: the whole scan fails. */
  predicate Unusable(a: Attempt) {
    a.task.Unknown? || (a.task.Writer? && !Absolute(a.task.worktree))
  }

  predicate Writes(a: Attempt, path: string) {
    a.task == Writer(path)
  }

  /** The two maps the scan updates. */
  datatype Tally = Tally(states: map<string, bool>, times: map<string, Micros>)

  function Max(a: Micros, b: Micros): Micros {
    if a < b then b else a
  }

  function Count(t: Tally, a: Attempt): Tally {
    if !a.task.Writer? then t
    else
      var path := a.task.worktree;
      match a.phase
      case Ended(at) =>
        var newest := if path in t.times then t.times[path] else I64_MIN;
        Tally(if path in t.states then t.states else t.states[path := true], t.times[path := Max(newest, at)])
      case Live => t.(states := t.states[path := false])
  }

  function CountAll(attempts: seq<Attempt>): Tally {
    if attempts == [] then Tally(map[], map[])
    else Count(CountAll(attempts[..|attempts| - 1]), attempts[|attempts| - 1])
  }

  lemma CountPush(attempts: seq<Attempt>, a: Attempt)
    ensures CountAll(attempts + [a]) == Count(CountAll(attempts), a)
  {
    assert (attempts + [a])[..|attempts|] == attempts;
  }

  // ---- What the fold means ----

  ghost predicate HasWriter(attempts: seq<Attempt>, path: string) {
    exists a :: a in attempts && Writes(a, path)
  }

  ghost predicate AllFinished(attempts: seq<Attempt>, path: string) {
    forall a :: a in attempts && Writes(a, path) ==> a.phase.Ended?
  }

  /** Some attempt in the tree finished after the given time. */
  ghost predicate FinishedAfter(attempts: seq<Attempt>, path: string, time: int) {
    exists a :: a in attempts && Writes(a, path) && a.phase.Ended? && a.phase.at > time
  }

  /** The tally of one path says what its attempts say. */
  ghost predicate Means(t: Tally, attempts: seq<Attempt>, path: string) {
    && (path in t.states <==> HasWriter(attempts, path))
    && (path in t.states ==> (t.states[path] <==> AllFinished(attempts, path)))
    && (path !in t.times ==> forall time: int {:trigger FinishedAfter(attempts, path, time)} ::
          !FinishedAfter(attempts, path, time))
    && (path in t.times ==> forall time: int :: FinishedAfter(attempts, path, time) <==> t.times[path] > time)
  }

  lemma PushMembers(attempts: seq<Attempt>, a: Attempt, path: string)
    ensures HasWriter(attempts + [a], path) <==> HasWriter(attempts, path) || Writes(a, path)
    ensures AllFinished(attempts + [a], path) <==>
      AllFinished(attempts, path) && (Writes(a, path) ==> a.phase.Ended?)
  {
    var all := attempts + [a];
    assert a in all && forall x :: x in all <==> x in attempts || x == a;
  }

  lemma PushTimes(attempts: seq<Attempt>, a: Attempt, path: string, time: int)
    ensures FinishedAfter(attempts + [a], path, time) <==>
      FinishedAfter(attempts, path, time) || (Writes(a, path) && a.phase.Ended? && a.phase.at > time)
  {
    var all := attempts + [a];
    assert a in all && forall x :: x in all <==> x in attempts || x == a;
  }

  lemma {:induction false} CountMeans(attempts: seq<Attempt>, path: string)
    ensures Means(CountAll(attempts), attempts, path)
  {
    if attempts != [] {
      var init, a := attempts[..|attempts| - 1], attempts[|attempts| - 1];
      assert attempts == init + [a];
      CountMeans(init, path);
      PushMembers(init, a, path);
      forall time: int
        ensures FinishedAfter(attempts, path, time) <==>
          FinishedAfter(init, path, time) || (Writes(a, path) && a.phase.Ended? && a.phase.at > time)
      {
        PushTimes(init, a, path, time);
      }
    }
  }

  // ---- Which worktrees read as terminal ----

  /** A finished lane vouches only for the worktree that existed when it finished: created strictly before. */
  predicate Vouches(finished: Micros, created: Option<int>) {
    created.Some? && finished > created.value
  }

  function Settled(t: Tally, created: string -> Option<int>): map<string, bool> {
    map path | path in t.states :: t.states[path] && path in t.times && Vouches(t.times[path], created(path))
  }

  ghost predicate Terminal(attempts: seq<Attempt>, created: Option<int>, path: string) {
    && HasWriter(attempts, path) && AllFinished(attempts, path)
    && created.Some? && FinishedAfter(attempts, path, created.value)
  }

  /**
   A worktree reads as terminal exactly when some attempt writes to it, all that do have finished, and one of them
   finished strictly after the tree was created.
   */
  lemma TerminalExactly(attempts: seq<Attempt>, created: string -> Option<int>, path: string)
    ensures var m := Settled(CountAll(attempts), created);
      && (path in m <==> HasWriter(attempts, path))
      && (path in m && m[path] <==> Terminal(attempts, created(path), path))
  {
    CountMeans(attempts, path);
  }

  /** The order of the lanes, and repeats of a lane, do not matter. */
  lemma OrderFree(xs: seq<Attempt>, ys: seq<Attempt>, created: string -> Option<int>)
    requires forall a :: a in xs <==> a in ys
    ensures Settled(CountAll(xs), created) == Settled(CountAll(ys), created)
  {
    forall path: string
      ensures path in Settled(CountAll(xs), created) <==> path in Settled(CountAll(ys), created)
      ensures path in Settled(CountAll(xs), created) ==>
        Settled(CountAll(xs), created)[path] == Settled(CountAll(ys), created)[path]
    {
      TerminalExactly(xs, created, path);
      TerminalExactly(ys, created, path);
    }
  }

  // ---- The scan ----

  function Lanes(listing: seq<Row<Attempt>>): (r: seq<Attempt>)
    ensures |r| == |listing|
  {
    seq(|listing|, i requires 0 <= i < |listing| => listing[i].lane)
  }

  ghost predicate Usable(attempts: seq<Attempt>) {
    forall i :: 0 <= i < |attempts| ==> !Unusable(attempts[i])
  }

  /** The scan fails exactly if some lane's task is not known, or writes to a path that is not absolute. */
  lemma UsableExactly(listing: seq<Row<Attempt>>)
    ensures Usable(Lanes(listing)) <==> forall i :: 0 <= i < |listing| ==>
      match listing[i].lane.task
      case Unknown => false
      case NoWriter => true
      case Writer(worktree) => worktree != "" && worktree[0] == '/'
  {
    forall i | 0 <= i < |listing| ensures Lanes(listing)[i] == listing[i].lane {
    }
  }

  /** The lanes of one page, counted in order; an unusable one stops the scan. */
  method CountPage(before: Tally, rows: seq<Row<Attempt>>, ghost seen: seq<Attempt>) returns (r: Option<Tally>)
    requires before == CountAll(seen)
    ensures r.Some? <==> Usable(Lanes(rows))
    ensures r.Some? ==> r.value == CountAll(seen + Lanes(rows))
  {
    var t := before;
    ghost var lanes := Lanes(rows);
    JoinNothing(seen);
    var i := 0;
    while i < |rows|
      invariant 0 <= i <= |rows|
      invariant t == CountAll(seen + lanes[..i])
      invariant forall k :: 0 <= k < i ==> !Unusable(lanes[k])
    {
      var a := rows[i].lane;
      assert lanes[i] == a;
      if Unusable(a) { return None; }
      TakeMore(seen, lanes, i);
      CountPush(seen + lanes[..i], a);
      t := Count(t, a);
      i := i + 1;
    }
    assert lanes[..i] == lanes;
    return Some(t);
  }

  lemma TakeMore<T>(a: seq<T>, b: seq<T>, i: nat)
    requires i < |b|
    ensures a + b[..i + 1] == a + b[..i] + [b[i]]
  {
  }

  /** `t` is the tally of the first `n` rows, all of them usable. */
  ghost predicate Scanned(listing: seq<Row<Attempt>>, n: nat, t: Tally) {
    n <= |listing| && t == CountAll(Lanes(listing[..n])) && Usable(Lanes(listing[..n]))
  }

  /** Counting a page after the rows seen gives the tally up to the end of the page. */
  lemma ScannedMore(listing: seq<Row<Attempt>>, n: nat, m: nat, t: Tally)
    requires n <= m <= |listing| && Usable(Lanes(listing[..n])) && Usable(Lanes(listing[n..m]))
    requires t == CountAll(Lanes(listing[..n]) + Lanes(listing[n..m]))
    ensures Scanned(listing, m, t)
  {
    assert Lanes(listing[..n]) + Lanes(listing[n..m]) == Lanes(listing[..m]);
    forall i | 0 <= i < m
      ensures Lanes(listing[..m])[i] == if i < n then Lanes(listing[..n])[i] else Lanes(listing[n..m])[i - n]
    {
    }
  }

  lemma UsablePart(listing: seq<Row<Attempt>>, n: nat, m: nat)
    requires n <= m <= |listing| && Usable(Lanes(listing))
    ensures Usable(Lanes(listing[n..m]))
  {
    forall i | 0 <= i < m - n ensures !Unusable(Lanes(listing[n..m])[i]) {
      assert Lanes(listing[n..m])[i] == Lanes(listing)[n + i];
    }
  }

  lemma ScannedAll(listing: seq<Row<Attempt>>, t: Tally)
    requires Scanned(listing, |listing|, t)
    ensures t == CountAll(Lanes(listing)) && Usable(Lanes(listing))
  {
    assert listing[..|listing|] == listing;
  }

  /** Pages after a row: the rows following it, and the cursor of the last one exactly when more follow. */
  lemma NextPage(listing: seq<Row<Attempt>>, after: nat, limit: nat, n: nat)
    requires Sorted(listing, false) && limit >= 1 && n <= |listing|
    requires Remaining(listing, false, after) == listing[n..]
    ensures var rows := PageRows(listing, false, after, limit);
      var next := PageHeader(listing, false, after, limit).next;
      && n + |rows| <= |listing| && rows == listing[n..n + |rows|]
      && (next.None? ==> n + |rows| == |listing|)
      && (next.Some? ==> |rows| >= 1 && Remaining(listing, false, next.value) == listing[n + |rows|..])
  {
    var rest := Remaining(listing, false, after);
    if |rest| > limit {
      assert rest[limit - 1] == listing[n + limit - 1];
      RemainingAfterRow(listing, false, n + limit - 1);
    }
  }

  lemma ScanStarts(listing: seq<Row<Attempt>>)
    requires Sorted(listing, false)
    ensures Scanned(listing, 0, Tally(map[], map[])) && Remaining(listing, false, 0) == listing[0..]
  {
    BeforeStart(listing, false);
    assert listing[0..] == listing && Lanes(listing[..0]) == [];
  }

  /** One failed page means an unusable lane in the listing. */
  lemma ScanFails(listing: seq<Row<Attempt>>, n: nat, m: nat)
    requires n <= m <= |listing| && !Usable(Lanes(listing[n..m]))
    ensures !Usable(Lanes(listing))
  {
    if Usable(Lanes(listing)) { UsablePart(listing, n, m); }
  }

  /** Reading every page gives the tally of the whole listing, whatever the page size. */
  method ScanTerminal(listing: seq<Row<Attempt>>, limit: nat) returns (r: Option<Tally>)
    requires Sorted(listing, false) && limit >= 1
    ensures r.Some? <==> Usable(Lanes(listing))
    ensures r.Some? ==> r.value == CountAll(Lanes(listing))
  {
    var t := Tally(map[], map[]);
    var after: nat := 0;
    var more := true;
    ghost var n: nat := 0;
    ScanStarts(listing);
    while more
      invariant Scanned(listing, n, t)
      invariant more ==> Remaining(listing, false, after) == listing[n..]
      invariant !more ==> n == |listing|
      decreases |listing| - n, more
    {
      var rows := PageRows(listing, false, after, limit);
      NextPage(listing, after, limit, n);
      ghost var m := n + |rows|;
      var counted := CountPage(t, rows, Lanes(listing[..n]));
      if counted.None? {
        ScanFails(listing, n, m);
        return None;
      }
      t := counted.value;
      ScannedMore(listing, n, m, t);
      n := m;
      match PageHeader(listing, false, after, limit).next {
        case Some(cursor) => after := cursor;
        case None => more := false;
      }
    }
    ScannedAll(listing, t);
    return Some(t);
  }

  /** The scan, then the creation check on every worktree that still counts as finished. */
  method LaneStateMap(listing: seq<Row<Attempt>>, limit: nat, created: string -> Option<int>)
    returns (r: Option<map<string, bool>>)
    requires Sorted(listing, false) && limit >= 1
    ensures r.Some? <==> Usable(Lanes(listing))
    ensures r.Some? ==> r.value == Settled(CountAll(Lanes(listing)), created)
    // A worktree is in the map if some lane writes to it, and settled there if all of them finished after it was made.
    ensures r.Some? ==> forall path ::
      && (path in r.value <==> HasWriter(Lanes(listing), path))
      && (path in r.value && r.value[path] <==> Terminal(Lanes(listing), created(path), path))
  {
    forall path
      ensures path in Settled(CountAll(Lanes(listing)), created) <==> HasWriter(Lanes(listing), path)
      ensures path in Settled(CountAll(Lanes(listing)), created) && Settled(CountAll(Lanes(listing)), created)[path]
        <==> Terminal(Lanes(listing), created(path), path)
    {
      TerminalExactly(Lanes(listing), created, path);
    }
    var scanned := ScanTerminal(listing, limit);
    if scanned.None? { return None; }
    var t := scanned.value;
    var states := t.states;
    var left := t.states.Keys;
    while left != {}
      invariant left <= t.states.Keys == states.Keys
      invariant forall p :: p in left ==> states[p] == t.states[p]
      invariant forall p :: p in t.states && p !in left ==> states[p] == Settled(t, created)[p]
      decreases left
    {
      var path :| path in left;
      if states[path] {
        states := states[path := path in t.times && Vouches(t.times[path], created(path))];
      }
      left := left - {path};
    }
    assert states == Settled(t, created);
    return Some(states);
  }

  // ---- The snapshot and its latch ----

  /** What a look at the store finds; identities and versions are opaque. A store without a database has no version. */
  datatype Look = Unreadable | Seen(root: nat, database: Option<nat>, version: Option<nat>)

  predicate Same(scanned: Look, now: Look) {
    && scanned.Seen? && now.Seen? && now.root == scanned.root && now.database == scanned.database
    && (scanned.version.Some? ==> now.version == scanned.version)
  }

  /** The latch after looking at the store again and again. */
  function Latch(scanned: Look, stale: bool, looks: seq<Look>): bool
    decreases |looks|
  {
    if looks == [] then stale
    else Latch(scanned, stale || !Same(scanned, looks[0]), looks[1..])
  }

  /** A look that could not be made, or found another directory, another database file, or another version of it. */
  lemma SameExactly(scanned: Look, now: Look)
    ensures !Same(scanned, now) <==>
      match (scanned, now)
      case (Seen(root, database, version), Seen(root', database', version')) =>
        root' != root || database' != database || (version != None && version' != version)
      case _ => true
  {
  }

  /** A snapshot is usable exactly while every look so far found the store it was scanned from. */
  lemma {:induction false} LatchExact(scanned: Look, stale: bool, looks: seq<Look>)
    ensures Latch(scanned, stale, looks) <==> stale || exists i :: 0 <= i < |looks| && !Same(scanned, looks[i])
    decreases |looks|
  {
    if looks != [] {
      LatchExact(scanned, stale || !Same(scanned, looks[0]), looks[1..]);
      forall i | 0 < i < |looks| ensures looks[i] == looks[1..][i - 1] {}
    }
  }

  /** Once stale, a snapshot answers nothing whatever the store looks like later. */
  lemma {:induction false} StaleForever(scanned: Look, looks: seq<Look>, later: seq<Look>)
    requires Latch(scanned, false, looks)
    ensures Latch(scanned, false, looks + later)
  {
    LatchExact(scanned, false, looks);
    LatchExact(scanned, false, looks + later);
    var i :| 0 <= i < |looks| && !Same(scanned, looks[i]);
    assert (looks + later)[i] == looks[i];
  }

  class LaneSnapshot {
    const states: map<string, bool>
    const scanned: Look
    var stale: bool

    constructor (states: map<string, bool>, scanned: Look)
      ensures this.states == states && this.scanned == scanned && !stale
    {
      this.states, this.scanned, stale := states, scanned, false;
    }

    method IsCurrent(now: Look) returns (current: bool)
      modifies this`stale
      ensures stale == Latch(scanned, old(stale), [now]) && current == !stale
      ensures current <==>
        && !old(stale) && scanned.Seen? && now.Seen? && now.root == scanned.root && now.database == scanned.database
        && (scanned.version == None || now.version == scanned.version)
    {
      if stale { return false; }
      current := Same(scanned, now);
      stale := !current;
    }

    /** Whether the lanes of a worktree are all settled, if the snapshot may still say. */
    method Get(path: string, now: Look) returns (r: Option<bool>)
      modifies this`stale
      ensures stale == Latch(scanned, old(stale), [now])
      ensures r == if stale || path !in states then None else Some(states[path])
    {
      var current := IsCurrent(now);
      if current && path in states { return Some(states[path]); }
      return None;
    }

    /** A worktree that no lane ever wrote to has no live lane either. */
    method NoLiveLanes(path: string, now: Look) returns (r: bool)
      modifies this`stale
      ensures stale == Latch(scanned, old(stale), [now])
      ensures r <==> !stale && (path in states ==> states[path])
    {
      var current := IsCurrent(now);
      return current && (path in states ==> states[path]);
    }
  }

  // ---- Refreshing during a sweep ----

  datatype Sweep<T> = Sweep(snapshot: Option<T>, failed: bool)

  /** One refresh: what the look at the current snapshot and a rescan, if they are made, would give. */
  datatype Refresh<T> = Refresh(current: bool, rescan: Option<T>)

  function Refreshed<T>(s: Sweep<T>, r: Refresh<T>): Sweep<T> {
    if s.failed || (s.snapshot.Some? && r.current) then s
    else Sweep(r.rescan, r.rescan.None?)
  }

  function RefreshedAll<T>(s: Sweep<T>, rs: seq<Refresh<T>>): Sweep<T>
    decreases |rs|
  {
    if rs == [] then s else RefreshedAll(Refreshed(s, rs[0]), rs[1..])
  }

  class SweepCells<T> {
    var snapshot: Option<T>
    var rescanFailed: bool

    ghost function Value(): Sweep<T>
      reads this
    {
      Sweep(snapshot, rescanFailed)
    }

    constructor (first: Option<T>)
      ensures Value() == Sweep(first, false)
    {
      snapshot, rescanFailed := first, false;
    }

    method RefreshIfStale(r: Refresh<T>)
      modifies this
      ensures Value() == Refreshed(old(Value()), r)
    {
      if rescanFailed { return; }
      if snapshot.Some? && r.current { return; }
      if r.rescan.None? { rescanFailed := true; }
      snapshot := r.rescan;
    }
  }

  /** Until a rescan fails, a refresh leaves a snapshot that is current or new. */
  lemma RefreshIsFresh<T>(s: Sweep<T>, r: Refresh<T>)
    requires !s.failed
    ensures Refreshed(s, r).snapshot.Some? ==>
      Refreshed(s, r).snapshot == r.rescan || (r.current && Refreshed(s, r).snapshot == s.snapshot)
    ensures Refreshed(s, r).failed <==> Refreshed(s, r).snapshot.None?
  {
  }

  /** One failed rescan leaves no snapshot for the rest of the sweep, whatever later rescans would find. */
  lemma {:induction false} FailedForGood<T>(first: Option<T>, rs: seq<Refresh<T>>, later: seq<Refresh<T>>)
    requires RefreshedAll(Sweep(first, false), rs).failed
    ensures RefreshedAll(Sweep(first, false), rs + later) == Sweep(None, true)
  {
    FailedHasNone(Sweep(first, false), rs);
    RefreshedParts(Sweep(first, false), rs, later);
    FailedStays(RefreshedAll(Sweep(first, false), rs), later);
  }

  lemma {:induction false} FailedHasNone<T>(s: Sweep<T>, rs: seq<Refresh<T>>)
    requires s.failed ==> s.snapshot.None?
    ensures RefreshedAll(s, rs).failed ==> RefreshedAll(s, rs).snapshot.None?
    decreases |rs|
  {
    if rs != [] { FailedHasNone(Refreshed(s, rs[0]), rs[1..]); }
  }

  lemma {:induction false} FailedStays<T>(s: Sweep<T>, rs: seq<Refresh<T>>)
    requires s.failed
    ensures RefreshedAll(s, rs) == s
    decreases |rs|
  {
    if rs != [] { FailedStays(s, rs[1..]); }
  }

  lemma {:induction false} RefreshedParts<T>(s: Sweep<T>, a: seq<Refresh<T>>, b: seq<Refresh<T>>)
    ensures RefreshedAll(s, a + b) == RefreshedAll(RefreshedAll(s, a), b)
    decreases |a|
  {
    if a == [] {
      JoinNothing(b);
    } else {
      TailJoin(a, b);
      RefreshedParts(Refreshed(s, a[0]), a[1..], b);
    }
  }
}
