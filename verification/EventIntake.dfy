/**
 Durable admission of webhook deliveries: an in-memory map, a state file replaced by write, rename and
 directory sync, and the set of contents a power cut could leave behind. Results are about whole runs with
 failing writes, process exits, power cuts and reopenings.
 */
module EventIntake {
  import opened Basics

  // ---- Records ----

  datatype Target = PullRequest(number: nat) | Repository

  datatype Marker = Marker(receivedAt: nat, target: Target, pending: bool, event: string, completedAt: Option<nat>)

  datatype State = State(version: nat, repository: string, deliveries: map<string, Marker>)

  /** The fields of a marker that admission fixes. */
  datatype Core = Core(receivedAt: nat, target: Target, event: string)

  function CoreOf(m: Marker): Core {
    Core(m.receivedAt, m.target, m.event)
  }

  // ---- The state file ----

  datatype Contents = Absent | Malformed | Stored(state: State)

  /** `visible` is what a reader sees now; `exposed` is everything a power cut could leave. */
  datatype Disk = Disk(visible: Contents, exposed: set<Contents>)

  /** How a write ends: done, failed with the old file in place, or failed after the rename. */
  datatype Outcome = Written | FailedBeforeRename | FailedAfterRename

  function Persist(s: State, d: Disk, o: Outcome): Disk {
    match o
    case Written => Disk(Stored(s), {Stored(s)})
    case FailedBeforeRename => d
    case FailedAfterRename => Disk(Stored(s), d.exposed + {Stored(s)})
  }

  datatype OpenError = Unreadable | UnsupportedVersion | OtherRepository

  function OpenState(c: Contents, repository: string): Result<State, OpenError> {
    match c
    case Malformed => Failure(Unreadable)
    case Absent => Success(State(1, repository, map[]))
    case Stored(s) =>
      if s.version != 1 then Failure(UnsupportedVersion)
      else if s.repository != [] && s.repository != repository then Failure(OtherRepository)
      else Success(s.(repository := repository))
  }

  // ---- Admission ----

  /** The parts of a payload that admission looks at; absent parts are `None`. */
  datatype Payload = Payload(
    repository: Option<string>, pullRequest: Option<nat>, issueIsPullRequest: bool, issue: Option<nat>,
    checkRun: Option<seq<Option<nat>>>, checkSuite: Option<seq<Option<nat>>>)

  datatype Delivery = Delivery(id: string, event: string, signed: bool, payload: Option<Payload>)

  datatype Settings = Settings(repository: string, secret: string)

  datatype Admission = Accepted | Duplicate | Rejected

  /** A write that failed. */
  datatype Fault = Fault

  predicate Supported(event: string) {
    event in {"pull_request", "push", "check_run", "check_suite", "status", "issue_comment", "pull_request_review",
              "pull_request_review_comment"}
  }

  predicate Admissible(settings: Settings, d: Delivery) {
    && settings.secret != [] && d.signed && d.id != [] && Supported(d.event)
    && d.payload.Some? && d.payload.value.repository == Some(settings.repository)
  }

  function Only(prs: Option<seq<Option<nat>>>): Option<nat> {
    if prs.Some? && |prs.value| == 1 then prs.value[0] else None
  }

  function TargetOf(event: string, p: Payload): Target {
    var number :=
      if event in {"pull_request", "pull_request_review", "pull_request_review_comment"} then p.pullRequest
      else if event == "issue_comment" then if p.issueIsPullRequest then p.issue else None
      else if event == "check_run" then Only(p.checkRun)
      else if event == "check_suite" then Only(p.checkSuite)
      else None;
    if number.Some? then PullRequest(number.value) else Repository
  }

  function NewMarker(d: Delivery, now: nat): Marker
    requires d.payload.Some?
  {
    Marker(now, TargetOf(d.event, d.payload.value), true, d.event, None)
  }

  /** The state that admission writes: a known delivery is written again as it is. */
  function Admitted(s: State, d: Delivery, now: nat): State
    requires d.payload.Some?
  {
    if d.id in s.deliveries then s else s.(deliveries := s.deliveries[d.id := NewMarker(d, now)])
  }

  /** The state that completion writes: only named, known deliveries change. */
  function Completed(s: State, ids: seq<string>, at: Option<nat>): State {
    s.(deliveries := map id | id in s.deliveries ::
         if id in ids then s.deliveries[id].(pending := false, completedAt := at) else s.deliveries[id])
  }

  // ---- Coalesced work ----

  function PendingNumbers(m: map<string, Marker>): set<nat> {
    set id | id in m && m[id].pending && m[id].target.PullRequest? :: m[id].target.number
  }

  predicate SweepPending(m: map<string, Marker>) {
    exists id :: id in m && m[id].pending && m[id].target.Repository?
  }

  predicate Ascending(ns: seq<nat>) {
    forall i, j :: 0 <= i < j < |ns| ==> ns[i] < ns[j]
  }

  function Elements(ns: seq<nat>): set<nat> {
    set n | n in ns
  }

  function Targets(ns: seq<nat>): seq<Target> {
    seq(|ns|, i requires 0 <= i < |ns| => PullRequest(ns[i]))
  }

  /** The exact coalescing: one sweep if any is pending, else each pending pull request once, in order. */
  ghost predicate Coalesces(targets: seq<Target>, m: map<string, Marker>) {
    if SweepPending(m) then targets == [Repository]
    else exists ns: seq<nat> :: Ascending(ns) && Elements(ns) == PendingNumbers(m) && targets == Targets(ns)
  }

  lemma AscendingLast(a: seq<nat>, n: nat)
    requires Ascending(a) && n in a
    ensures n <= a[|a| - 1]
    ensures n in a[..|a| - 1] <==> n != a[|a| - 1]
  {
    var i :| 0 <= i < |a| && a[i] == n;
    if i < |a| - 1 { assert a[..|a| - 1][i] == n; }
  }

  /** A sequence in strict order is determined by its elements. */
  lemma {:induction false} AscendingUnique(a: seq<nat>, b: seq<nat>)
    requires Ascending(a) && Ascending(b) && Elements(a) == Elements(b)
    ensures a == b
  {
    assert a != [] ==> a[0] in Elements(b);
    assert b != [] ==> b[0] in Elements(a);
    if a != [] {
      var x, y := a[|a| - 1], b[|b| - 1];
      var a', b' := a[..|a| - 1], b[..|b| - 1];
      assert x in Elements(b) && y in Elements(a);
      AscendingLast(a, y);
      AscendingLast(b, x);
      forall n: nat ensures n in Elements(a') <==> n in Elements(b') {
        if n in Elements(a) {
          AscendingLast(a, n);
          AscendingLast(b, n);
        }
      }
      AscendingUnique(a', b');
      assert a == a' + [x] && b == b' + [y];
    }
  }

  /** Two coalescings of the same deliveries are equal. */
  lemma CoalescingUnique(t: seq<Target>, u: seq<Target>, m: map<string, Marker>)
    requires Coalesces(t, m) && Coalesces(u, m)
    ensures t == u
  {
    if !SweepPending(m) {
      var a: seq<nat> :| Ascending(a) && Elements(a) == PendingNumbers(m) && t == Targets(a);
      var b: seq<nat> :| Ascending(b) && Elements(b) == PendingNumbers(m) && u == Targets(b);
      AscendingUnique(a, b);
    }
  }

  /** A coalescing is one sweep if a pending delivery asks for it, and else the pull requests that pending deliveries
      name: every one of them, no other, each once and in order. */
  lemma CoalescesMeans(targets: seq<Target>, m: map<string, Marker>)
    requires Coalesces(targets, m)
    ensures (exists id :: id in m && m[id].pending && m[id].target == Repository) ==> targets == [Repository]
    ensures (forall id :: id in m && m[id].pending ==> m[id].target != Repository) ==>
      && (forall t :: t in targets <==> exists id :: id in m && m[id].pending && m[id].target == t)
      && forall i, j :: 0 <= i < j < |targets| ==>
           targets[i].PullRequest? && targets[j].PullRequest? && targets[i].number < targets[j].number
  {
    if !SweepPending(m) {
      var ns: seq<nat> :| Ascending(ns) && Elements(ns) == PendingNumbers(m) && targets == Targets(ns);
      forall t ensures t in targets <==> exists id :: id in m && m[id].pending && m[id].target == t {
        if t in targets {
          var i :| 0 <= i < |targets| && targets[i] == t;
          assert ns[i] in PendingNumbers(m);
        }
        if id :| id in m && m[id].pending && m[id].target == t {
          assert t.number in Elements(ns);
          var i :| 0 <= i < |ns| && ns[i] == t.number;
          assert targets[i] == t;
        }
      }
    }
  }

  /** An ordered set is kept as an ascending sequence. */
  method Insert(ns: seq<nat>, n: nat) returns (r: seq<nat>)
    requires Ascending(ns)
    ensures Ascending(r)
    ensures forall k :: k in r <==> k in ns || k == n
  {
    var i := 0;
    while i < |ns| && ns[i] < n
      invariant 0 <= i <= |ns| && forall j :: 0 <= j < i ==> ns[j] < n
    {
      i := i + 1;
    }
    if i < |ns| && ns[i] == n { return ns; }
    r := ns[..i] + [n] + ns[i..];
    forall k ensures k in r <==> k in ns || k == n {
      assert ns == ns[..i] + ns[i..];
    }
  }

  // ---- The intake object ----

  /** A single-owner queue over one state file. Each write takes its outcome from the environment. */
  class Intake {
    const settings: Settings
    var state: State
    var disk: Disk

    constructor (settings: Settings, disk: Disk, state: State)
      ensures this.settings == settings && this.disk == disk && this.state == state
    {
      this.settings := settings;
      this.disk := disk;
      this.state := state;
    }

    /** Opening reads what is visible and writes nothing. */
    static method Open(settings: Settings, disk: Disk) returns (r: Result<Intake, OpenError>)
      ensures r.Success? <==> OpenState(disk.visible, settings.repository).Success?
      ensures r.Failure? ==> Failure(r.error) == OpenState(disk.visible, settings.repository)
      ensures r.Success? ==> fresh(r.value) && r.value.settings == settings && r.value.disk == disk
      ensures r.Success? ==> Success(r.value.state) == OpenState(disk.visible, settings.repository)
    {
      match OpenState(disk.visible, settings.repository)
      case Failure(e) => r := Failure(e);
      case Success(s) =>
        var intake := new Intake(settings, disk, s);
        r := Success(intake);
    }

    /** Write, rename, sync the directory. */
    method Write(outcome: Outcome) returns (ok: bool)
      modifies this`disk
      ensures disk == Persist(state, old(disk), outcome)
      ensures disk.visible == if outcome == FailedBeforeRename then old(disk).visible else Stored(state)
      ensures outcome == Written ==> disk.exposed == {Stored(state)}
      ensures outcome == FailedBeforeRename ==> disk.exposed == old(disk).exposed
      ensures outcome == FailedAfterRename ==> disk.exposed == old(disk).exposed + {Stored(state)}
      ensures ok <==> outcome == Written
    {
      if outcome != FailedBeforeRename {
        disk := Disk(Stored(state), disk.exposed + {Stored(state)});
      }
      if outcome == Written {
        disk := Disk(Stored(state), {Stored(state)});
      }
      ok := outcome == Written;
    }

    /** A new delivery is kept in memory even when its write fails; a known one is written again first. */
    method Admit(d: Delivery, now: nat, outcome: Outcome) returns (r: Result<Admission, Fault>)
      modifies this
      ensures (state, disk, r) == AdmitStep(settings, old(state), old(disk), d, now, outcome)
    {
      if settings.secret == [] || !d.signed || d.id == [] { return Success(Rejected); }
      if !Supported(d.event) { return Success(Rejected); }
      if d.payload.None? { return Success(Rejected); }
      if d.payload.value.repository != Some(settings.repository) { return Success(Rejected); }
      if d.id in state.deliveries {
        var ok := Write(outcome);
        return if ok then Success(Duplicate) else Failure(Fault);
      }
      state := state.(deliveries := state.deliveries[d.id := NewMarker(d, now)]);
      var ok := Write(outcome);
      r := if ok then Success(Accepted) else Failure(Fault);
    }

    /** Completion is undone in memory when its write fails. */
    method CompleteAt(ids: seq<string>, at: Option<nat>, outcome: Outcome) returns (ok: bool)
      modifies this
      ensures (state, disk, ok) == CompleteStep(old(state), old(disk), ids, at, outcome)
    {
      var before := state;
      for n := 0 to |ids|
        invariant state == Completed(before, ids[..n], at)
        invariant disk == old(disk)
      {
        var id := ids[n];
        assert ids[..n + 1] == ids[..n] + [id];
        if id in state.deliveries {
          var marker := state.deliveries[id].(pending := false, completedAt := at);
          state := state.(deliveries := state.deliveries[id := marker]);
        }
        assert state.deliveries == Completed(before, ids[..n + 1], at).deliveries;
      }
      assert ids[..|ids|] == ids;
      ok := Write(outcome);
      if !ok { state := before; }
    }

    /** The pending work, coalesced; the first pending sweep ends the loop. */
    method PendingTargets() returns (targets: seq<Target>)
      ensures Coalesces(targets, state.deliveries)
    {
      var m := state.deliveries;
      var rest := m.Keys;
      var ns: seq<nat> := [];
      while rest != {}
        invariant rest <= m.Keys && Ascending(ns)
        invariant forall id :: id in m && id !in rest && m[id].pending ==>
          m[id].target.PullRequest? && m[id].target.number in ns
        invariant forall n: nat :: n in ns ==> n in PendingNumbers(m)
        decreases rest
      {
        var id :| id in rest;
        if m[id].pending {
          match m[id].target
          case Repository => return [Repository];
          case PullRequest(number) =>
            assert number in PendingNumbers(m);
            ns := Insert(ns, number);
        }
        rest := rest - {id};
      }
      assert Elements(ns) == PendingNumbers(m);
      targets := Targets(ns);
    }
  }

  function AdmitStep(settings: Settings, s: State, disk: Disk, d: Delivery, now: nat, o: Outcome)
    : (State, Disk, Result<Admission, Fault>)
  {
    if !Admissible(settings, d) then (s, disk, Success(Rejected))
    else
      var next := Admitted(s, d, now);
      (next, Persist(next, disk, o),
       if o != Written then Failure(Fault) else Success(if d.id in s.deliveries then Duplicate else Accepted))
  }

  function CompleteStep(s: State, disk: Disk, ids: seq<string>, at: Option<nat>, o: Outcome): (State, Disk, bool) {
    var next := Completed(s, ids, at);
    (if o == Written then next else s, Persist(next, disk, o), o == Written)
  }

  // ---- What the steps mean ----

  /** The pull request that a payload names, for each kind of event that can name one. */
  ghost predicate NamesPull(event: string, p: Payload, n: nat) {
    || (event in ["pull_request", "pull_request_review", "pull_request_review_comment"] && p.pullRequest == Some(n))
    || (event == "issue_comment" && p.issueIsPullRequest && p.issue == Some(n))
    || (event == "check_run" && p.checkRun == Some([Some(n)]))
    || (event == "check_suite" && p.checkSuite == Some([Some(n)]))
  }

  lemma EventsDiffer()
    ensures "check_run" != "check_suite" && "issue_comment" !in ["check_run", "check_suite"]
    ensures forall e :: e in ["pull_request", "pull_request_review", "pull_request_review_comment"] ==>
      e !in ["issue_comment", "check_run", "check_suite"]
  {
    assert |"check_run"| == 9 && |"check_suite"| == 11 && |"issue_comment"| == 13;
    assert |"pull_request"| == 12 && |"pull_request_review"| == 19 && |"pull_request_review_comment"| == 27;
  }

  lemma TargetExactly(event: string, p: Payload)
    ensures TargetOf(event, p).PullRequest? ==> NamesPull(event, p, TargetOf(event, p).number)
    ensures TargetOf(event, p).Repository? ==> forall n: nat :: !NamesPull(event, p, n)
  {
    EventsDiffer();
    assert forall prs: seq<Option<nat>> :: |prs| == 1 ==> prs == [prs[0]];
  }

  /**
   Admission answers Accepted or Duplicate exactly for a signed, named, supported delivery of this repository, provided
   the write succeeds; which of the two says whether the delivery was known. A rejection changes nothing.
   */
  lemma AdmitsExactly(settings: Settings, s: State, disk: Disk, d: Delivery, now: nat, o: Outcome)
    ensures var (next, after, r) := AdmitStep(settings, s, disk, d, now, o);
      && (r.Success? && r.value != Rejected <==>
            && settings.secret != "" && d.signed && d.id != ""
            && d.event in ["pull_request", "push", "check_run", "check_suite", "status", "issue_comment",
                           "pull_request_review", "pull_request_review_comment"]
            && d.payload.Some? && d.payload.value.repository == Some(settings.repository) && o == Written)
      && (r == Success(Duplicate) ==> d.id in s.deliveries)
      && (r == Success(Accepted) ==> d.id !in s.deliveries)
      && (r.Failure? ==> o != Written)
      && (r == Success(Rejected) ==> next == s && after == disk)
  {
  }

  /**
   A new delivery is recorded as it arrived: the time, the event, the pull request its payload names or else the whole
   repository, pending and not completed. Nothing else in the state changes, and a known delivery changes nothing.
   */
  lemma AdmittedMarker(settings: Settings, s: State, disk: Disk, d: Delivery, now: nat, o: Outcome)
    ensures var (next, _, r) := AdmitStep(settings, s, disk, d, now, o);
      && next.version == s.version && next.repository == s.repository
      && (d.id in s.deliveries || r == Success(Rejected) ==> next.deliveries == s.deliveries)
      && (d.id !in s.deliveries && r != Success(Rejected) ==>
            && next.deliveries.Keys == s.deliveries.Keys + {d.id} && d.payload.Some?
            && (forall id :: id in s.deliveries ==> next.deliveries[id] == s.deliveries[id])
            && var m := next.deliveries[d.id];
               && m.receivedAt == now && m.event == d.event && m.pending && m.completedAt == None
               && (forall n: nat :: m.target == PullRequest(n) <==> NamesPull(d.event, d.payload.value, n)))
  {
    if d.payload.Some? {
      TargetExactly(d.event, d.payload.value);
      EventsDiffer();
    }
  }

  /** Completion settles exactly the named deliveries that are known, at the given time, and keeps all else of them. */
  lemma CompletesExactly(s: State, disk: Disk, ids: seq<string>, at: Option<nat>, o: Outcome)
    ensures var (next, _, ok) := CompleteStep(s, disk, ids, at, o);
      && (ok <==> o == Written) && (!ok ==> next == s)
      && next.version == s.version && next.repository == s.repository && next.deliveries.Keys == s.deliveries.Keys
      && (ok ==> forall id :: id in s.deliveries ==>
            var (m, n) := (s.deliveries[id], next.deliveries[id]);
            && n.receivedAt == m.receivedAt && n.target == m.target && n.event == m.event
            && (if id in ids then !n.pending && n.completedAt == at
                else n.pending == m.pending && n.completedAt == m.completedAt))
  {
  }

  /** What opening makes of the contents of the file. */
  lemma OpensExactly(c: Contents, repository: string)
    ensures OpenState(c, repository).Success? <==>
      c.Absent? || (c.Stored? && c.state.version == 1 && c.state.repository in ["", repository])
    ensures OpenState(c, repository).Success? ==>
      var s := OpenState(c, repository).value;
      && s.version == 1 && s.repository == repository
      && s.deliveries == if c.Stored? then c.state.deliveries else map[]
    ensures OpenState(c, repository).Failure? ==>
      match OpenState(c, repository).error
      case Unreadable => c == Malformed
      case UnsupportedVersion => c.Stored? && c.state.version != 1
      case OtherRepository => c.Stored? && c.state.version == 1
  {
  }

  // ---- Runs ----

  /** The process is down when `memory` is absent. */
  datatype World = World(memory: Option<State>, disk: Disk)

  datatype Event =
    | Admit(delivery: Delivery, now: nat, outcome: Outcome)
    | Complete(ids: seq<string>, at: Option<nat>, outcome: Outcome)
    | Exit                      // the process dies, the file system lives on
    | PowerCut(left: Contents)  // the machine dies and leaves one of the exposed contents
    | Reopen

  ghost predicate Enabled(w: World, e: Event) {
    match e
    case Admit(_, _, _) => w.memory.Some?
    case Complete(_, _, _) => w.memory.Some?
    case Exit => w.memory.Some?
    case PowerCut(left) => left in w.disk.exposed
    case Reopen => w.memory.None?
  }

  ghost function Step(settings: Settings, w: World, e: Event): World
    requires Enabled(w, e)
  {
    match e
    case Admit(d, now, o) =>
      var (s, disk, _) := AdmitStep(settings, w.memory.value, w.disk, d, now, o); World(Some(s), disk)
    case Complete(ids, at, o) =>
      var (s, disk, _) := CompleteStep(w.memory.value, w.disk, ids, at, o); World(Some(s), disk)
    case Exit => w.(memory := None)
    case PowerCut(left) => World(None, Disk(left, {left}))
    case Reopen =>
      match OpenState(w.disk.visible, settings.repository)
      case Success(s) => w.(memory := Some(s))
      case Failure(_) => w
  }

  /** `ws[i]` is the world before event `i`. */
  ghost predicate Run(settings: Settings, ws: seq<World>, es: seq<Event>) {
    && |ws| == |es| + 1
    && ws[0].memory.None? && ws[0].disk.visible in ws[0].disk.exposed
    && forall i :: 0 <= i < |es| ==> Enabled(ws[i], es[i]) && ws[i + 1] == Step(settings, ws[i], es[i])
  }

  /** What event `i` answered to its caller. */
  ghost function AdmitAnswer(settings: Settings, w: World, e: Event): Result<Admission, Fault>
    requires e.Admit? && Enabled(w, e)
  {
    AdmitStep(settings, w.memory.value, w.disk, e.delivery, e.now, e.outcome).2
  }

  // ---- Facts that hold in memory and in everything a power cut could leave ----

  /** The delivery is known, with this core. */
  predicate Known(s: State, id: string, core: Core) {
    id in s.deliveries && CoreOf(s.deliveries[id]) == core
  }

  predicate Pending(s: State, id: string) {
    id in s.deliveries && s.deliveries[id].pending
  }

  predicate Settled(s: State, id: string) {
    id in s.deliveries && !s.deliveries[id].pending
  }

  ghost predicate Everywhere(w: World, fact: State -> bool) {
    && (w.memory.Some? ==> fact(w.memory.value))
    && w.disk.visible in w.disk.exposed
    && forall c <- w.disk.exposed :: c.Stored? && fact(c.state)
  }

  /** A fact that the event's own state changes keep. */
  ghost predicate Kept(settings: Settings, e: Event, fact: State -> bool) {
    && (forall s: State :: fact(s) ==> fact(s.(repository := settings.repository)))
    && (e.Admit? && e.delivery.payload.Some? ==> forall s: State :: fact(s) ==> fact(Admitted(s, e.delivery, e.now)))
    && (e.Complete? ==> forall s: State :: fact(s) ==> fact(Completed(s, e.ids, e.at)))
  }

  /** The heart of durability: a kept fact that holds everywhere still does after any step, whether the write
      succeeds, fails before or after the rename, is rolled back, or is lost with the process. */
  lemma EverywhereStep(settings: Settings, w: World, e: Event, fact: State -> bool)
    requires Enabled(w, e) && Everywhere(w, fact) && Kept(settings, e, fact)
    ensures Everywhere(Step(settings, w, e), fact)
  {
    match e
    case Admit(d, now, o) =>
      if Admissible(settings, d) { assert fact(Admitted(w.memory.value, d, now)); }
    case Complete(ids, at, o) => assert fact(Completed(w.memory.value, ids, at));
    case _ =>
  }

  lemma {:induction false} EverywhereRun(
    settings: Settings, ws: seq<World>, es: seq<Event>, i: nat, j: nat, fact: State -> bool)
    requires Run(settings, ws, es) && i <= j <= |es| && Everywhere(ws[i], fact)
    requires forall k :: i <= k < j ==> Kept(settings, es[k], fact)
    ensures Everywhere(ws[j], fact)
    decreases j - i
  {
    if i < j {
      EverywhereStep(settings, ws[i], es[i], fact);
      EverywhereRun(settings, ws, es, i + 1, j, fact);
    }
  }

  lemma {:induction false} VisibleExposed(settings: Settings, ws: seq<World>, es: seq<Event>, i: nat)
    requires Run(settings, ws, es) && i <= |es|
    ensures ws[i].disk.visible in ws[i].disk.exposed
  {
    if i > 0 { VisibleExposed(settings, ws, es, i - 1); }
  }

  lemma CoreKept(settings: Settings, e: Event, id: string, core: Core)
    ensures Kept(settings, e, (s: State) => Known(s, id, core))
  {
  }

  lemma SettledKept(settings: Settings, e: Event, id: string)
    ensures Kept(settings, e, (s: State) => Settled(s, id))
  {
  }

  lemma PendingKept(settings: Settings, e: Event, id: string)
    requires e.Complete? ==> id !in e.ids
    ensures Kept(settings, e, (s: State) => Pending(s, id))
  {
  }

  // ---- The guarantees ----

  /** An acknowledged delivery is in memory and in every state a crash could recover, for the rest of the run,
      and its arrival time, target and event never change. */
  lemma AcknowledgedIsDurable(settings: Settings, ws: seq<World>, es: seq<Event>, i: nat, j: nat)
    requires Run(settings, ws, es) && i < j <= |es| && es[i].Admit?
    requires AdmitAnswer(settings, ws[i], es[i]) in {Success(Accepted), Success(Duplicate)}
    ensures var id := es[i].delivery.id;
      && id in ws[i + 1].memory.value.deliveries
      && var core := CoreOf(ws[i + 1].memory.value.deliveries[id]);
         && Everywhere(ws[j], (s: State) => Known(s, id, core))
         // One accepted is recorded as it arrived.
         && (AdmitAnswer(settings, ws[i], es[i]) == Success(Accepted) ==>
               && core.receivedAt == es[i].now && core.event == es[i].delivery.event
               && es[i].delivery.payload.Some?
               && forall n: nat ::
                    core.target == PullRequest(n) <==> NamesPull(core.event, es[i].delivery.payload.value, n))
  {
    var id := es[i].delivery.id;
    AdmittedMarker(settings, ws[i].memory.value, ws[i].disk, es[i].delivery, es[i].now, es[i].outcome);
    var core := CoreOf(ws[i + 1].memory.value.deliveries[id]);
    forall k | i + 1 <= k < j ensures Kept(settings, es[k], (s: State) => Known(s, id, core)) {
      CoreKept(settings, es[k], id, core);
    }
    assert Everywhere(ws[i + 1], (s: State) => Known(s, id, core));
    EverywhereRun(settings, ws, es, i + 1, j, (s: State) => Known(s, id, core));
  }

  /** An acknowledged delivery that is pending stays so everywhere until some completion names it. One accepted is
      pending; one answered Duplicate may be, when the write of its admission had failed before. */
  lemma AcknowledgedStaysPending(settings: Settings, ws: seq<World>, es: seq<Event>, i: nat, j: nat)
    requires Run(settings, ws, es) && i < j <= |es| && es[i].Admit?
    requires
      || AdmitAnswer(settings, ws[i], es[i]) == Success(Accepted)
      || (AdmitAnswer(settings, ws[i], es[i]) == Success(Duplicate)
          && Pending(ws[i].memory.value, es[i].delivery.id))
    requires forall k :: i < k < j && es[k].Complete? ==> es[i].delivery.id !in es[k].ids
    ensures Everywhere(ws[j], (s: State) => Pending(s, es[i].delivery.id))
  {
    var id := es[i].delivery.id;
    forall k | i + 1 <= k < j ensures Kept(settings, es[k], (s: State) => Pending(s, id)) {
      PendingKept(settings, es[k], id);
    }
    assert Everywhere(ws[i + 1], (s: State) => Pending(s, id));
    EverywhereRun(settings, ws, es, i + 1, j, (s: State) => Pending(s, id));
  }

  /** A known delivery named by a successful completion is never pending again, in memory or on disk. */
  lemma CompletedStaysSettled(settings: Settings, ws: seq<World>, es: seq<Event>, i: nat, j: nat, id: string)
    requires Run(settings, ws, es) && i < j <= |es|
    requires es[i].Complete? && es[i].outcome == Written && id in es[i].ids && id in ws[i].memory.value.deliveries
    ensures Everywhere(ws[j], (s: State) => Settled(s, id))
  {
    forall k | i + 1 <= k < j ensures Kept(settings, es[k], (s: State) => Settled(s, id)) {
      SettledKept(settings, es[k], id);
    }
    assert Everywhere(ws[i + 1], (s: State) => Settled(s, id));
    EverywhereRun(settings, ws, es, i + 1, j, (s: State) => Settled(s, id));
  }

  /** A delivery is accepted once: later admissions of the same id answer Duplicate, or fail. */
  lemma AcceptedOnce(settings: Settings, ws: seq<World>, es: seq<Event>, i: nat, j: nat)
    requires Run(settings, ws, es) && i < j < |es| && es[i].Admit? && es[j].Admit?
    requires AdmitAnswer(settings, ws[i], es[i]) in {Success(Accepted), Success(Duplicate)}
    requires es[j].delivery.id == es[i].delivery.id
    ensures AdmitAnswer(settings, ws[j], es[j]) != Success(Accepted)
  {
    AcknowledgedIsDurable(settings, ws, es, i, j);
  }

  /** The state can be opened for this repository. */
  predicate Ours(settings: Settings, s: State) {
    s.version == 1 && s.repository == settings.repository
  }

  lemma {:induction false} MemoryIsOurs(settings: Settings, ws: seq<World>, es: seq<Event>, i: nat)
    requires Run(settings, ws, es) && i <= |es|
    ensures ws[i].memory.Some? ==> Ours(settings, ws[i].memory.value)
  {
    if i > 0 { MemoryIsOurs(settings, ws, es, i - 1); }
  }

  /** After any acknowledgement the state file can always be opened again, whatever happens in between. */
  lemma AcknowledgedReopens(settings: Settings, ws: seq<World>, es: seq<Event>, i: nat, j: nat)
    requires Run(settings, ws, es) && i < j < |es| && es[i].Admit? && es[j].Reopen?
    requires AdmitAnswer(settings, ws[i], es[i]) in {Success(Accepted), Success(Duplicate)}
    ensures ws[j + 1].memory.Some?
  {
    MemoryIsOurs(settings, ws, es, i + 1);
    assert Everywhere(ws[i + 1], (s: State) => Ours(settings, s));
    EverywhereRun(settings, ws, es, i + 1, j, (s: State) => Ours(settings, s));
  }

  /** Nothing is settled, in memory or in any exposed contents, unless a completion named it or it was settled
      in the contents the run began with. */
  ghost predicate NamedBy(es: seq<Event>, j: nat, id: string)
    requires j <= |es|
  {
    exists k :: 0 <= k < j && es[k].Complete? && id in es[k].ids
  }

  lemma {:induction false} SettledOnlyIfNamed(settings: Settings, ws: seq<World>, es: seq<Event>, j: nat, id: string)
    requires Run(settings, ws, es) && j <= |es|
    requires Untouched(ws[0], id) && !NamedBy(es, j, id)
    ensures Untouched(ws[j], id)
    decreases j
  {
    if j > 0 {
      assert forall k :: 0 <= k < j - 1 && es[k].Complete? ==> id !in es[k].ids;
      SettledOnlyIfNamed(settings, ws, es, j - 1, id);
      VisibleExposed(settings, ws, es, j - 1);
      assert !(es[j - 1].Complete? && id in es[j - 1].ids);
      UntouchedStep(settings, ws[j - 1], es[j - 1], id);
    }
  }

  ghost predicate Untouched(w: World, id: string) {
    && (w.memory.Some? ==> !Settled(w.memory.value, id))
    && forall c <- w.disk.exposed :: c.Stored? ==> !Settled(c.state, id)
  }

  lemma UntouchedStep(settings: Settings, w: World, e: Event, id: string)
    requires Enabled(w, e) && Untouched(w, id) && w.disk.visible in w.disk.exposed
    requires e.Complete? ==> id !in e.ids
    ensures Untouched(Step(settings, w, e), id)
  {
  }
}
