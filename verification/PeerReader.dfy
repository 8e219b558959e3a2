/**
 The concurrent peer reader as an interleaved step system: up to eight workers share an index counter, send
 results through a channel, and a receiver collects them until a deadline. Every run of every interleaving,
 with any clock behaviour, is covered.
 */
module PeerReader {
  import opened Basics

  const MAX_WORKERS: nat := 8

  datatype Config<K> = Config(hosts: seq<K>, deadline: nat)

  datatype Message<V> = Message(index: nat, value: V, finished: nat)

  /** Why a worker thread ended. */
  datatype Why = NoMoreHosts | PastDeadline | ReceiverGone | Panicked

  /** A worker thread by what it does next. */
  datatype Worker<V> =
    | Unborn
    | Top                              // about to take the next index
    | Claimed(index: nat)              // about to look at the clock
    | Reading(index: nat)              // inside the read
    | Read(index: nat, value: V)       // about to note the time
    | Ready(message: Message<V>)       // about to send
    | Gone(why: Why)

  datatype End = TimedOut | Disconnected | DeadlineSeen

  /** `Returned` has left the loop; its end of the channel may still be open for a moment. */
  datatype Receiver = Spawning(count: nat) | Waiting | Checking | Returned(end: End, at: nat, dropped: bool)

  /** Where a host's index has got to. Messages are numbered in the order they are sent. */
  datatype Fate = Untaken | With(worker: nat) | InChannel(number: nat) | Received | Lost(worker: nat)

  /** What happened to one host: how often it was read, what the reads returned, and the time noted after it. */
  datatype Slot<V> = Slot(fate: Fate, calls: nat, values: seq<V>, finished: Option<nat>)

  /** `slots` and `taken` (messages received so far) only record what happened; no step looks at them. */
  datatype State<V> = State(
    clock: nat, next: nat, workers: seq<Worker<V>>, channel: seq<Message<V>>, receiver: Receiver,
    results: seq<Option<V>>, slots: seq<Slot<V>>, taken: nat)

  function WorkerCount<K>(c: Config<K>): nat {
    if |c.hosts| < MAX_WORKERS then |c.hosts| else MAX_WORKERS
  }

  function Init<K, V>(c: Config<K>, now: nat): State<V> {
    State(now, 0, seq(WorkerCount(c), i => Unborn), [], Spawning(0), seq(|c.hosts|, i => None),
          seq(|c.hosts|, i => Slot(Untaken, 0, [], None)), 0)
  }

  // ---- Steps ----

  datatype Action<V> =
    | Tick(to: nat)
    | Spawn
    | StopSpawning
    | Take(w: nat)
    | LookAtClock(w: nat)
    | FinishRead(w: nat, v: V)
    | Panic(w: nat)
    | NoteTime(w: nat)
    | Send(w: nat)
    | Receive
    | Check
    | TimeOut
    | Disconnect
    | Drop

  predicate Holding<V>(s: State<V>, w: nat) {
    w < |s.workers| && Holds(s.workers[w]) && Index(s.workers[w]) < |s.slots|
  }

  /** The bounds on indices always hold (see `Inv`); they only make the steps well defined. */
  predicate Enabled<K, V>(c: Config<K>, s: State<V>, a: Action<V>) {
    match a
    case Tick(to) => s.clock <= to
    case Spawn => s.receiver.Spawning? && s.receiver.count < |s.workers|
    case StopSpawning => s.receiver == Spawning(|s.workers|)
    case Take(w) => w < |s.workers| && s.workers[w].Top?
    case LookAtClock(w) => Holding(s, w) && s.workers[w].Claimed?
    case FinishRead(w, _) => Holding(s, w) && s.workers[w].Reading?
    case Panic(w) => Holding(s, w) && s.workers[w].Reading?
    case NoteTime(w) => Holding(s, w) && s.workers[w].Read?
    case Send(w) => Holding(s, w) && s.workers[w].Ready?
    case Receive =>
      s.receiver.Waiting? && s.channel != [] && s.channel[0].index < |s.slots| && s.channel[0].index < |s.results|
    case Check => s.receiver.Checking?
    case TimeOut => s.receiver.Waiting? && c.deadline <= s.clock
    case Disconnect =>
      s.receiver.Waiting? && s.channel == [] && forall w :: 0 <= w < |s.workers| ==> s.workers[w].Gone?
    case Drop => s.receiver.Returned?
  }

  /** A worker that has taken an index. */
  predicate Holds<V>(w: Worker<V>) {
    w.Claimed? || w.Reading? || w.Read? || w.Ready?
  }

  function Index<V>(w: Worker<V>): nat
    requires Holds(w)
  {
    if w.Ready? then w.message.index else w.index
  }

  /** One worker moves on and one slot records it. */
  function Move<V>(s: State<V>, w: nat, to: Worker<V>, i: nat, slot: Slot<V>): State<V>
    requires w < |s.workers| && i < |s.slots|
  {
    s.(workers := s.workers[w := to], slots := s.slots[i := slot])
  }

  function Apply<K, V>(c: Config<K>, s: State<V>, a: Action<V>): State<V>
    requires Enabled(c, s, a) && |s.slots| == |c.hosts|
  {
    match a
    case Tick(to) => s.(clock := to)
    case Spawn => s.(workers := s.workers[s.receiver.count := Top], receiver := Spawning(s.receiver.count + 1))
    case StopSpawning => s.(receiver := Waiting)
    case Take(w) =>
      if s.next < |c.hosts| then
        Move(s, w, Claimed(s.next), s.next, s.slots[s.next].(fate := With(w))).(next := s.next + 1)
      else s.(workers := s.workers[w := Gone(NoMoreHosts)], next := s.next + 1)
    case LookAtClock(w) =>
      var i := s.workers[w].index;
      if c.deadline <= s.clock then Move(s, w, Gone(PastDeadline), i, s.slots[i].(fate := Lost(w)))
      else Move(s, w, Reading(i), i, s.slots[i].(calls := s.slots[i].calls + 1))
    case FinishRead(w, v) =>
      var i := s.workers[w].index;
      Move(s, w, Read(i, v), i, s.slots[i].(values := s.slots[i].values + [v]))
    case Panic(w) =>
      var i := s.workers[w].index;
      Move(s, w, Gone(Panicked), i, s.slots[i].(fate := Lost(w)))
    case NoteTime(w) =>
      var i := s.workers[w].index;
      Move(s, w, Ready(Message(i, s.workers[w].value, s.clock)), i, s.slots[i].(finished := Some(s.clock)))
    case Send(w) =>
      var m := s.workers[w].message;
      if s.receiver.Returned? && s.receiver.dropped then
        Move(s, w, Gone(ReceiverGone), m.index, s.slots[m.index].(fate := Lost(w)))
      else
        Move(s, w, Top, m.index, s.slots[m.index].(fate := InChannel(s.taken + |s.channel|)))
        .(channel := s.channel + [m])
    case Receive =>
      var m := s.channel[0];
      s.(channel := s.channel[1..], taken := s.taken + 1, receiver := Checking,
         results := if m.finished <= c.deadline then s.results[m.index := Some(m.value)] else s.results,
         slots := s.slots[m.index := s.slots[m.index].(fate := Received)])
    case Check => s.(receiver := if c.deadline <= s.clock then Returned(DeadlineSeen, s.clock, false) else Waiting)
    case TimeOut => s.(receiver := Returned(TimedOut, s.clock, false))
    case Disconnect => s.(receiver := Returned(Disconnected, s.clock, false))
    case Drop => s.(receiver := s.receiver.(dropped := true))
  }

  // ---- The invariant ----

  /** A message carries what its slot recorded. */
  predicate Carries<V(==)>(m: Message<V>, i: nat, slot: Slot<V>) {
    m.index == i && slot.calls == 1 && slot.values == [m.value] && slot.finished == Some(m.finished)
  }

  /** What a worker holding index `i` implies about its slot. */
  predicate Consistent<V(==)>(w: Worker<V>, i: nat, slot: Slot<V>) {
    match w
    case Claimed(j) => j == i && slot.calls == 0 && slot.values == []
    case Reading(j) => j == i && slot.calls == 1 && slot.values == []
    case Read(j, v) => j == i && slot.calls == 1 && slot.values == [v]
    case Ready(m) => Carries(m, i, slot)
    case _ => false
  }

  /** Everything known about one host, by where its index is. Only a received, timely message is in the results. */
  predicate SlotOk<K, V(==)>(c: Config<K>, s: State<V>, i: nat)
    requires i < |s.slots| && |s.results| == |s.slots|
  {
    var slot := s.slots[i];
    && |slot.values| <= slot.calls <= 1
    && (slot.finished.Some? ==> slot.finished.value <= s.clock)
    && (match slot.fate
        case Untaken => s.next <= i && slot.calls == 0
        case With(w) => i < s.next && w < |s.workers| && Consistent(s.workers[w], i, slot)
        case InChannel(n) =>
          i < s.next && s.taken <= n < s.taken + |s.channel| && Carries(s.channel[n - s.taken], i, slot)
        case Received => i < s.next && slot.calls == 1 && |slot.values| == 1 && slot.finished.Some?
        case Lost(w) => i < s.next && w < |s.workers| && s.workers[w].Gone? && !s.workers[w].why.NoMoreHosts?)
    && s.results[i] ==
      if slot.fate == Received && slot.finished.value <= c.deadline then Some(slot.values[0]) else None
  }

  /** What each worker's state says about the slots, the counter, the clock and the receiver. */
  predicate WorkerOk<K, V>(c: Config<K>, s: State<V>, w: nat)
    requires w < |s.workers|
  {
    && (s.receiver.Spawning? && s.receiver.count <= w ==> s.workers[w].Unborn?)
    && match s.workers[w]
    case Gone(NoMoreHosts) => |c.hosts| <= s.next
    case Gone(PastDeadline) => c.deadline <= s.clock
    case Gone(ReceiverGone) => s.receiver.Returned? && s.receiver.dropped
    case Gone(Panicked) => true
    case Unborn => s.receiver.Spawning? && s.receiver.count <= w
    case Top => true
    case held => Index(held) < |s.slots| && s.slots[Index(held)].fate == With(w)
  }

  predicate MessageOk<V>(s: State<V>, k: nat)
    requires k < |s.channel|
  {
    s.channel[k].index < |s.slots| && s.slots[s.channel[k].index].fate == InChannel(s.taken + k)
  }

  ghost predicate NoPanic<V>(s: State<V>) {
    forall w :: 0 <= w < |s.workers| ==> s.workers[w] != Gone(Panicked)
  }

  ghost predicate AllGone<V>(s: State<V>) {
    forall w :: 0 <= w < |s.workers| ==> s.workers[w].Gone?
  }

  ghost predicate AllCollected<V>(s: State<V>) {
    forall i :: 0 <= i < |s.results| ==> s.results[i].Some?
  }

  /** What the way the receiver ended says. */
  ghost predicate ReceiverOk<K, V>(c: Config<K>, s: State<V>) {
    match s.receiver
    case Spawning(n) => n <= |s.workers|
    case Returned(end, at, _) =>
      && at <= s.clock
      && if end.Disconnected?
         then AllGone(s) && (at < c.deadline && NoPanic(s) ==> AllCollected(s))
         else c.deadline <= at
    case _ => true
  }

  ghost predicate Inv<K, V>(c: Config<K>, s: State<V>) {
    && |s.workers| == WorkerCount(c) && |s.slots| == |c.hosts| && |s.results| == |c.hosts|
    && (forall i: nat :: i < |s.slots| ==> SlotOk(c, s, i))
    && (forall w: nat :: w < |s.workers| ==> WorkerOk(c, s, w))
    && (forall k: nat :: k < |s.channel| ==> MessageOk(s, k))
    && ReceiverOk(c, s)
  }

  lemma InitInv<K, V>(c: Config<K>, now: nat)
    ensures Inv(c, Init<K, V>(c, now))
  {
  }

  /** One step keeps the three pointwise parts; most steps touch one worker and one slot. */
  lemma PartsStep<K, V>(c: Config<K>, s: State<V>, a: Action<V>)
    requires Inv(c, s) && Enabled(c, s, a)
    ensures var t := Apply(c, s, a);
      && |t.workers| == WorkerCount(c) && |t.slots| == |c.hosts| && |t.results| == |c.hosts|
      && (forall i: nat :: i < |t.slots| ==> SlotOk(c, t, i))
      && (forall w: nat :: w < |t.workers| ==> WorkerOk(c, t, w))
      && (forall k: nat :: k < |t.channel| ==> MessageOk(t, k))
  {
    var t := Apply(c, s, a);
    forall i: nat | i < |t.slots| ensures SlotOk(c, t, i) { SlotStep(c, s, a, i); }
    forall w: nat | w < |t.workers| ensures WorkerOk(c, t, w) { WorkerStep(c, s, a, w); }
    forall k: nat | k < |t.channel| ensures MessageOk(t, k) { MessageStep(c, s, a, k); }
  }

  /** The worker an action belongs to. */
  predicate ByWorker<V>(a: Action<V>) {
    a.LookAtClock? || a.FinishRead? || a.Panic? || a.NoteTime? || a.Send?
  }

  lemma SlotStep<K, V>(c: Config<K>, s: State<V>, a: Action<V>, i: nat)
    requires Inv(c, s) && Enabled(c, s, a) && i < |s.slots|
    ensures SlotOk(c, Apply(c, s, a), i)
  {
    assert SlotOk(c, s, i);
    if ByWorker(a) {
      SlotByWorker(c, s, a, i);
    } else if a.Receive? {
      assert MessageOk(s, 0);
      SlotReceived(c, s, i);
    } else if a.Spawn? {
      assert WorkerOk(c, s, s.receiver.count);
      SlotSpawned(c, s, i);
    } else if a.Take? {
      SlotTaken(c, s, a.w, i);
    }
  }

  lemma SlotReceived<K, V>(c: Config<K>, s: State<V>, i: nat)
    requires |s.slots| == |c.hosts| == |s.results| && Enabled(c, s, Receive) && i < |s.slots|
    requires MessageOk(s, 0) && SlotOk(c, s, i)
    ensures SlotOk(c, Apply(c, s, Receive), i)
  {
  }

  lemma SlotSpawned<K, V>(c: Config<K>, s: State<V>, i: nat)
    requires |s.slots| == |c.hosts| == |s.results| && Enabled(c, s, Spawn) && i < |s.slots|
    requires WorkerOk(c, s, s.receiver.count) && SlotOk(c, s, i)
    ensures SlotOk(c, Apply(c, s, Spawn), i)
  {
  }

  lemma SlotTaken<K, V>(c: Config<K>, s: State<V>, w: nat, i: nat)
    requires |s.slots| == |c.hosts| == |s.results| && Enabled(c, s, Take(w)) && i < |s.slots|
    requires SlotOk(c, s, i)
    ensures SlotOk(c, Apply(c, s, Take(w)), i)
  {
  }

  lemma SlotByWorker<K, V>(c: Config<K>, s: State<V>, a: Action<V>, i: nat)
    requires Inv(c, s) && Enabled(c, s, a) && ByWorker(a) && i < |s.slots|
    ensures SlotOk(c, Apply(c, s, a), i)
  {
    assert WorkerOk(c, s, a.w);
    if i == Index(s.workers[a.w]) {
      SlotOwn(c, s, a);
    } else {
      SlotOther(c, s, a, i);
    }
  }

  lemma SlotOwn<K, V>(c: Config<K>, s: State<V>, a: Action<V>)
    requires |s.slots| == |c.hosts| == |s.results| && Enabled(c, s, a) && ByWorker(a)
    requires SlotOk(c, s, Index(s.workers[a.w])) && WorkerOk(c, s, a.w)
    ensures SlotOk(c, Apply(c, s, a), Index(s.workers[a.w]))
  {
  }

  lemma SlotOther<K, V>(c: Config<K>, s: State<V>, a: Action<V>, i: nat)
    requires |s.slots| == |c.hosts| == |s.results| && Enabled(c, s, a) && ByWorker(a)
    requires i < |s.slots| && i != Index(s.workers[a.w])
    requires SlotOk(c, s, i) && WorkerOk(c, s, a.w)
    ensures SlotOk(c, Apply(c, s, a), i)
  {
  }

  lemma WorkerStep<K, V>(c: Config<K>, s: State<V>, a: Action<V>, w: nat)
    requires Inv(c, s) && Enabled(c, s, a) && w < |s.workers|
    ensures WorkerOk(c, Apply(c, s, a), w)
  {
    assert WorkerOk(c, s, w);
    if ByWorker(a) {
      assert WorkerOk(c, s, a.w);
      WorkerByWorker(c, s, a, w);
    } else if a.Receive? {
      assert MessageOk(s, 0);
    } else if a.Take? && s.next < |s.slots| {
      assert SlotOk(c, s, s.next);
    }
  }

  lemma WorkerByWorker<K, V>(c: Config<K>, s: State<V>, a: Action<V>, w: nat)
    requires |s.slots| == |c.hosts| && Enabled(c, s, a) && ByWorker(a) && w < |s.workers|
    requires WorkerOk(c, s, w) && WorkerOk(c, s, a.w)
    ensures WorkerOk(c, Apply(c, s, a), w)
  {
  }

  lemma MessageStep<K, V>(c: Config<K>, s: State<V>, a: Action<V>, k: nat)
    requires Inv(c, s) && Enabled(c, s, a) && k < |Apply(c, s, a).channel|
    ensures MessageOk(Apply(c, s, a), k)
  {
    if k < |s.channel| { assert MessageOk(s, k); }
    if ByWorker(a) {
      assert WorkerOk(c, s, a.w);
    } else if a.Receive? {
      assert MessageOk(s, k + 1);
      assert MessageOk(s, 0);
    } else if a.Take? && s.next < |s.slots| {
      assert SlotOk(c, s, s.next);
    }
  }

  /** A disconnect before the deadline with no panicked worker finds every host's result collected. */
  lemma DisconnectIsComplete<K, V>(c: Config<K>, s: State<V>)
    requires Inv(c, s) && Enabled(c, s, Disconnect) && s.clock < c.deadline && NoPanic(s)
    ensures AllCollected(s)
  {
    forall w | 0 <= w < |s.workers| ensures s.workers[w] == Gone(NoMoreHosts) {
      assert WorkerOk(c, s, w);
    }
    forall i | 0 <= i < |s.results| ensures s.results[i].Some? {
      assert WorkerOk(c, s, 0) && SlotOk(c, s, i);
    }
  }

  lemma ReceiverStep<K, V>(c: Config<K>, s: State<V>, a: Action<V>)
    requires Inv(c, s) && Enabled(c, s, a)
    ensures ReceiverOk(c, Apply(c, s, a))
  {
    if a.Disconnect? && s.clock < c.deadline && NoPanic(s) {
      DisconnectIsComplete(c, s);
    }
  }

  lemma InvStep<K, V>(c: Config<K>, s: State<V>, a: Action<V>)
    requires Inv(c, s) && Enabled(c, s, a)
    ensures Inv(c, Apply(c, s, a))
  {
    PartsStep(c, s, a);
    ReceiverStep(c, s, a);
  }

  // ---- Runs ----

  /** `actions` is a run from `s` to `t`. */
  ghost predicate Run<K, V(!new)>(c: Config<K>, s: State<V>, actions: seq<Action<V>>, t: State<V>)
    decreases |actions|
  {
    if actions == [] then t == s
    else |s.slots| == |c.hosts| && Enabled(c, s, actions[0]) && Run(c, Apply(c, s, actions[0]), actions[1..], t)
  }

  /** Whether a step starts a read of host `i`: a worker that took `i` sees time left. */
  predicate Begins<K, V(==)>(c: Config<K>, s: State<V>, a: Action<V>, i: nat)
    requires Enabled(c, s, a)
  {
    a.LookAtClock? && s.workers[a.w] == Claimed(i) && s.clock < c.deadline
  }

  /** Whether in a step a read of host `i` returns. */
  predicate Yields<K, V(==)>(c: Config<K>, s: State<V>, a: Action<V>, i: nat)
    requires Enabled(c, s, a)
  {
    a.FinishRead? && s.workers[a.w] == Reading(i)
  }

  lemma StepRecord<K, V>(c: Config<K>, s: State<V>, a: Action<V>, i: nat)
    requires Enabled(c, s, a) && |s.slots| == |c.hosts| && i < |c.hosts|
    ensures |Apply(c, s, a).slots| == |c.hosts|
    ensures Apply(c, s, a).slots[i].calls == s.slots[i].calls + if Begins(c, s, a, i) then 1 else 0
    ensures Apply(c, s, a).slots[i].values == s.slots[i].values + if Yields(c, s, a, i) then [a.v] else []
  {
  }

  /** How many reads of host `i` start during a run. */
  ghost function Starts<K, V(!new)>(c: Config<K>, s: State<V>, actions: seq<Action<V>>, t: State<V>, i: nat): nat
    requires Run(c, s, actions, t)
    decreases |actions|
  {
    if actions == [] then 0
    else
      var a := actions[0];
      (if Begins(c, s, a, i) then 1 else 0)
      + Starts(c, Apply(c, s, a), actions[1..], t, i)
  }

  /** What the reads of host `i` return during a run. */
  ghost function Values<K, V(!new)>(c: Config<K>, s: State<V>, actions: seq<Action<V>>, t: State<V>, i: nat): seq<V>
    requires Run(c, s, actions, t)
    decreases |actions|
  {
    if actions == [] then []
    else
      var a := actions[0];
      (if Yields(c, s, a, i) then [a.v] else [])
      + Values(c, Apply(c, s, a), actions[1..], t, i)
  }

  lemma {:induction false} InvRun<K, V(!new)>(c: Config<K>, s: State<V>, actions: seq<Action<V>>, t: State<V>)
    requires Inv(c, s) && Run(c, s, actions, t)
    ensures Inv(c, t)
    decreases |actions|
  {
    if actions != [] {
      InvStep(c, s, actions[0]);
      InvRun(c, Apply(c, s, actions[0]), actions[1..], t);
    }
  }

  /** The slots record exactly the reads of the run. */
  lemma {:induction false} SlotsRecord<K, V(!new)>(
    c: Config<K>, s: State<V>, actions: seq<Action<V>>, t: State<V>, i: nat)
    requires Run(c, s, actions, t) && |s.slots| == |c.hosts| && i < |c.hosts|
    ensures |t.slots| == |c.hosts|
    ensures t.slots[i].calls == s.slots[i].calls + Starts(c, s, actions, t, i)
    ensures t.slots[i].values == s.slots[i].values + Values(c, s, actions, t, i)
    decreases |actions|
  {
    if actions != [] {
      StepRecord(c, s, actions[0], i);
      SlotsRecord(c, Apply(c, s, actions[0]), actions[1..], t, i);
    }
  }

  /**
   Every run: each host is read at most once, and a result is the one value read for that host, noted as
   finished by the deadline.
   */
  lemma ReadsAtMostOnce<K, V(!new)>(c: Config<K>, now: nat, actions: seq<Action<V>>, t: State<V>, i: nat)
    requires Run(c, Init(c, now), actions, t) && i < |c.hosts|
    ensures |t.results| == |t.slots| == |c.hosts|
    ensures Starts(c, Init(c, now), actions, t, i) <= 1
    ensures t.results[i].Some? ==> Values(c, Init(c, now), actions, t, i) == [t.results[i].value]
    ensures t.results[i].Some? ==> t.slots[i].finished.Some? && t.slots[i].finished.value <= c.deadline
  {
    InitInv<K, V>(c, now);
    InvRun(c, Init(c, now), actions, t);
    SlotsRecord(c, Init(c, now), actions, t, i);
    assert SlotOk(c, t, i);
  }

  /** No two workers ever hold the same index, and an index in the channel or received is with no worker. */
  lemma ClaimedOnce<K, V(!new)>(c: Config<K>, now: nat, actions: seq<Action<V>>, t: State<V>, v: nat, w: nat)
    requires Run(c, Init(c, now), actions, t) && Holding(t, v) && Holding(t, w)
    ensures Index(t.workers[v]) == Index(t.workers[w]) ==> v == w
    ensures forall k :: 0 <= k < |t.channel| ==> t.channel[k].index != Index(t.workers[w])
    ensures Index(t.workers[w]) < |t.results| && t.results[Index(t.workers[w])] == None
  {
    InitInv<K, V>(c, now);
    InvRun(c, Init(c, now), actions, t);
    assert WorkerOk(c, t, v) && WorkerOk(c, t, w);
    assert SlotOk(c, t, Index(t.workers[w]));
    forall k | 0 <= k < |t.channel| ensures t.channel[k].index != Index(t.workers[w]) {
      assert MessageOk(t, k);
    }
  }

  /** Returning before the deadline, with no read having panicked, means every host has a value. */
  lemma EarlyReturnIsComplete<K, V(!new)>(c: Config<K>, now: nat, actions: seq<Action<V>>, t: State<V>)
    requires Run(c, Init(c, now), actions, t)
    requires t.receiver.Returned? && t.receiver.at < c.deadline && NoPanic(t)
    ensures |t.results| == |c.hosts| && AllCollected(t)
  {
    InitInv<K, V>(c, now);
    InvRun(c, Init(c, now), actions, t);
  }

  /** Once the receiver has returned, nothing a worker does changes the results. */
  lemma {:induction false} ReturnedIsFinal<K, V(!new)>(c: Config<K>, s: State<V>, actions: seq<Action<V>>, t: State<V>)
    requires Run(c, s, actions, t) && s.receiver.Returned?
    ensures t.results == s.results && t.receiver.Returned? && t.receiver.at == s.receiver.at
    decreases |actions|
  {
    if actions != [] {
      ReturnedIsFinal(c, Apply(c, s, actions[0]), actions[1..], t);
    }
  }

  /** Past the deadline no read starts. */
  lemma {:induction false} NoReadAfterDeadline<K, V(!new)>(
    c: Config<K>, s: State<V>, actions: seq<Action<V>>, t: State<V>, i: nat)
    requires Run(c, s, actions, t) && c.deadline <= s.clock
    ensures Starts(c, s, actions, t, i) == 0
    decreases |actions|
  {
    if actions != [] {
      NoReadAfterDeadline(c, Apply(c, s, actions[0]), actions[1..], t, i);
    }
  }

  predicate ByReceiver<V>(a: Action<V>) {
    a.Receive? || a.Check? || a.TimeOut? || a.Disconnect?
  }

  function ReceiverSteps<V>(actions: seq<Action<V>>): nat {
    if actions == [] then 0
    else (if ByReceiver(actions[0]) then 1 else 0) + ReceiverSteps(actions[1..])
  }

  /** Steps the receiver can still take once the deadline has passed. */
  function Left(r: Receiver): nat {
    match r
    case Waiting => 2
    case Checking => 1
    case _ => 0
  }

  /**
   Past the deadline the receiver never waits for a worker: while it has not returned it has a step of its own
   to take, and it returns after at most two of them whatever the workers do.
   */
  lemma {:induction false} DeadlineEndsReceiver<K, V(!new)>(
    c: Config<K>, s: State<V>, actions: seq<Action<V>>, t: State<V>)
    requires Run(c, s, actions, t) && c.deadline <= s.clock && !s.receiver.Spawning?
    ensures ReceiverSteps(actions) + Left(t.receiver) <= Left(s.receiver)
    ensures t.receiver.Waiting? ==> Enabled(c, t, TimeOut)
    ensures t.receiver.Checking? ==> Enabled(c, t, Check)
    ensures Left(t.receiver) == 0 ==> t.receiver.Returned?
    decreases |actions|
  {
    if actions != [] {
      DeadlineEndsReceiver(c, Apply(c, s, actions[0]), actions[1..], t);
    }
  }

  // ---- What the reader can do ----

  /** In every run there are as many workers as hosts, but never more than eight. */
  lemma WorkersExactly<K, V(!new)>(c: Config<K>, now: nat, actions: seq<Action<V>>, t: State<V>)
    requires Run(c, Init(c, now), actions, t)
    ensures |t.workers| <= 8 && |t.workers| <= |c.hosts| && (|t.workers| == 8 || |t.workers| == |c.hosts|)
  {
    InitInv<K, V>(c, now);
    InvRun(c, Init(c, now), actions, t);
  }

  lemma RunOne<K, V(!new)>(c: Config<K>, s: State<V>, a: Action<V>)
    requires |s.slots| == |c.hosts| && Enabled(c, s, a)
    ensures Run(c, s, [a], Apply(c, s, a))
  {
    assert [a][1..] == [];
  }

  lemma {:induction false} RunJoin<K, V(!new)>(
    c: Config<K>, s: State<V>, a: seq<Action<V>>, t: State<V>, b: seq<Action<V>>, u: State<V>)
    requires Run(c, s, a, t) && Run(c, t, b, u)
    ensures Run(c, s, a + b, u)
    decreases |a|
  {
    if a == [] {
      JoinNothing(b);
    } else {
      TailJoin(a, b);
      RunJoin(c, Apply(c, s, a[0]), a[1..], t, b, u);
    }
  }

  lemma RunMore<K, V(!new)>(c: Config<K>, s: State<V>, a: seq<Action<V>>, t: State<V>, x: Action<V>)
    requires Run(c, s, a, t) && |t.slots| == |c.hosts| && Enabled(c, t, x)
    ensures Run(c, s, a + [x], Apply(c, t, x))
  {
    RunOne(c, t, x);
    RunJoin(c, s, a, t, [x], Apply(c, t, x));
  }

  /** Time is left, the receiver waits with nothing to receive, and worker `w` is free. */
  predicate Idle<K, V>(c: Config<K>, s: State<V>, w: nat) {
    && |s.slots| == |c.hosts| && |s.results| == |c.hosts| && s.clock < c.deadline
    && s.receiver == Waiting && s.channel == [] && w < |s.workers| && s.workers[w].Top?
  }

  /** The worker's part: it takes the next host, sees time left, reads, notes the time and sends. */
  lemma WorkerSends<K, V(!new)>(c: Config<K>, s: State<V>, w: nat, v: V) returns (actions: seq<Action<V>>, t: State<V>)
    requires Idle(c, s, w) && s.next < |c.hosts|
    ensures Run(c, s, actions, t) && t.channel == [Message(s.next, v, s.clock)] && t.receiver == Waiting
    ensures t.next == s.next + 1 && t.workers == s.workers && t.clock == s.clock && t.results == s.results
    ensures |t.slots| == |c.hosts|
  {
    actions, t := [], s;
    RunMore(c, s, actions, t, Take(w));
    actions, t := actions + [Take(w)], Apply(c, t, Take(w));
    RunMore(c, s, actions, t, LookAtClock(w));
    actions, t := actions + [LookAtClock(w)], Apply(c, t, LookAtClock(w));
    RunMore(c, s, actions, t, FinishRead(w, v));
    actions, t := actions + [FinishRead(w, v)], Apply(c, t, FinishRead(w, v));
    RunMore(c, s, actions, t, NoteTime(w));
    actions, t := actions + [NoteTime(w)], Apply(c, t, NoteTime(w));
    RunMore(c, s, actions, t, Send(w));
    actions, t := actions + [Send(w)], Apply(c, t, Send(w));
    assert t.workers == s.workers;
  }

  /** One host read and collected, whatever it returns. */
  lemma OneHost<K, V(!new)>(c: Config<K>, s: State<V>, w: nat, v: V) returns (actions: seq<Action<V>>, t: State<V>)
    requires Idle(c, s, w) && s.next < |c.hosts|
    ensures Run(c, s, actions, t) && Idle(c, t, w)
    ensures t.next == s.next + 1 && t.results == s.results[s.next := Some(v)]
  {
    actions, t := WorkerSends(c, s, w, v);
    RunMore(c, s, actions, t, Receive);
    actions, t := actions + [Receive], Apply(c, t, Receive);
    RunMore(c, s, actions, t, Check);
    actions, t := actions + [Check], Apply(c, t, Check);
  }

  lemma {:induction false} AllHosts<K, V(!new)>(c: Config<K>, s: State<V>, w: nat, values: seq<V>)
    returns (actions: seq<Action<V>>, t: State<V>)
    requires Idle(c, s, w) && s.next <= |c.hosts| == |values|
    requires forall i :: 0 <= i < s.next ==> s.results[i] == Some(values[i])
    ensures Run(c, s, actions, t) && Idle(c, t, w)
    ensures forall i :: 0 <= i < |values| ==> t.results[i] == Some(values[i])
    decreases |c.hosts| - s.next
  {
    if s.next == |c.hosts| {
      actions, t := [], s;
    } else {
      var first, u := OneHost(c, s, w, values[s.next]);
      var rest;
      rest, t := AllHosts(c, u, w, values);
      RunJoin(c, s, first, u, rest, t);
      actions := first + rest;
    }
  }

  /** The receiver starts every worker and then waits. */
  lemma {:induction false} SpawnAll<K, V(!new)>(c: Config<K>, s: State<V>)
    returns (actions: seq<Action<V>>, t: State<V>)
    requires |s.slots| == |c.hosts| && s.receiver.Spawning? && s.receiver.count <= |s.workers|
    requires forall w :: 0 <= w < s.receiver.count ==> s.workers[w].Top?
    ensures Run(c, s, actions, t) && t == s.(workers := t.workers, receiver := Waiting)
    ensures |t.workers| == |s.workers| && forall w :: 0 <= w < |t.workers| ==> t.workers[w].Top?
    decreases |s.workers| - s.receiver.count
  {
    if s.receiver.count == |s.workers| {
      RunOne(c, s, StopSpawning);
      actions, t := [StopSpawning], Apply(c, s, StopSpawning);
    } else {
      var u := Apply(c, s, Spawn);
      RunOne(c, s, Spawn);
      var rest;
      rest, t := SpawnAll(c, u);
      RunJoin(c, s, [Spawn], u, rest, t);
      actions := [Spawn] + rest;
    }
  }

  /** Whatever the hosts return, there is a run that collects all of it before the deadline. */
  lemma CanComplete<K, V(!new)>(c: Config<K>, now: nat, values: seq<V>) returns (actions: seq<Action<V>>, t: State<V>)
    requires c.hosts != [] && |values| == |c.hosts| && now < c.deadline
    ensures Run(c, Init(c, now), actions, t) && |t.results| == |values| && t.clock < c.deadline
    ensures forall i :: 0 <= i < |values| ==> t.results[i] == Some(values[i])
  {
    var start: State<V> := Init(c, now);
    var first, u := SpawnAll(c, start);
    var rest;
    rest, t := AllHosts(c, u, 0, values);
    RunJoin(c, start, first, u, rest, t);
    actions := first + rest;
  }

  /** When time passes the deadline a waiting receiver can return, at that time and not because all workers are gone. */
  lemma TimesOut<K, V(!new)>(c: Config<K>, s: State<V>, to: nat) returns (t: State<V>)
    requires |s.slots| == |c.hosts| && s.receiver.Waiting? && s.clock <= to && c.deadline <= to
    ensures Run(c, s, [Tick(to)] + [TimeOut], t) && t.receiver == Returned(TimedOut, to, false)
    ensures t.results == s.results
  {
    var u := Apply(c, s, Tick(to));
    t := Apply(c, u, TimeOut);
    RunOne(c, s, Tick(to));
    RunOne(c, u, TimeOut);
    RunJoin(c, s, [Tick(to)], u, [TimeOut], t);
  }

  /** A worker that sends after the receiver is gone ends there, and its message goes nowhere. */
  lemma LateSender<K, V(!new)>(c: Config<K>, s: State<V>, w: nat) returns (t: State<V>)
    requires |s.slots| == |c.hosts| && s.receiver.Returned? && Enabled(c, s, Send(w))
    ensures Run(c, s, [Drop] + [Send(w)], t)
    ensures t.workers == s.workers[w := Gone(ReceiverGone)] && t.channel == s.channel && t.results == s.results
  {
    var u := Apply(c, s, Drop);
    t := Apply(c, u, Send(w));
    RunOne(c, s, Drop);
    RunOne(c, u, Send(w));
    RunJoin(c, s, [Drop], u, [Send(w)], t);
  }
}
