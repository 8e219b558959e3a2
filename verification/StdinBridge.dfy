/** The stdin bridge: a reader thread queues chunks of input, and `Read` hands them out through caller buffers. */
module StdinBridge {
  import opened Basics

  /** What the reader thread queues; an empty chunk is the end of input. */
  datatype Message = Chunk(bytes: seq<Byte>) | Failed

  datatype Outcome = Got(size: nat) | TimedOut | BrokenPipe | InputFailed

  /** What waiting for the next message ends in, when the caller has to wait. */
  datatype Wait = Arrives | Late | HungUp

  datatype State = State(pending: seq<Byte>, eof: bool, queue: seq<Message>)

  function Bytes(queue: seq<Message>): seq<Byte> {
    if queue == [] then []
    else (if queue[0].Chunk? then queue[0].bytes else []) + Bytes(queue[1..])
  }

  /** Everything sent that no read has returned yet. */
  function Left(s: State): seq<Byte> {
    s.pending + Bytes(s.queue)
  }

  /** The thread has nothing queued when it is found gone. */
  predicate Possible(s: State, wait: Wait) {
    match wait
    case Arrives => s.queue != []
    case Late => true
    case HungUp => s.queue == []
  }

  /** One read with room for `room` bytes: the new state, the outcome and the bytes delivered. */
  function Step(s: State, room: nat, wait: Wait): (State, Outcome, seq<Byte>)
    requires Possible(s, wait)
  {
    if s.eof then (s, Got(0), [])
    else if s.pending != [] then Take(s, room)
    else
      match wait
      case Late => (s, TimedOut, [])
      case HungUp => (s, BrokenPipe, [])
      case Arrives =>
        var rest := s.(queue := s.queue[1..]);
        match s.queue[0]
        case Failed => (rest, InputFailed, [])
        case Chunk(bytes) =>
          if bytes == [] then (rest.(eof := true), Got(0), []) else Take(rest.(pending := bytes), room)
  }

  function Take(s: State, room: nat): (State, Outcome, seq<Byte>) {
    var size := if room < |s.pending| then room else |s.pending|;
    (s.(pending := s.pending[size..]), Got(size), s.pending[..size])
  }

  lemma TakeConserves(s: State, room: nat)
    ensures Take(s, room).2 + Left(Take(s, room).0) == Left(s)
  {
    var size := if room < |s.pending| then room else |s.pending|;
    assert s.pending[..size] + s.pending[size..] == s.pending;
    Group2(s.pending[..size], s.pending[size..], Bytes(s.queue));
  }

  /** No read loses, repeats or reorders a byte, whatever its outcome. */
  lemma StepConserves(s: State, room: nat, wait: Wait)
    requires Possible(s, wait)
    ensures var (t, _, data) := Step(s, room, wait);
      data + Left(t) == Left(s) && (s.eof ==> t.eof)
  {
    JoinNothing(Left(s));
    if !s.eof && s.pending == [] && wait.Arrives? {
      JoinNothing(Bytes(s.queue));
      JoinNothing(Bytes(s.queue[1..]));
      if s.queue[0].Chunk? && s.queue[0].bytes != [] {
        TakeConserves(s.(pending := s.queue[0].bytes, queue := s.queue[1..]), room);
      }
    } else if !s.eof && s.pending != [] {
      TakeConserves(s, room);
    }
  }

  class Stdin {
    var queue: seq<Message>
    var pending: seq<Byte>
    var eof: bool

    ghost function Value(): State
      reads this
    {
      State(pending, eof, queue)
    }

    constructor (sent: seq<Message>)
      ensures Value() == State([], false, sent)
    {
      queue, pending, eof := sent, [], false;
    }

    /** Fills the front of the caller's buffer and leaves the rest of it alone. */
    method Read(buffer: array<Byte>, wait: Wait) returns (r: Outcome)
      requires Possible(Value(), wait)
      modifies this, buffer
      ensures r.Got? ==> r.size <= buffer.Length
      ensures (Value(), r, buffer[..if r.Got? then r.size else 0]) == Step(old(Value()), buffer.Length, wait)
      ensures forall i :: (if r.Got? then r.size else 0) <= i < buffer.Length ==> buffer[i] == old(buffer[i])
      // At the end of input nothing more is read, and nothing is waited for while bytes are pending.
      ensures old(eof) ==> r == Got(0) && Value() == old(Value())
      ensures !old(eof) && old(pending) == [] && wait == Late ==> r == TimedOut && Value() == old(Value())
      ensures !old(eof) && old(pending) == [] && wait == HungUp ==> r == BrokenPipe && Value() == old(Value())
      // Bytes come from what is pending, or else from the next message, which may also be the end or a failure.
      ensures !old(eof) && (old(pending) != [] || (wait == Arrives && old(queue)[0].Chunk?)) ==>
        var bytes := if old(pending) != [] then old(pending) else old(queue)[0].bytes;
        && r == Got(if buffer.Length < |bytes| then buffer.Length else |bytes|)
        && buffer[..r.size] == bytes[..r.size] && pending == bytes[r.size..] && (eof <==> bytes == [])
        && queue == if old(pending) != [] then old(queue) else old(queue)[1..]
      ensures !old(eof) && old(pending) == [] && wait == Arrives && old(queue)[0].Failed? ==>
        r == InputFailed && !eof && pending == [] && queue == old(queue)[1..]
    {
      if eof { return Got(0); }
      if pending == [] {
        match wait {
          case Late => return TimedOut;
          case HungUp => return BrokenPipe;
          case Arrives =>
            var message := queue[0];
            queue := queue[1..];
            if message.Failed? { return InputFailed; }
            pending := message.bytes;
            if pending == [] {
              eof := true;
              return Got(0);
            }
        }
      }
      var size := if buffer.Length < |pending| then buffer.Length else |pending|;
      var data := pending[..size];
      forall i | 0 <= i < size { buffer[i] := data[i]; }
      pending := pending[size..];
      assert buffer[..size] == data;
      return Got(size);
    }
  }

  // ---- Whole runs ----

  /** One call: the size of the caller's buffer and how its wait would end. */
  datatype Call = Call(room: nat, wait: Wait)

  ghost predicate Runs(s: State, calls: seq<Call>, t: State)
    decreases |calls|
  {
    if calls == [] then t == s
    else Possible(s, calls[0].wait) && Runs(Step(s, calls[0].room, calls[0].wait).0, calls[1..], t)
  }

  /** Everything a run of reads returned, in order. */
  ghost function Output(s: State, calls: seq<Call>, t: State): seq<Byte>
    requires Runs(s, calls, t)
    decreases |calls|
  {
    if calls == [] then []
    else
      var (next, _, data) := Step(s, calls[0].room, calls[0].wait);
      data + Output(next, calls[1..], t)
  }

  /** What the reads of a run returned, followed by what is left, is what was sent. */
  lemma {:induction false} RunConserves(s: State, calls: seq<Call>, t: State)
    requires Runs(s, calls, t)
    ensures Output(s, calls, t) + Left(t) == Left(s)
    ensures s.eof ==> t.eof
    decreases |calls|
  {
    JoinNothing(Left(s));
    if calls != [] {
      var (next, _, data) := Step(s, calls[0].room, calls[0].wait);
      StepConserves(s, calls[0].room, calls[0].wait);
      RunConserves(next, calls[1..], t);
      Group2(data, Output(next, calls[1..], t), Left(t));
    }
  }

  /** What the reader thread queues: it sends nothing after the end of input or a failure. */
  predicate Thread(queue: seq<Message>) {
    queue != [] ==> (queue[0] == Chunk([]) || queue[0].Failed? ==> queue[1..] == []) && Thread(queue[1..])
  }

  /** After the end of input nothing is left to return. */
  ghost predicate Drained(s: State) {
    Thread(s.queue) && (s.eof ==> s.pending == [] && s.queue == [])
  }

  lemma DrainedStep(s: State, room: nat, wait: Wait)
    requires Drained(s) && Possible(s, wait)
    ensures Drained(Step(s, room, wait).0)
  {
  }

  lemma {:induction false} DrainedRun(s: State, calls: seq<Call>, t: State)
    requires Drained(s) && Runs(s, calls, t)
    ensures Drained(t)
    decreases |calls|
  {
    if calls != [] {
      DrainedStep(s, calls[0].room, calls[0].wait);
      DrainedRun(Step(s, calls[0].room, calls[0].wait).0, calls[1..], t);
    }
  }

  /**
   Over every sequence of buffer sizes and timeouts the bytes returned are a prefix of the bytes sent, and all of
   them once the end of input has been seen.
   */
  lemma ReadsArePrefix(sent: seq<Message>, calls: seq<Call>, t: State)
    requires Thread(sent) && Runs(State([], false, sent), calls, t)
    ensures Output(State([], false, sent), calls, t) <= Bytes(sent)
    ensures t.eof ==> Output(State([], false, sent), calls, t) == Bytes(sent)
  {
    var s := State([], false, sent);
    RunConserves(s, calls, t);
    DrainedRun(s, calls, t);
    JoinNothing(Bytes(sent));
    JoinNothing(Output(s, calls, t));
  }

  /** A read with room reports no bytes only at the end of input, from then on for good. */
  lemma EmptyReadIsEnd(s: State, room: nat, wait: Wait)
    requires Possible(s, wait) && room > 0 && Step(s, room, wait).1 == Got(0)
    ensures Step(s, room, wait).0.eof
    ensures forall later, again :: Possible(Step(s, room, wait).0, again) ==>
      Step(Step(s, room, wait).0, later, again) == (Step(s, room, wait).0, Got(0), [])
  {
  }
}
