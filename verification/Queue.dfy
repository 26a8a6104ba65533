/** The per-session packet queue: bounded, and dropping the oldest packet when full. */
module Queue {

  /** The queue with its whole history: everything accepted, and which of it was handed out. */
  datatype State<T> = State(packets: seq<T>, closed: bool, dropped: nat, accepted: seq<T>, taken: seq<nat>)

  datatype Op<T> = Enqueue(x: T) | Dequeue | Close

  function Start<T>(): State<T> {
    State([], false, 0, [], [])
  }

  /** A dequeuer waits until there is a packet or the queue is closed. */
  predicate Enabled<T>(s: State<T>, op: Op<T>) {
    op.Dequeue? ==> s.packets != [] || s.closed
  }

  /** The position in the history of the packet at the head. */
  function Cursor<T>(s: State<T>): nat {
    |s.taken| + s.dropped
  }

  function Step<T>(cap: nat, s: State<T>, op: Op<T>): State<T>
    requires Enabled(s, op) && cap > 0
  {
    match op
    case Enqueue(x) =>
      if s.closed then s
      else if |s.packets| >= cap then
        s.(packets := s.packets[1..] + [x], dropped := s.dropped + 1, accepted := s.accepted + [x])
      else s.(packets := s.packets + [x], accepted := s.accepted + [x])
    case Dequeue =>
      if s.closed then s
      else s.(packets := s.packets[1..], taken := s.taken + [Cursor(s)])
    case Close =>
      if s.closed then s else s.(packets := [], closed := true)
  }

  ghost predicate Feasible<T>(cap: nat, ops: seq<Op<T>>)
    requires cap > 0
    decreases |ops|, 0
  {
    ops != [] ==> Feasible(cap, ops[..|ops| - 1]) && Enabled(Run(cap, ops[..|ops| - 1]), ops[|ops| - 1])
  }

  function Run<T>(cap: nat, ops: seq<Op<T>>): State<T>
    requires cap > 0 && Feasible(cap, ops)
    decreases |ops|, 1
  {
    if ops == [] then Start() else Step(cap, Run(cap, ops[..|ops| - 1]), ops[|ops| - 1])
  }

  /** What the queue holds and has handed out, in terms of what it accepted. */
  ghost predicate Refines<T>(cap: nat, s: State<T>) {
    && Cursor(s) <= |s.accepted|
    && |s.packets| <= cap
    && (!s.closed ==> s.packets == s.accepted[Cursor(s)..])
    && (s.closed ==> s.packets == [])
    && (forall i :: 0 <= i < |s.taken| ==> s.taken[i] < Cursor(s))
    && (forall i, j :: 0 <= i < j < |s.taken| ==> s.taken[i] < s.taken[j])
  }

  lemma StepRefines<T>(cap: nat, s: State<T>, op: Op<T>)
    requires cap > 0 && Enabled(s, op) && Refines(cap, s)
    ensures Refines(cap, Step(cap, s, op))
  {
    var c := Cursor(s);
    if !s.closed && op.Enqueue? {
      assert s.accepted[c..] + [op.x] == (s.accepted + [op.x])[c..];
      if |s.packets| >= cap {
        assert (s.accepted + [op.x])[c..][1..] == (s.accepted + [op.x])[c + 1..];
        assert s.packets[1..] + [op.x] == (s.packets + [op.x])[1..];
      }
    } else if !s.closed && op.Dequeue? {
      assert s.accepted[c..][1..] == s.accepted[c + 1..];
    }
  }

  /** A packet is dropped only by a packet that finds the queue full, and the
      newest packet is never the one dropped. */
  lemma DropsOldestWhenFull<T>(cap: nat, s: State<T>, x: T)
    requires cap > 0 && Refines(cap, s) && !s.closed
    ensures var r := Step(cap, s, Enqueue(x)); var lost := if |s.packets| == cap then 1 else 0;
      && r.packets == (s.packets + [x])[lost..] && r.packets != [] && r.packets[|r.packets| - 1] == x
      && r.dropped == s.dropped + lost && r.accepted == s.accepted + [x]
  {
    assert s.packets != [] ==> s.packets[1..] + [x] == (s.packets + [x])[1..];
  }

  /** Over every run: until close the contents are the accepted history after a
      cursor equal to taken + dropped, never longer than the capacity, and
      packets leave in acceptance order without repetition. */
  lemma {:induction false} RunRefines<T>(cap: nat, ops: seq<Op<T>>)
    requires cap > 0 && Feasible(cap, ops)
    ensures Refines(cap, Run(cap, ops))
  {
    if ops == [] {
    } else {
      RunRefines(cap, ops[..|ops| - 1]);
      StepRefines(cap, Run(cap, ops[..|ops| - 1]), ops[|ops| - 1]);
    }
  }

  /** The packet handed out next is the one the history names. */
  lemma HeadIsNext<T>(cap: nat, ops: seq<Op<T>>)
    requires cap > 0 && Feasible(cap, ops) && Run(cap, ops).packets != []
    ensures var s := Run(cap, ops); Cursor(s) < |s.accepted| && s.packets[0] == s.accepted[Cursor(s)]
  {
    RunRefines(cap, ops);
  }

  /** Conservation: until close, accepted = dequeued + dropped + queued. */
  lemma Conservation<T>(cap: nat, ops: seq<Op<T>>)
    requires cap > 0 && Feasible(cap, ops) && !Run(cap, ops).closed
    ensures var s := Run(cap, ops); |s.accepted| == |s.taken| + s.dropped + |s.packets|
  {
    RunRefines(cap, ops);
  }

  /** Close discards exactly what was queued, and nothing is accepted or handed out afterwards. */
  lemma {:induction false} AfterClose<T>(cap: nat, ops: seq<Op<T>>, more: seq<Op<T>>)
    requires cap > 0 && Feasible(cap, ops + [Close] + more)
    ensures Feasible(cap, ops) && Feasible(cap, ops + [Close] + more)
    ensures Run(cap, ops + [Close] + more) == Run(cap, ops).(packets := [], closed := true)
    decreases |more|
  {
    var all := ops + [Close] + more;
    if more == [] {
      assert all == ops + [Close];
      assert all[..|all| - 1] == ops;
      RunRefines(cap, ops);
    } else {
      assert all[..|all| - 1] == ops + [Close] + more[..|more| - 1];
      AfterClose(cap, ops, more[..|more| - 1]);
    }
  }

  /** Everything dequeuers were handed, in order. */
  function Handed<T>(cap: nat, ops: seq<Op<T>>): seq<T>
    requires cap > 0 && Feasible(cap, ops)
  {
    if ops == [] then []
    else
      var s := Run(cap, ops[..|ops| - 1]);
      Handed(cap, ops[..|ops| - 1]) + if ops[|ops| - 1].Dequeue? && !s.closed then [s.packets[0]] else []
  }

  lemma AcceptedGrows<T>(cap: nat, s: State<T>, op: Op<T>)
    requires cap > 0 && Enabled(s, op)
    ensures s.accepted <= Step(cap, s, op).accepted && s.taken <= Step(cap, s, op).taken
  {
  }

  /** What was handed out are the accepted packets at the places taken. */
  lemma {:induction false} HandedIsTaken<T>(cap: nat, ops: seq<Op<T>>)
    requires cap > 0 && Feasible(cap, ops)
    ensures var s := Run(cap, ops);
      |Handed(cap, ops)| == |s.taken|
      && forall i :: 0 <= i < |s.taken| ==> s.taken[i] < |s.accepted| && Handed(cap, ops)[i] == s.accepted[s.taken[i]]
  {
    if ops == [] {
    } else {
      var front, op := ops[..|ops| - 1], ops[|ops| - 1];
      HandedIsTaken(cap, front);
      RunRefines(cap, front);
      AcceptedGrows(cap, Run(cap, front), op);
      if op.Dequeue? && !Run(cap, front).closed { HeadIsNext(cap, front); }
    }
  }

  /** A dequeuer must wait, finds the queue closed, or gets a packet. */
  datatype Look<T> = Wait | IsClosed | Got(x: T)

  class PacketQueue<T> {
    var packets: seq<T>
    const maxSize: nat
    var closed: bool
    var droppedCount: nat
    ghost var accepted: seq<T>
    ghost var taken: seq<nat>

    ghost function Value(): State<T>
      reads this
    {
      State(packets, closed, droppedCount, accepted, taken)
    }

    constructor (maxSize: int)
      ensures Value() == Start() && this.maxSize > 0
      ensures this.maxSize == if maxSize < 1 then 1 else maxSize
    {
      this.maxSize := if maxSize < 1 then 1 else maxSize;
      packets, closed, droppedCount := [], false, 0;
      accepted, taken := [], [];
    }

    /** False is the queue-closed error. */
    method Enqueue(pkt: T) returns (ok: bool)
      requires maxSize > 0
      modifies this
      ensures ok == !old(closed)
      ensures Value() == Step(maxSize, old(Value()), Op.Enqueue(pkt))
    {
      if closed {
        return false;
      }
      if |packets| >= maxSize {
        packets := packets[1..];
        droppedCount := droppedCount + 1;
      }
      packets := packets + [pkt];
      accepted := accepted + [pkt];
      ok := true;
    }

    /** What a dequeuer finds when it holds the lock. It waits exactly while
        there is neither a packet nor close, and looks again when woken. */
    method Dequeue() returns (r: Look<T>)
      requires maxSize > 0
      modifies this
      ensures r.Wait? <==> !Enabled(old(Value()), Op.Dequeue)
      ensures Value() == if r.Wait? then old(Value()) else Step(maxSize, old(Value()), Op.Dequeue)
      ensures !r.Wait? ==> r == if old(closed) then IsClosed else Got(old(packets)[0])
    {
      if |packets| == 0 && !closed {
        return Wait;
      }
      if closed {
        return IsClosed;
      }
      r := Got(packets[0]);
      taken := taken + [Cursor(Value())];
      packets := packets[1..];
    }

    method Close()
      requires maxSize > 0
      modifies this
      ensures Value() == Step(maxSize, old(Value()), Op.Close)
    {
      if closed {
        return;
      }
      closed := true;
      packets := [];
    }
  }
}
