/** From the session's queue to the receiver's multicast socket. */
module Bridge {
  import opened Words
  import opened Sender
  import opened SenderLog
  import opened EndToEnd
  import opened Conservation
  import opened Wraparound
  import Q = Queue
  import RO = ReleaseOrder

  function Payloads(items: seq<Item>): (ps: seq<Bytes>)
    ensures |ps| == |items|
  {
    seq(|items|, i requires 0 <= i < |items| => items[i].payload)
  }

  /** The worker has handled a first part of what the queue handed out. */
  ghost predicate Fed(cap: nat, ops: seq<Q.Op<Bytes>>, items: seq<Item>)
    requires cap > 0
  {
    Q.Feasible(cap, ops) && Payloads(items) <= Q.Handed(cap, ops)
  }

  /** Whatever the receiver emits was accepted by the session's queue, if no
      arrival is decoded with packets of another group. */
  lemma {:induction false} EmittedWasAccepted(cap: nat, ops: seq<Q.Op<Bytes>>, c: Config, items: seq<Item>, timeout: int,
                                              evs: seq<Event>, p: Bytes)
    requires cap > 0 && Fed(cap, ops, items) && GoodRun(c, items)
    requires var s := Setting(c, SendAll(c, items), timeout);
      OnWire(s, evs) && NeverCrosses(s, evs) && p in EmittedAll(s, evs)
    ensures p in Q.Run(cap, ops).accepted
  {
    UncrossedRunIsSound(c, items, timeout, evs, p);
    var i :| 0 <= i < |items| && items[i].payload == p;
    assert Payloads(items)[i] == p;
    Q.HandedIsTaken(cap, ops);
    assert Q.Handed(cap, ops)[i] == p;
  }

  /** In particular while groups with one number arrive more than the timeout apart. */
  lemma {:induction false} SpacedEmitsAccepted(cap: nat, ops: seq<Q.Op<Bytes>>, c: Config, items: seq<Item>, timeout: int,
                                               evs: seq<Event>, p: Bytes)
    requires cap > 0 && Fed(cap, ops, items) && GoodRun(c, items)
    requires var s := Setting(c, SendAll(c, items), timeout); Channel(s, evs) && p in EmittedAll(s, evs)
    ensures p in Q.Run(cap, ops).accepted
  {
    SpacedNeverCrosses(Setting(c, SendAll(c, items), timeout), evs);
    EmittedWasAccepted(cap, ops, c, items, timeout, evs, p);
  }

  // ---- Everything accepted, exactly once -------------------------------------

  /** Nothing was dropped, nothing waits, and the worker is done. */
  ghost predicate Drained(cap: nat, ops: seq<Q.Op<Bytes>>, items: seq<Item>)
    requires cap > 0
  {
    && Q.Feasible(cap, ops) && Payloads(items) == Q.Handed(cap, ops)
    && var q := Q.Run(cap, ops); !q.closed && q.dropped == 0 && q.packets == []
  }

  lemma BelowItself(s: seq<nat>, i: nat)
    requires RO.Increasing(s) && i < |s| && forall t :: 0 <= t < |s| ==> s[t] < |s|
    ensures s[i] == i
    decreases |s| - i
  {
    RO.IncreasingAtLeast(s, i);
    if i == |s| - 1 {
    } else {
      BelowItself(s, i + 1);
    }
  }

  lemma DrainedHandsAll(cap: nat, ops: seq<Q.Op<Bytes>>)
    requires cap > 0 && Q.Feasible(cap, ops)
    requires var q := Q.Run(cap, ops); !q.closed && q.dropped == 0 && q.packets == []
    ensures Q.Handed(cap, ops) == Q.Run(cap, ops).accepted
  {
    var q := Q.Run(cap, ops);
    Q.RunRefines(cap, ops);
    Q.Conservation(cap, ops);
    Q.HandedIsTaken(cap, ops);
    forall i | 0 <= i < |q.taken|
      ensures q.taken[i] == i
    {
      BelowItself(q.taken, i);
    }
  }

  lemma {:induction false} SealedIsAll(c: Config, items: seq<Item>)
    requires NoFailures(c, items)
    ensures Sealed(c, items) == Payloads(items)
  {
    if items == [] {
    } else {
      SealedIsAll(c, items[..|items| - 1]);
      assert Payloads(items) == Payloads(items[..|items| - 1]) + [items[|items| - 1].payload];
    }
  }

  /** The whole bridge: if the queue drops nothing and is drained, and the
      channel keeps order and leaves enough of every group, the receiver emits,
      as a multiset, exactly the non-empty packets the queue accepted. */
  lemma {:induction false} AcceptedIsEmitted(cap: nat, ops: seq<Q.Op<Bytes>>, c: Config, items: seq<Item>, timeout: int,
                                             evs: seq<Event>)
    requires cap > 0 && Drained(cap, ops, items) && NoFailures(c, items) && GoodSession(c, items, timeout, evs)
    ensures var s := Setting(c, SendAll(c, items), timeout);
      multiset(EmittedAll(s, evs)) == multiset(NonEmpty(Q.Run(cap, ops).accepted))
  {
    NothingLostNothingRepeated(c, items, timeout, evs);
    DrainedHandsAll(cap, ops);
    SealedIsAll(c, items);
  }
}
