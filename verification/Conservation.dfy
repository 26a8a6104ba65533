/** Whole sessions: nothing lost and nothing repeated over all groups together. */
module Conservation {
  import opened Words
  import opened Sender
  import opened SenderLog
  import Receiver
  import opened EndToEnd
  import opened Delivery
  import RO = ReleaseOrder

  /** Everything emitted over a run, in order. */
  function EmittedAll(s: Setting, evs: seq<Event>): seq<Bytes>
    requires Coded(s) && OnWire(s, evs)
  {
    if evs == [] then [] else EmittedAll(s, evs[..|evs| - 1]) + Emitted(s, evs)
  }

  function NonEmpty(payloads: seq<Bytes>): seq<Bytes> {
    if payloads == [] then []
    else
      var p := payloads[|payloads| - 1];
      NonEmpty(payloads[..|payloads| - 1]) + if p == [] then [] else [p]
  }

  function Count(s: seq<Bytes>, p: Bytes): nat {
    multiset(s)[p]
  }

  // ---- One group: each index once means each payload once -----------------

  function Indices(m: nat): (r: seq<nat>)
    ensures |r| == m
  {
    if m == 0 then [] else Indices(m - 1) + [m - 1]
  }

  lemma IndexCounts(m: nat, x: nat)
    ensures multiset(Indices(m))[x] == if x < m then 1 else 0
  {
  }

  /** Take one occurrence of `x` out of `s`. */
  lemma Pull(s: seq<nat>, x: nat) returns (a: seq<nat>, b: seq<nat>)
    requires x in multiset(s)
    ensures s == a + [x] + b && multiset(s) == multiset(a + b) + multiset{x}
  {
    var t :| 0 <= t < |s| && s[t] == x;
    a, b := s[..t], s[t + 1..];
    assert s == a + [x] + b;
  }

  lemma DeliverAround(payloads: seq<Bytes>, a: seq<nat>, x: nat, b: seq<nat>, p: Bytes)
    requires Within(a, |payloads|) && Within(b, |payloads|) && x < |payloads|
    ensures Within(a + [x] + b, |payloads|) && Within(a + b, |payloads|)
    ensures Count(Deliver(payloads, a + [x] + b), p) == Count(Deliver(payloads, a + b), p) + Count(Deliver(payloads, [x]), p)
  {
    DeliverAppend(payloads, a, b);
    DeliverAppend(payloads, a, [x]);
    DeliverAppend(payloads, a + [x], b);
  }

  lemma NoneLeft(s: seq<nat>)
    requires multiset(s) == multiset{}
    ensures s == []
  {
    assert |multiset(s)| == |s|;
  }

  lemma WithinParts(a: seq<nat>, x: nat, b: seq<nat>, m: nat)
    requires Within(a + [x] + b, m)
    ensures Within(a, m) && Within(b, m) && x < m
  {
    var s := a + [x] + b;
    assert s[|a|] == x;
    assert forall t :: 0 <= t < |a| ==> s[t] == a[t];
    assert forall t :: 0 <= t < |b| ==> s[|a| + 1 + t] == b[t];
  }

  lemma SameWithout(s: seq<nat>, t: seq<nat>, x: nat, front: seq<nat>, rest: seq<nat>)
    requires multiset(s) == multiset(t) && s == front + [x] && multiset(t) == multiset(rest) + multiset{x}
    ensures multiset(front) == multiset(rest)
  {
    assert multiset(s) == multiset(front) + multiset{x};
    assert multiset(front) == multiset(s) - multiset{x} == multiset(rest);
  }

  /** What is delivered, up to order, depends only on how often each index is released. */
  lemma {:induction false} DeliverPermuted(payloads: seq<Bytes>, i1: seq<nat>, i2: seq<nat>, p: Bytes)
    requires Within(i1, |payloads|) && Within(i2, |payloads|) && multiset(i1) == multiset(i2)
    ensures Count(Deliver(payloads, i1), p) == Count(Deliver(payloads, i2), p)
    decreases |i1|
  {
    if i1 == [] {
      NoneLeft(i2);
    } else {
      var front, x := i1[..|i1| - 1], i1[|i1| - 1];
      var a, b := Pull(i2, x);
      WithinParts(a, x, b, |payloads|);
      SameWithout(i1, i2, x, front, a + b);
      DeliverAround(payloads, front, x, [], p);
      assert front + [x] + [] == i1 && front + [] == front;
      DeliverAround(payloads, a, x, b, p);
      DeliverPermuted(payloads, front, a + b, p);
    }
  }

  lemma {:induction false} DeliverIndices(payloads: seq<Bytes>, m: nat)
    requires m <= |payloads|
    ensures Within(Indices(m), |payloads|)
    ensures Deliver(payloads, Indices(m)) == NonEmpty(payloads[..m])
  {
    if m == 0 {
    } else {
      DeliverIndices(payloads, m - 1);
      assert payloads[..m][..m - 1] == payloads[..m - 1];
      assert Indices(m)[..m - 1] == Indices(m - 1);
    }
  }

  lemma OnceEach(payloads: seq<Bytes>, indices: seq<nat>, p: Bytes)
    requires Within(indices, |payloads|)
    requires forall x: nat :: x < |payloads| ==> multiset(indices)[x] == 1
    ensures Count(Deliver(payloads, indices), p) == Count(NonEmpty(payloads), p)
  {
    forall x: nat
      ensures multiset(indices)[x] == multiset(Indices(|payloads|))[x]
    {
      IndexCounts(|payloads|, x);
    }
    DeliverIndices(payloads, |payloads|);
    DeliverPermuted(payloads, indices, Indices(|payloads|), p);
    assert payloads[..|payloads|] == payloads;
  }

  /** Enough of the group arrives: any k packets, or all the data there is. */
  ghost predicate Recoverable(s: Setting, evs: seq<Event>, a: nat)
    requires Coded(s) && OnWire(s, evs) && a <= |s.log.complete|
  {
    var arrivals := ArrivalsOf(s, evs, a);
    |arrivals| >= E(s).k || forall x: nat :: x < |Data(s, a)| ==> x in arrivals
  }

  /** A recoverable group delivers each of its non-empty payloads once. */
  lemma GroupConserved(c: Config, items: seq<Item>, timeout: int, evs: seq<Event>, a: nat, p: Bytes)
    requires GroupRun(c, items, timeout, evs, a) && InOrder(evs) && c.engine.value.n < 2 * c.engine.value.k
    requires Recoverable(Setting(c, SendAll(c, items), timeout), evs, a)
    ensures var s := Setting(c, SendAll(c, items), timeout);
      Count(DeliveredFor(s, evs, a), p) == Count(NonEmpty(GroupAt(s.log, a).payloads), p)
  {
    var s := Setting(c, SendAll(c, items), timeout);
    var k, arrivals := E(s).k, ArrivalsOf(s, evs, a);
    RunDelivers(c, items, timeout, evs, a);
    InOrderIncreases(s, evs, a);
    ArrivalsBelowN(s, evs, a);
    if |arrivals| >= k { RO.QuotientOne(|arrivals|, k); }
    forall x: nat | x < |GroupAt(s.log, a).payloads|
      ensures multiset(RO.Run(k, arrivals).released)[x] == 1
    {
      RO.InOrderArrivals(k, arrivals, x);
      assert RO.Times(k, arrivals, x) == 1;
    }
    OnceEach(GroupAt(s.log, a).payloads, RO.Run(k, arrivals).released, p);
  }

  // ---- All groups together ------------------------------------------------

  function Sum(f: nat -> nat, m: nat): nat {
    if m == 0 then 0 else Sum(f, m - 1) + f(m - 1)
  }

  lemma {:induction false} SumBump(f: nat -> nat, g: nat -> nat, b: nat, d: nat, m: nat)
    requires forall a: nat :: g(a) == f(a) + if a == b then d else 0
    ensures Sum(g, m) == Sum(f, m) + if b < m then d else 0
  {
    if m == 0 {
    } else {
      SumBump(f, g, b, d, m - 1);
    }
  }

  lemma {:induction false} SumZero(f: nat -> nat, m: nat)
    requires forall a: nat :: f(a) == 0
    ensures Sum(f, m) == 0
  {
    if m == 0 {
    } else {
      SumZero(f, m - 1);
    }
  }

  /** How often each group delivers `p`. */
  function PerGroup(s: Setting, evs: seq<Event>, p: Bytes): nat -> nat
    requires Coded(s) && OnWire(s, evs)
  {
    (a: nat) => Count(DeliveredFor(s, evs, a), p)
  }

  lemma DeliveredStep(s: Setting, evs: seq<Event>, a: nat, p: Bytes)
    requires Coded(s) && OnWire(s, evs) && evs != []
    ensures Count(DeliveredFor(s, evs, a), p) == Count(DeliveredFor(s, evs[..|evs| - 1], a), p)
      + if IsOf(s, evs[|evs| - 1], a) then Count(Emitted(s, evs), p) else 0
  {
  }

  lemma EmittedStep(s: Setting, evs: seq<Event>, p: Bytes)
    requires Coded(s) && OnWire(s, evs) && evs != []
    ensures Count(EmittedAll(s, evs), p) == Count(EmittedAll(s, evs[..|evs| - 1]), p) + Count(Emitted(s, evs), p)
    ensures evs[|evs| - 1].Tick? ==> Count(Emitted(s, evs), p) == 0
  {
  }

  /** What is emitted is what the groups deliver. */
  lemma {:induction false} EmittedByGroup(s: Setting, evs: seq<Event>, m: nat, p: Bytes)
    requires Coded(s) && OnWire(s, evs) && forall i :: 0 <= i < |evs| && evs[i].Arrive? ==> GroupOfEvent(s, evs[i]) < m
    ensures Count(EmittedAll(s, evs), p) == Sum(PerGroup(s, evs, p), m)
  {
    if evs == [] {
      SumZero(PerGroup(s, evs, p), m);
    } else {
      var front, ev := evs[..|evs| - 1], evs[|evs| - 1];
      assert forall i :: 0 <= i < |front| ==> front[i] == evs[i];
      EmittedByGroup(s, front, m, p);
      EmittedStep(s, evs, p);
      forall a: nat
        ensures PerGroup(s, evs, p)(a) == PerGroup(s, front, p)(a) + if IsOf(s, ev, a) then Count(Emitted(s, evs), p) else 0
      {
        DeliveredStep(s, evs, a, p);
      }
      SumBump(PerGroup(s, front, p), PerGroup(s, evs, p), if ev.Arrive? then GroupOfEvent(s, ev) else m,
              if ev.Arrive? then Count(Emitted(s, evs), p) else 0, m);
    }
  }

  lemma NonEmptyAppend(p: seq<Bytes>, q: seq<Bytes>)
    ensures NonEmpty(p + q) == NonEmpty(p) + NonEmpty(q)
  {
    if q == [] {
      assert p + q == p;
    } else {
      NonEmptyAppend(p, q[..|q| - 1]);
      assert (p + q)[..|p + q| - 1] == p + q[..|q| - 1];
    }
  }

  /** `f` counts `p` in each of the first `m` groups. */
  ghost predicate CountsGroups(parts: seq<GroupLog>, f: nat -> nat, m: nat, p: Bytes) {
    m <= |parts| && forall a: nat :: a < m ==> f(a) == Count(NonEmpty(parts[a].payloads), p)
  }

  lemma ConcatStep(parts: seq<GroupLog>, m: nat, p: Bytes)
    requires 0 < m <= |parts|
    ensures Count(NonEmpty(Concat(parts[..m])), p)
      == Count(NonEmpty(Concat(parts[..m - 1])), p) + Count(NonEmpty(parts[m - 1].payloads), p)
  {
    assert parts[..m][..m - 1] == parts[..m - 1];
    NonEmptyAppend(Concat(parts[..m - 1]), parts[m - 1].payloads);
  }

  lemma {:induction false} SumIsLogged(parts: seq<GroupLog>, f: nat -> nat, m: nat, p: Bytes)
    requires CountsGroups(parts, f, m, p)
    ensures Sum(f, m) == Count(NonEmpty(Concat(parts[..m])), p)
  {
    if m == 0 {
    } else {
      SumIsLogged(parts, f, m - 1, p);
      ConcatStep(parts, m, p);
    }
  }

  lemma SumIsAllLogged(log: Log, f: nat -> nat, p: Bytes)
    requires CountsGroups(log.complete, f, |log.complete|, p)
    requires f(|log.complete|) == Count(NonEmpty(log.partial.payloads), p)
    ensures Sum(f, |log.complete| + 1) == Count(NonEmpty(Logged(log)), p)
  {
    SumIsLogged(log.complete, f, |log.complete|, p);
    assert log.complete[..|log.complete|] == log.complete;
    NonEmptyAppend(Concat(log.complete), log.partial.payloads);
  }

  /** A run whose packets come in time, in order, and enough of each group. */
  ghost predicate GoodSession(c: Config, items: seq<Item>, timeout: int, evs: seq<Event>) {
    && GoodRun(c, items) && c.engine.value.n < 2 * c.engine.value.k && InOrder(evs)
    && var s := Setting(c, SendAll(c, items), timeout);
       && Channel(s, evs)
       && forall a :: 0 <= a <= |s.log.complete| ==> InTime(s, evs, a) && Recoverable(s, evs, a)
  }

  lemma ArrivalsAreLogged(s: Setting, evs: seq<Event>)
    requires Sound(s) && OnWire(s, evs)
    ensures forall i :: 0 <= i < |evs| && evs[i].Arrive? ==> GroupOfEvent(s, evs[i]) < |s.log.complete| + 1
  {
    forall i | 0 <= i < |evs| && evs[i].Arrive?
      ensures GroupOfEvent(s, evs[i]) < |s.log.complete| + 1
    {
      WireDatagram(s, evs[i].pos);
    }
  }

  lemma SessionCounts(c: Config, items: seq<Item>, timeout: int, evs: seq<Event>, p: Bytes)
    requires GoodSession(c, items, timeout, evs)
    ensures var s := Setting(c, SendAll(c, items), timeout);
      Count(EmittedAll(s, evs), p) == Count(NonEmpty(Logged(s.log)), p)
  {
    var s := Setting(c, SendAll(c, items), timeout);
    var last := |s.log.complete|;
    GoodRunIsSound(c, items, timeout);
    forall a: nat | a <= last
      ensures PerGroup(s, evs, p)(a) == Count(NonEmpty(GroupAt(s.log, a).payloads), p)
    {
      GroupConserved(c, items, timeout, evs, a, p);
    }
    ArrivalsAreLogged(s, evs);
    EmittedByGroup(s, evs, last + 1, p);
    SumIsAllLogged(s.log, PerGroup(s, evs, p), p);
  }

  /** Conservation over a whole session: on an order-preserving channel that
      leaves k packets of every full group (and the data of the last, partial
      one), with n < 2k, what the receiver emits is, as a multiset, exactly what
      the worker dequeued and sealed, empty payloads aside. */
  lemma {:induction false} NothingLostNothingRepeated(c: Config, items: seq<Item>, timeout: int, evs: seq<Event>)
    requires GoodSession(c, items, timeout, evs)
    ensures var s := Setting(c, SendAll(c, items), timeout);
      multiset(EmittedAll(s, evs)) == multiset(NonEmpty(Sealed(c, items)))
  {
    var s := Setting(c, SendAll(c, items), timeout);
    LogIsDequeued(c, items);
    forall p: Bytes
      ensures multiset(EmittedAll(s, evs))[p] == multiset(NonEmpty(Sealed(c, items)))[p]
    {
      SessionCounts(c, items, timeout, evs, p);
      assert Count(EmittedAll(s, evs), p) == Count(NonEmpty(Sealed(c, items)), p);
    }
  }

  // ---- The receive loop as an object ------------------------------------------

  /** Wire position `ps[i]` arrives when the clock says `clock(i)`. */
  function Stamped(ps: seq<nat>, clock: int -> int): (evs: seq<Event>)
    ensures |evs| == |ps|
  {
    seq(|ps|, i requires 0 <= i < |ps| => Arrive(ps[i], clock(i)))
  }

  ghost predicate OnLog(log: Log, ps: seq<nat>) {
    forall i :: 0 <= i < |ps| ==> ps[i] < |log.wire|
  }

  function DatagramsAt(log: Log, ps: seq<nat>): (ds: seq<Bytes>)
    requires OnLog(log, ps)
    ensures |ds| == |ps|
  {
    seq(|ps|, i requires 0 <= i < |ps| => log.wire[ps[i]].bytes)
  }

  /** What the loop emits and stores when it reads these datagrams is what the
      run of these events does, so every theorem on runs holds of the object. */
  lemma {:induction false} LoopIsRun(s: Setting, ps: seq<nat>, clock: int -> int)
    requires Coded(s) && OnLog(s.log, ps)
    ensures OnWire(s, Stamped(ps, clock)) && Receiver.ModeOk(Stage(s), map[])
    ensures Receiver.ReceiveAll(Stage(s), s.config.aead, map[], DatagramsAt(s.log, ps), clock)
      == (TableAfter(s, Stamped(ps, clock)), EmittedAll(s, Stamped(ps, clock)))
  {
    if ps == [] {
    } else {
      var last := |ps| - 1;
      LoopIsRun(s, ps[..last], clock);
      assert Stamped(ps, clock)[..last] == Stamped(ps[..last], clock);
      assert DatagramsAt(s.log, ps)[..last] == DatagramsAt(s.log, ps[..last]);
    }
  }
}
