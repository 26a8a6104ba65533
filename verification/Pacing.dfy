/** A sending rate and a bound on the jitter under which the channel assumptions
    of the delivery theorems hold, whatever the network loses. */
module Pacing {
  import opened Words
  import opened Wrappers
  import opened Crypto
  import opened ReedSolomon
  import opened Sender
  import opened SenderLog
  import opened EndToEnd
  import opened Delivery
  import opened Conservation
  import RO = ReleaseOrder

  /** When each datagram is sent; every datagram that arrives does so between
      `delay` and `delay + jitter` later; a group is sent within `span`, and the
      next one starts no sooner than `period` after it. */
  datatype Pace = Pace(sent: seq<int>, delay: int, jitter: nat, span: nat, period: nat)

  function First(s: Setting, r: Pace, a: nat): int
    requires s.config.engine.Some? && Start(a, E(s).n) < |r.sent|
  {
    r.sent[Start(a, E(s).n)]
  }

  ghost predicate Steady(s: Setting, r: Pace)
    requires Sound(s)
  {
    && |r.sent| == |s.log.wire|
    && (forall p :: 0 <= p < |r.sent| ==> SentInSpan(s, r, p))
    && (forall a: nat :: Start(a + 1, E(s).n) < |r.sent| ==> NextIsLater(s, r, a))
  }

  ghost predicate SentInSpan(s: Setting, r: Pace, p: nat)
    requires s.config.engine.Some? && |r.sent| == |s.log.wire| && p < |r.sent|
  {
    var a := s.log.wire[p].group;
    Start(a, E(s).n) < |r.sent| && 0 <= r.sent[p] - First(s, r, a) <= r.span
  }

  ghost predicate NextIsLater(s: Setting, r: Pace, a: nat)
    requires s.config.engine.Some? && Start(a + 1, E(s).n) < |r.sent|
  {
    First(s, r, a + 1) - First(s, r, a) >= r.period
  }

  /** A group arrives within the timeout, and 2048 groups take longer than it. */
  predicate Suits(r: Pace, timeout: int) {
    r.span + r.jitter <= timeout && 2048 * r.period > timeout + r.span + r.jitter
  }

  ghost predicate Punctual(s: Setting, r: Pace, evs: seq<Event>)
    requires |r.sent| == |s.log.wire|
  {
    OnWire(s, evs) && Ordered(evs) && forall i :: 0 <= i < |evs| && evs[i].Arrive? ==> ArrivesInJitter(r, evs[i])
  }

  ghost predicate ArrivesInJitter(r: Pace, ev: Event)
    requires ev.Arrive? && ev.pos < |r.sent|
  {
    r.delay <= ev.now - r.sent[ev.pos] <= r.delay + r.jitter
  }

  lemma {:induction false} FirstsApart(s: Setting, r: Pace, a: nat, b: nat)
    requires Sound(s) && Steady(s, r) && a <= b && Start(b, E(s).n) < |r.sent|
    ensures Start(a, E(s).n) < |r.sent| && First(s, r, b) - First(s, r, a) >= (b - a) * r.period
  {
    if a == b {
    } else {
      FirstsApart(s, r, a, b - 1);
      assert NextIsLater(s, r, b - 1);
      assert (b - a) * r.period == (b - 1 - a) * r.period + r.period;
    }
  }

  /** When a packet arrives, in terms of when its group was begun. */
  lemma ArrivalTime(s: Setting, r: Pace, evs: seq<Event>, i: nat)
    requires Sound(s) && Steady(s, r) && Punctual(s, r, evs) && i < |evs| && evs[i].Arrive?
    ensures var a := GroupOfEvent(s, evs[i]);
      && Start(a, E(s).n) < |r.sent|
      && First(s, r, a) + r.delay <= evs[i].now <= First(s, r, a) + r.delay + r.span + r.jitter
  {
    assert SentInSpan(s, r, evs[i].pos) && ArrivesInJitter(r, evs[i]);
  }

  lemma FarApart(x: nat, y: nat, period: nat)
    requires x < y && x % 2048 == y % 2048
    ensures (y - x) * period >= 2048 * period
  {
    assert y - x >= 2048;
    assert (y - x) * period == 2048 * period + (y - x - 2048) * period;
  }

  lemma LaterGroupLater(s: Setting, r: Pace, evs: seq<Event>, i: nat, j: nat)
    requires Sound(s) && Steady(s, r) && Punctual(s, r, evs) && Suits(r, s.timeout)
    requires i < |evs| && j < |evs| && evs[i].Arrive? && evs[j].Arrive?
    requires GroupOfEvent(s, evs[i]) < GroupOfEvent(s, evs[j])
    requires GroupOfEvent(s, evs[i]) % 2048 == GroupOfEvent(s, evs[j]) % 2048
    ensures evs[j].now - evs[i].now > s.timeout
  {
    var x, y := GroupOfEvent(s, evs[i]), GroupOfEvent(s, evs[j]);
    ArrivalTime(s, r, evs, i);
    ArrivalTime(s, r, evs, j);
    FirstsApart(s, r, x, y);
    FarApart(x, y, r.period);
  }

  /** At a suitable pace every arrival pattern, with any losses, duplicates and
      reordering the jitter allows, is spaced and every group in time. */
  lemma {:induction false} PacedChannel(s: Setting, r: Pace, evs: seq<Event>, a: nat)
    requires Sound(s) && Steady(s, r) && Punctual(s, r, evs) && Suits(r, s.timeout)
    ensures Channel(s, evs) && InTime(s, evs, a)
  {
    forall i, j | 0 <= i < j < |evs| && evs[i].Arrive? && evs[j].Arrive?
      && GroupOfEvent(s, evs[i]) != GroupOfEvent(s, evs[j])
      && GroupOfEvent(s, evs[i]) % 2048 == GroupOfEvent(s, evs[j]) % 2048
      ensures evs[j].now - evs[i].now > s.timeout
    {
      if GroupOfEvent(s, evs[i]) < GroupOfEvent(s, evs[j]) {
        LaterGroupLater(s, r, evs, i, j);
      } else {
        LaterGroupLater(s, r, evs, j, i);
        assert false;
      }
    }
    if ArrivalsOf(s, evs, a) != [] {
      var f := FirstEvent(s, evs, a);
      ArrivalTime(s, r, evs, f);
      forall i | 0 <= i < |evs| && IsOf(s, evs[i], a)
        ensures evs[i].now <= FirstTime(s, evs, a) + s.timeout
      {
        ArrivalTime(s, r, evs, i);
      }
    }
  }

  /** Soundness without any assumption on the channel but pace and jitter. */
  lemma {:induction false} PacedEmitsWhatWasSent(c: Config, items: seq<Item>, timeout: int, r: Pace, evs: seq<Event>, p: Bytes)
    requires GoodRun(c, items)
    requires var s := Setting(c, SendAll(c, items), timeout);
      Sound(s) && Steady(s, r) && Punctual(s, r, evs) && Suits(r, timeout) && evs != [] && p in Emitted(s, evs)
    ensures exists i :: 0 <= i < |items| && items[i].payload == p
  {
    PacedChannel(Setting(c, SendAll(c, items), timeout), r, evs, 0);
    EmittedWasDequeued(c, items, timeout, evs, p);
  }

  // ---- Bounded losses ------------------------------------------------------

  /** Packet `i` of group `a` arrives. */
  ghost predicate Comes(s: Setting, evs: seq<Event>, a: nat, i: nat)
    requires s.config.engine.Some?
  {
    exists t :: 0 <= t < |evs| && evs[t].Arrive? && evs[t].pos == Start(a, E(s).n) + i
  }

  /** The indices below `m` of group `a` that are lost. */
  ghost function Lost(s: Setting, evs: seq<Event>, a: nat, m: nat): set<nat>
    requires s.config.engine.Some?
  {
    set i: nat | i < m && !Comes(s, evs, a, i)
  }

  /** At most n - k packets of any full group are lost, and no data of the last, partial one. */
  ghost predicate Tolerable(s: Setting, evs: seq<Event>)
    requires s.config.engine.Some?
  {
    && (forall a :: 0 <= a < |s.log.complete| ==> |Lost(s, evs, a, E(s).n)| <= E(s).n - E(s).k)
    && Lost(s, evs, |s.log.complete|, |s.log.partial.data|) == {}
  }

  lemma ArrivalListed(s: Setting, evs: seq<Event>, a: nat, i: nat)
    requires OnWire(s, evs) && i < |evs| && IsOf(s, evs[i], a)
    ensures s.log.wire[evs[i].pos].index in ArrivalsOf(s, evs, a)
  {
    if i == |evs| - 1 {
    } else {
      ArrivalListed(s, evs[..|evs| - 1], a, i);
    }
  }

  lemma ComingIsListed(s: Setting, evs: seq<Event>, a: nat, i: nat)
    requires Sound(s) && OnWire(s, evs) && a <= |s.log.complete| && i < Made(s.config, s.log, a)
    requires Comes(s, evs, a, i)
    ensures i in ArrivalsOf(s, evs, a)
  {
    PacketAt(s.config, s.log, a, i);
    var t :| 0 <= t < |evs| && evs[t].Arrive? && evs[t].pos == Start(a, E(s).n) + i;
    ArrivalListed(s, evs, a, t);
  }

  lemma EnoughArrive(s: Setting, evs: seq<Event>, a: nat)
    requires Sound(s) && OnWire(s, evs) && a < |s.log.complete|
    requires |Lost(s, evs, a, E(s).n)| <= E(s).n - E(s).k
    ensures |ArrivalsOf(s, evs, a)| >= E(s).k
  {
    var arrivals, lost, all := ArrivalsOf(s, evs, a), Lost(s, evs, a, E(s).n), Upto(E(s).n);
    forall i | i in all - lost
      ensures i in RO.SetOf(arrivals)
    {
      ComingIsListed(s, evs, a, i);
    }
    SubsetSize(all - lost, RO.SetOf(arrivals));
    assert |all - lost| == |all| - |lost|;
    RO.SetOfSize(arrivals);
  }

  lemma TolerableIsRecoverable(s: Setting, evs: seq<Event>, a: nat)
    requires Sound(s) && OnWire(s, evs) && Tolerable(s, evs) && a <= |s.log.complete|
    ensures Recoverable(s, evs, a)
  {
    if a < |s.log.complete| {
      EnoughArrive(s, evs, a);
    } else {
      forall i: nat | i < |s.log.partial.data|
        ensures i in ArrivalsOf(s, evs, a)
      {
        assert i !in Lost(s, evs, a, |s.log.partial.data|);
        ComingIsListed(s, evs, a, i);
      }
    }
  }

  /** What the pace, the jitter and the losses must satisfy. */
  ghost predicate PacedSession(c: Config, items: seq<Item>, timeout: int, r: Pace, evs: seq<Event>) {
    && GoodRun(c, items) && c.engine.value.n < 2 * c.engine.value.k
    && var s := Setting(c, SendAll(c, items), timeout);
       && Sound(s) && Steady(s, r) && Suits(r, timeout)
       && Punctual(s, r, evs) && InOrder(evs) && Tolerable(s, evs)
  }

  /** A paced sender over an order-preserving channel that loses up to n - k
      packets of each full group, whichever they are, delivers every payload exactly once. */
  lemma {:induction false} PacedSessionDelivers(c: Config, items: seq<Item>, timeout: int, r: Pace, evs: seq<Event>)
    requires PacedSession(c, items, timeout, r, evs)
    ensures var s := Setting(c, SendAll(c, items), timeout);
      multiset(EmittedAll(s, evs)) == multiset(NonEmpty(Sealed(c, items)))
  {
    var s := Setting(c, SendAll(c, items), timeout);
    forall a | 0 <= a <= |s.log.complete|
      ensures InTime(s, evs, a) && Recoverable(s, evs, a)
    {
      PacedChannel(s, r, evs, a);
      TolerableIsRecoverable(s, evs, a);
    }
    PacedChannel(s, r, evs, 0);
    NothingLostNothingRepeated(c, items, timeout, evs);
  }

  // ---- The hypotheses can be met ------------------------------------------

  /** One group each timeout and a bit. */
  function Slot(group: nat, timeout: nat): nat {
    if group == 0 then 0 else Slot(group - 1, timeout) + timeout + 1
  }

  lemma SlotGrows(a: nat, b: nat, timeout: nat)
    requires a <= b
    ensures Slot(a, timeout) <= Slot(b, timeout)
  {
    if a == b {
    } else {
      SlotGrows(a, b - 1, timeout);
    }
  }

  function Timetable(log: Log, timeout: nat): (r: Pace)
    ensures |r.sent| == |log.wire|
  {
    Pace(seq(|log.wire|, p requires 0 <= p < |log.wire| => Slot(log.wire[p].group, timeout)), 0, 0, 0, timeout + 1)
  }

  /** Everything arrives at once. */
  function Everything(log: Log, timeout: nat): (evs: seq<Event>)
    ensures |evs| == |log.wire|
  {
    seq(|log.wire|, p requires 0 <= p < |log.wire| => Arrive(p, Slot(log.wire[p].group, timeout)))
  }

  lemma StartsItsGroup(s: Setting, a: nat)
    requires Sound(s) && Start(a, E(s).n) < |s.log.wire|
    ensures s.log.wire[Start(a, E(s).n)].group == a
  {
    if a > |s.log.complete| { StartGrows(|s.log.complete|, a, E(s).n); }
    PacketAt(s.config, s.log, a, 0);
  }

  lemma TimetableIsSteady(s: Setting, timeout: nat)
    requires Sound(s)
    ensures Steady(s, Timetable(s.log, timeout))
  {
    var r := Timetable(s.log, timeout);
    forall p | 0 <= p < |r.sent|
      ensures SentInSpan(s, r, p)
    {
      NumberAt(s.config, s.log, p);
      StartsItsGroup(s, s.log.wire[p].group);
    }
    forall a: nat | Start(a + 1, E(s).n) < |r.sent|
      ensures NextIsLater(s, r, a)
    {
      StartsItsGroup(s, a);
      StartsItsGroup(s, a + 1);
    }
  }

  lemma EverythingComes(s: Setting, timeout: nat, a: nat, m: nat)
    requires Sound(s) && a <= |s.log.complete| && m <= Made(s.config, s.log, a)
    ensures Lost(s, Everything(s.log, timeout), a, m) == {}
  {
    forall i: nat | i < m
      ensures Comes(s, Everything(s.log, timeout), a, i)
    {
      PacketAt(s.config, s.log, a, i);
      assert Everything(s.log, timeout)[Start(a, E(s).n) + i].pos == Start(a, E(s).n) + i;
    }
  }

  lemma EverythingIsPunctual(s: Setting, timeout: nat)
    requires Sound(s)
    ensures Punctual(s, Timetable(s.log, timeout), Everything(s.log, timeout)) && InOrder(Everything(s.log, timeout))
  {
    var evs := Everything(s.log, timeout);
    forall i, j | 0 <= i < j < |evs|
      ensures evs[i].now <= evs[j].now
    {
      GroupsAdvance(s.config, s.log, i, j);
      SlotGrows(s.log.wire[i].group, s.log.wire[j].group, timeout);
    }
  }

  lemma EverythingIsTolerable(s: Setting, timeout: nat)
    requires Sound(s)
    ensures Tolerable(s, Everything(s.log, timeout))
  {
    forall a | 0 <= a < |s.log.complete|
      ensures Lost(s, Everything(s.log, timeout), a, E(s).n) == {}
    {
      EverythingComes(s, timeout, a, E(s).n);
    }
    EverythingComes(s, timeout, |s.log.complete|, |s.log.partial.data|);
  }

  /** The sum code, in the clear or with the transparent cipher. */
  function SumConfig(k: nat, encrypted: bool): Config {
    Config(Some(SumEngine(k)), if encrypted then Some(PLAIN) else None)
  }

  /** For each k from 2 to 15 (n = k + 1), with or without encryption, any
      packets that fit the length field make a paced session. */
  lemma {:induction false} CleanSession(k: nat, encrypted: bool, items: seq<Item>, timeout: nat)
    requires 1 < k <= 15
    requires forall i :: 0 <= i < |items| ==>
      GoodItem(items[i]) && |items[i].payload| + Overhead(SumConfig(k, encrypted)) < 0x1_0000
    ensures var c := SumConfig(k, encrypted); var log := SendAll(c, items);
      PacedSession(c, items, timeout, Timetable(log, timeout), Everything(log, timeout))
  {
    var c := SumConfig(k, encrypted);
    SumEngineIsMDS(k);
    PlainIsLawful();
    GoodRunIsSound(c, items, timeout);
    var s := Setting(c, SendAll(c, items), timeout);
    TimetableIsSteady(s, timeout);
    EverythingIsPunctual(s, timeout);
    EverythingIsTolerable(s, timeout);
  }
}
