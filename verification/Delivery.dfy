/** What one group delivers over a whole run: exactly what the index-only
    account of its arrivals says. */
module Delivery {
  import opened Words
  import opened Wrappers
  import opened FecGroup
  import opened FecSource
  import opened FecManager
  import opened Sender
  import opened SenderLog
  import opened EndToEnd
  import RO = ReleaseOrder

  /** The event is the arrival of a packet of group `a`. */
  predicate IsOf(s: Setting, ev: Event, a: nat)
    requires ev.Arrive? ==> ev.pos < |s.log.wire|
  {
    ev.Arrive? && s.log.wire[ev.pos].group == a
  }

  /** The indices of group `a` in order of arrival. */
  function ArrivalsOf(s: Setting, evs: seq<Event>, a: nat): seq<nat>
    requires OnWire(s, evs)
  {
    if evs == [] then []
    else
      var ev := evs[|evs| - 1];
      ArrivalsOf(s, evs[..|evs| - 1], a) + if IsOf(s, ev, a) then [s.log.wire[ev.pos].index] else []
  }

  /** Everything emitted on arrivals of group `a`, in order. */
  function DeliveredFor(s: Setting, evs: seq<Event>, a: nat): seq<Bytes>
    requires Coded(s) && OnWire(s, evs)
  {
    if evs == [] then []
    else
      DeliveredFor(s, evs[..|evs| - 1], a) + if IsOf(s, evs[|evs| - 1], a) then Emitted(s, evs) else []
  }

  /** When the first packet of group `a` arrived. */
  function FirstTime(s: Setting, evs: seq<Event>, a: nat): int
    requires OnWire(s, evs) && ArrivalsOf(s, evs, a) != []
  {
    var front := evs[..|evs| - 1];
    if ArrivalsOf(s, front, a) != [] then FirstTime(s, front, a) else evs[|evs| - 1].now
  }

  /** No packet of group `a` comes later than the timeout after its first. */
  ghost predicate InTime(s: Setting, evs: seq<Event>, a: nat)
    requires OnWire(s, evs)
  {
    ArrivalsOf(s, evs, a) != [] ==>
      forall i :: 0 <= i < |evs| && IsOf(s, evs[i], a) ==> evs[i].now <= FirstTime(s, evs, a) + s.timeout
  }

  lemma FirstEvent(s: Setting, evs: seq<Event>, a: nat) returns (i: nat)
    requires OnWire(s, evs) && ArrivalsOf(s, evs, a) != []
    ensures i < |evs| && IsOf(s, evs[i], a) && evs[i].now == FirstTime(s, evs, a)
  {
    var front := evs[..|evs| - 1];
    if ArrivalsOf(s, front, a) != [] {
      i := FirstEvent(s, front, a);
    } else {
      i := |evs| - 1;
    }
  }

  lemma NoneOf(s: Setting, evs: seq<Event>, a: nat, i: nat)
    requires OnWire(s, evs) && ArrivalsOf(s, evs, a) == [] && i < |evs|
    ensures !IsOf(s, evs[i], a)
  {
    if i == |evs| - 1 {
    } else {
      NoneOf(s, evs[..|evs| - 1], a, i);
    }
  }

  /** The group state `g` is what the index account says after `arrivals`. */
  ghost predicate Tracks(s: Setting, g: Group, a: nat, arrivals: seq<nat>, first: int)
    requires Coded(s) && a <= |s.log.complete| && IsGroup(E(s), Data(s, a))
  {
    && HoldsOnly(E(s), Data(s, a), g)
    && Seen(g) == RO.Run(E(s).k, arrivals).seen
    && g.createdAt >= first
  }

  ghost predicate EntryTracks(s: Setting, t: Table, a: nat, arrivals: seq<nat>, first: int)
    requires Coded(s) && a <= |s.log.complete| && IsGroup(E(s), Data(s, a))
  {
    var og := Lookup(t, a % 2048);
    if RO.Run(E(s).k, arrivals).seen == {} then og.None? else og.Some? && Tracks(s, og.value, a, arrivals, first)
  }

  /** The packet finds the state the account expects. */
  lemma CurrentTracks(s: Setting, t: Table, a: nat, arrivals: seq<nat>, first: int, now: int)
    requires Coded(s) && a <= |s.log.complete| && IsGroup(E(s), Data(s, a))
    requires EntryTracks(s, t, a, arrivals, first) && first <= now <= first + s.timeout
    ensures Tracks(s, Current(E(s), s.timeout, Lookup(t, a % 2048), now), a, arrivals, first)
  {
    FreshHoldsOnly(E(s), Data(s, a), now);
  }

  lemma FreshTracks(s: Setting, a: nat, now: int)
    requires Coded(s) && a <= |s.log.complete| && IsGroup(E(s), Data(s, a))
    ensures Tracks(s, Fresh(E(s), now), a, [], now)
  {
    FreshHoldsOnly(E(s), Data(s, a), now);
  }

  lemma RunSnoc(k: nat, arrivals: seq<nat>, i: nat)
    ensures var h := RO.Run(k, arrivals);
      RO.Run(k, arrivals + [i]) == RO.History(RO.Seen(k, h.seen, i), h.released + RO.Releases(k, h.seen, i))
  {
    assert (arrivals + [i])[..|arrivals|] == arrivals;
  }

  /** An arrival of the group itself. */
  lemma OwnArrival(s: Setting, t: Table, pos: nat, now: int, arrivals: seq<nat>, first: int)
    requires Coded(s) && pos < |s.log.wire| && Genuine(s, pos) && TableShape(E(s), t)
    requires DatagramOk(E(s), Data(s, s.log.wire[pos].group), s.log.wire[pos])
    requires var a := s.log.wire[pos].group; var g := Current(E(s), s.timeout, Lookup(t, a % 2048), now);
      Consistent(E(s), g) && Tracks(s, g, a, arrivals, first)
    requires GroupOk(s.config, GroupAt(s.log, s.log.wire[pos].group)) && Untruncated(GroupAt(s.log, s.log.wire[pos].group))
    ensures var d := s.log.wire[pos]; var a := d.group; var payloads := GroupAt(s.log, a).payloads;
      var released := RO.Releases(E(s).k, RO.Run(E(s).k, arrivals).seen, d.index);
      && EntryTracks(s, React(s, t, Arrive(pos, now)).0, a, arrivals + [d.index], first)
      && Within(released, |payloads|)
      && React(s, t, Arrive(pos, now)).1 == Deliver(payloads, released)
  {
    OwnEntry(s, t, pos, now, arrivals, first);
    ArrivalEmits(s, t, pos, now);
  }

  lemma OwnEntry(s: Setting, t: Table, pos: nat, now: int, arrivals: seq<nat>, first: int)
    requires Coded(s) && pos < |s.log.wire| && Genuine(s, pos) && TableShape(E(s), t)
    requires DatagramOk(E(s), Data(s, s.log.wire[pos].group), s.log.wire[pos])
    requires var a := s.log.wire[pos].group; var g := Current(E(s), s.timeout, Lookup(t, a % 2048), now);
      Consistent(E(s), g) && Tracks(s, g, a, arrivals, first)
    ensures var d := s.log.wire[pos];
      EntryTracks(s, React(s, t, Arrive(pos, now)).0, d.group, arrivals + [d.index], first)
  {
    ArrivalRefines(s, t, pos, now);
    RunSnoc(E(s).k, arrivals, s.log.wire[pos].index);
  }

  /** An event of another group, or a clean-up, before the group times out. */
  lemma OtherEvent(s: Setting, front: seq<Event>, ev: Event, t: Table, a: nat, arrivals: seq<nat>, j: nat)
    requires Coded(s) && Channel(s, front + [ev]) && OnWire(s, front) && TableShape(E(s), t)
    requires a <= |s.log.complete| && IsGroup(E(s), Data(s, a))
    requires j < |front| && IsOf(s, front[j], a) && ev.now <= front[j].now + s.timeout
    requires !IsOf(s, (front + [ev])[|front|], a)
    requires ev.Arrive? ==> Genuine(s, ev.pos) && DatagramOk(E(s), Data(s, s.log.wire[ev.pos].group), s.log.wire[ev.pos])
    requires EntryTracks(s, t, a, arrivals, front[j].now)
    ensures ev.Arrive? ==> ev.pos < |s.log.wire|
    ensures EntryTracks(s, React(s, t, ev).0, a, arrivals, front[j].now)
  {
    var evs := front + [ev];
    assert evs[j] == front[j] && evs[|front|] == ev;
    if ev.Arrive? {
      assert s.log.wire[ev.pos].group % 2048 != a % 2048;
      OtherSlot(s, t, ev.pos, ev.now, a % 2048);
    }
  }

  /** An arrival leaves the slots of other group numbers alone. */
  lemma OtherSlot(s: Setting, t: Table, pos: nat, now: int, num: uint16)
    requires Coded(s) && TableShape(E(s), t) && pos < |s.log.wire| && Genuine(s, pos)
    requires DatagramOk(E(s), Data(s, s.log.wire[pos].group), s.log.wire[pos])
    requires s.log.wire[pos].group % 2048 != num
    ensures Lookup(React(s, t, Arrive(pos, now)).0, num) == Lookup(t, num)
  {
    ReactIsAdd(s, t, pos, now);
  }

  lemma DeliverAppend(payloads: seq<Bytes>, i1: seq<nat>, i2: seq<nat>)
    requires Within(i1, |payloads|) && Within(i2, |payloads|)
    ensures Within(i1 + i2, |payloads|) && Deliver(payloads, i1 + i2) == Deliver(payloads, i1) + Deliver(payloads, i2)
  {
    if i2 == [] {
      assert i1 + i2 == i1;
      assert Deliver(payloads, i1) + [] == Deliver(payloads, i1);
    } else {
      var m := |i2| - 1;
      DeliverAppend(payloads, i1, i2[..m]);
      assert (i1 + i2)[..|i1 + i2| - 1] == i1 + i2[..m];
    }
  }

  lemma InTimeFront(s: Setting, evs: seq<Event>, a: nat)
    requires Channel(s, evs) && evs != [] && InTime(s, evs, a)
    ensures OnWire(s, evs[..|evs| - 1]) && InTime(s, evs[..|evs| - 1], a)
  {
    var front := evs[..|evs| - 1];
    assert forall i :: 0 <= i < |front| ==> front[i] == evs[i];
  }

  /** What is known of a run: the group's deliveries, and its entry while the group is young. */
  ghost predicate Account(s: Setting, evs: seq<Event>, a: nat)
    requires Coded(s) && OnWire(s, evs) && a <= |s.log.complete| && IsGroup(E(s), Data(s, a))
  {
    var arrivals := ArrivalsOf(s, evs, a);
    var payloads := GroupAt(s.log, a).payloads;
    && Within(RO.Run(E(s).k, arrivals).released, |payloads|)
    && DeliveredFor(s, evs, a) == Deliver(payloads, RO.Run(E(s).k, arrivals).released)
    && (arrivals != [] && evs[|evs| - 1].now <= FirstTime(s, evs, a) + s.timeout
        ==> EntryTracks(s, TableAfter(s, evs), a, arrivals, FirstTime(s, evs, a)))
  }

  /** The state met by a packet of the group. */
  lemma CurrentOfGroup(s: Setting, front: seq<Event>, ev: Event, a: nat) returns (first: int)
    requires Coded(s) && ev.Arrive? && Channel(s, front + [ev]) && Channel(s, front) && ev.pos < |s.log.wire| && Genuine(s, ev.pos)
    requires s.log.wire[ev.pos].group == a && Account(s, front, a) && InTime(s, front + [ev], a)
    requires Unmixed(s, front, TableAfter(s, front))
    ensures var g := Current(E(s), s.timeout, Lookup(TableAfter(s, front), a % 2048), ev.now);
      Consistent(E(s), g) && Tracks(s, g, a, ArrivalsOf(s, front, a), first)
    ensures first == FirstTime(s, front + [ev], a)
  {
    var evs := front + [ev];
    assert evs[..|evs| - 1] == front;
    var t := TableAfter(s, front);
    var i := CurrentIsOwn(s, front, t, ev.pos, ev.now);
    first := FirstTime(s, evs, a);
    if ArrivalsOf(s, front, a) == [] {
      if i < |front| { NoneOf(s, front, a, i); }
      FreshTracks(s, a, ev.now);
    } else {
      var j := FirstEvent(s, front, a);
      assert evs[j] == front[j] && evs[|front|] == ev && IsOf(s, evs[|front|], a);
      assert front[|front| - 1] == evs[|front| - 1];
      CurrentTracks(s, t, a, ArrivalsOf(s, front, a), first, ev.now);
    }
  }

  lemma AccountOwn(s: Setting, front: seq<Event>, ev: Event, a: nat)
    requires Sound(s) && ev.Arrive? && Channel(s, front + [ev]) && Channel(s, front) && ev.pos < |s.log.wire|
    requires s.log.wire[ev.pos].group == a && Genuine(s, ev.pos) && Account(s, front, a) && InTime(s, front + [ev], a)
    requires Untruncated(GroupAt(s.log, a))
    ensures Account(s, front + [ev], a)
  {
    var evs := front + [ev];
    assert evs[..|evs| - 1] == front;
    NoGenerationMix(s, front);
    WireDatagram(s, ev.pos);
    assert GroupOk(s.config, GroupAt(s.log, a));
    var arrivals := ArrivalsOf(s, front, a);
    var first := CurrentOfGroup(s, front, ev, a);
    OwnArrival(s, TableAfter(s, front), ev.pos, ev.now, arrivals, first);
    RunSnoc(E(s).k, arrivals, s.log.wire[ev.pos].index);
    var h := RO.Run(E(s).k, arrivals);
    DeliverAppend(GroupAt(s.log, a).payloads, h.released, RO.Releases(E(s).k, h.seen, s.log.wire[ev.pos].index));
  }

  lemma AccountOther(s: Setting, front: seq<Event>, ev: Event, a: nat)
    requires Sound(s) && Channel(s, front + [ev]) && Channel(s, front)
    requires !IsOf(s, (front + [ev])[|front|], a)
    requires a <= |s.log.complete| && IsGroup(E(s), Data(s, a)) && Account(s, front, a)
    ensures Account(s, front + [ev], a)
  {
    var evs := front + [ev];
    assert evs[..|evs| - 1] == front && evs[|front|] == ev;
    var arrivals := ArrivalsOf(s, front, a);
    assert ArrivalsOf(s, evs, a) == arrivals + [] == arrivals;
    assert DeliveredFor(s, evs, a) == DeliveredFor(s, front, a) + [] == DeliveredFor(s, front, a);
    if arrivals != [] && ev.now <= FirstTime(s, evs, a) + s.timeout {
      var j := FirstEvent(s, front, a);
      assert front[|front| - 1] == evs[|front| - 1];
      if ev.Arrive? { WireDatagram(s, ev.pos); }
      OtherEvent(s, front, ev, TableAfter(s, front), a, arrivals, j);
    }
  }

  /** Delivery, over every run and interleaving: if the packets of group `a`
      arrive within the timeout of the first, the receiver emits on them exactly
      the non-empty payloads that the index account releases, in that order. */
  lemma {:induction false} GroupDelivery(s: Setting, evs: seq<Event>, a: nat)
    requires Sound(s) && Channel(s, evs) && InTime(s, evs, a)
    requires a <= |s.log.complete| && IsGroup(E(s), Data(s, a)) && Untruncated(GroupAt(s.log, a))
    ensures Account(s, evs, a)
  {
    if evs == [] {
    } else {
      var front, ev := evs[..|evs| - 1], evs[|evs| - 1];
      assert evs == front + [ev];
      ChannelFront(s, evs);
      InTimeFront(s, evs, a);
      GroupDelivery(s, front, a);
      if IsOf(s, ev, a) {
        WireDatagram(s, ev.pos);
        AccountOwn(s, front, ev, a);
      } else {
        AccountOther(s, front, ev, a);
      }
    }
  }

  // ---- Consequences -------------------------------------------------------

  /** A run of the worker, a channel, and a group whose packets come in time. */
  ghost predicate GroupRun(c: Config, items: seq<Item>, timeout: int, evs: seq<Event>, a: nat) {
    && GoodRun(c, items)
    && var s := Setting(c, SendAll(c, items), timeout);
       && Channel(s, evs) && InTime(s, evs, a) && a <= |s.log.complete|
  }

  lemma RunDelivers(c: Config, items: seq<Item>, timeout: int, evs: seq<Event>, a: nat)
    requires GroupRun(c, items, timeout, evs, a)
    ensures var s := Setting(c, SendAll(c, items), timeout);
      Sound(s) && IsGroup(E(s), Data(s, a)) && Account(s, evs, a) && |GroupAt(s.log, a).payloads| == |Data(s, a)|
  {
    var s := Setting(c, SendAll(c, items), timeout);
    GoodRunIsSound(c, items, timeout);
    GroupIsGroup(s, a);
    GroupDelivery(s, evs, a);
  }

  lemma GroupIsGroup(s: Setting, a: nat)
    requires Sound(s) && a <= |s.log.complete|
    ensures IsGroup(E(s), Data(s, a)) && |GroupAt(s.log, a).payloads| == |Data(s, a)|
  {
    assert GroupOk(s.config, GroupAt(s.log, a));
    forall i | 0 <= i < |Data(s, a)|
      ensures Data(s, a)[i] != []
    {
      assert DataFor(s.config, GroupAt(s.log, a).payloads[i], Data(s, a)[i]);
    }
  }

  /** The index account in terms of payloads. */
  lemma AccountDelivers(k: nat, payloads: seq<Bytes>, arrivals: seq<nat>, p: Bytes)
    requires k > 0 && |payloads| <= k && Within(RO.Run(k, arrivals).released, |payloads|)
    ensures p in Deliver(payloads, RO.Run(k, arrivals).released) <==> p != [] && exists x: nat ::
      x < |payloads| && payloads[x] == p && (x in arrivals || |RO.SetOf(arrivals)| >= k)
  {
    var released := RO.Run(k, arrivals).released;
    DeliverContains(payloads, released, p);
    forall x: nat | x < |payloads|
      ensures x in released <==> x in arrivals || |RO.SetOf(arrivals)| >= k
    {
      ReleasedIff(k, arrivals, x);
    }
    IndexedBy(payloads, released, p);
    if x: nat :| x < |payloads| && payloads[x] == p && (x in arrivals || |RO.SetOf(arrivals)| >= k) {
      assert x in released;
    }
  }

  lemma ReleasedIff(k: nat, arrivals: seq<nat>, x: nat)
    requires x < k
    ensures x in RO.Run(k, arrivals).released <==> x in arrivals || |RO.SetOf(arrivals)| >= k
  {
    RO.EverReleased(k, arrivals, x);
    assert x in RO.Run(k, arrivals).released <==> RO.Times(k, arrivals, x) > 0;
  }

  lemma IndexedBy(payloads: seq<Bytes>, indices: seq<nat>, p: Bytes)
    requires Within(indices, |payloads|)
    ensures (exists t :: 0 <= t < |indices| && payloads[indices[t]] == p)
      <==> exists x: nat :: x < |payloads| && payloads[x] == p && x in indices
  {
    if t :| 0 <= t < |indices| && payloads[indices[t]] == p {
      assert indices[t] in indices;
    }
  }

  /** Recovery: a payload of the group is delivered iff its own packet or any k
      distinct packets of the group arrive, in whatever order and repetition. */
  lemma {:induction false} DeliveredIff(c: Config, items: seq<Item>, timeout: int, evs: seq<Event>, a: nat, p: Bytes)
    requires GroupRun(c, items, timeout, evs, a)
    ensures var s := Setting(c, SendAll(c, items), timeout);
      var payloads, arrivals := GroupAt(s.log, a).payloads, ArrivalsOf(s, evs, a);
      p in DeliveredFor(s, evs, a) <==> p != [] && exists x: nat ::
        x < |payloads| && payloads[x] == p && (x in arrivals || |RO.SetOf(arrivals)| >= c.engine.value.k)
  {
    var s := Setting(c, SendAll(c, items), timeout);
    RunDelivers(c, items, timeout, evs, a);
    AccountDelivers(E(s).k, GroupAt(s.log, a).payloads, ArrivalsOf(s, evs, a), p);
  }

  /** Within one lifetime: before the k-th distinct packet exactly the data
      packets that arrived are released, once each; the k-th distinct packet,
      whichever it is, completes the release of all k, once each. */
  lemma {:induction false} OneLifetime(c: Config, items: seq<Item>, timeout: int, evs: seq<Event>, a: nat, x: nat)
    requires GroupRun(c, items, timeout, evs, a) && x < c.engine.value.k
    ensures var s := Setting(c, SendAll(c, items), timeout); var k, arrivals := c.engine.value.k, ArrivalsOf(s, evs, a);
      var released, payloads := RO.Run(k, arrivals).released, GroupAt(s.log, a).payloads;
      && Within(released, |payloads|) && DeliveredFor(s, evs, a) == Deliver(payloads, released)
      && (|RO.SetOf(arrivals)| < k ==> multiset(released)[x] == if x in arrivals then 1 else 0)
      && (arrivals != [] && |RO.SetOf(arrivals[..|arrivals| - 1])| < k == |RO.SetOf(arrivals)|
          ==> multiset(released)[x] == 1)
  {
    var s := Setting(c, SendAll(c, items), timeout);
    var k, arrivals := c.engine.value.k, ArrivalsOf(s, evs, a);
    RunDelivers(c, items, timeout, evs, a);
    if |RO.SetOf(arrivals)| < k {
      RO.PartialGroup(k, arrivals, x);
    } else if arrivals != [] && |RO.SetOf(arrivals[..|arrivals| - 1])| < k == |RO.SetOf(arrivals)| {
      RO.CompletingArrival(k, arrivals, x);
    }
  }

  /** Exactly once, over any channel: the group's data packets are each released
      exactly once iff the group is completed once and no data of it comes
      again; what is emitted is their payloads in release order. */
  lemma {:induction false} ExactlyOnceIff(c: Config, items: seq<Item>, timeout: int, evs: seq<Event>, a: nat)
    requires GroupRun(c, items, timeout, evs, a)
    ensures var s := Setting(c, SendAll(c, items), timeout); var k, arrivals := c.engine.value.k, ArrivalsOf(s, evs, a);
      var released, payloads := RO.Run(k, arrivals).released, GroupAt(s.log, a).payloads;
      && Within(released, |payloads|) && DeliveredFor(s, evs, a) == Deliver(payloads, released)
      && (EachOnce(released, k) <==>
            RO.Completions(k, arrivals) == 1 && forall x: nat :: x < k ==> x !in RO.Run(k, arrivals).seen)
  {
    var s := Setting(c, SendAll(c, items), timeout);
    RunDelivers(c, items, timeout, evs, a);
    OnceIsEach(E(s).k, ArrivalsOf(s, evs, a));
  }

  lemma OnceIsEach(k: nat, arrivals: seq<nat>)
    requires k > 0
    ensures EachOnce(RO.Run(k, arrivals).released, k) <==>
      RO.Completions(k, arrivals) == 1 && forall x: nat :: x < k ==> x !in RO.Run(k, arrivals).seen
  {
    RO.OnceIff(k, arrivals);
    assert forall x: nat :: RO.Times(k, arrivals, x) == multiset(RO.Run(k, arrivals).released)[x];
  }

  // ---- Order-preserving, loss-only channels -------------------------------

  /** Arrivals come in wire order, each at most once. */
  ghost predicate InOrder(evs: seq<Event>) {
    forall i, j :: 0 <= i < j < |evs| && evs[i].Arrive? && evs[j].Arrive? ==> evs[i].pos < evs[j].pos
  }

  lemma ArrivalAt(s: Setting, evs: seq<Event>, a: nat, q: nat) returns (i: nat)
    requires OnWire(s, evs) && q < |ArrivalsOf(s, evs, a)|
    ensures i < |evs| && IsOf(s, evs[i], a) && s.log.wire[evs[i].pos].index == ArrivalsOf(s, evs, a)[q]
  {
    var front := evs[..|evs| - 1];
    if q < |ArrivalsOf(s, front, a)| {
      i := ArrivalAt(s, front, a, q);
    } else {
      i := |evs| - 1;
    }
  }

  lemma {:induction false} InOrderIncreases(s: Setting, evs: seq<Event>, a: nat)
    requires Sound(s) && OnWire(s, evs) && InOrder(evs)
    ensures RO.Increasing(ArrivalsOf(s, evs, a))
  {
    if evs == [] {
    } else {
      var front, ev := evs[..|evs| - 1], evs[|evs| - 1];
      InOrderIncreases(s, front, a);
      if IsOf(s, ev, a) {
        WireDatagram(s, ev.pos);
        forall q | 0 <= q < |ArrivalsOf(s, front, a)|
          ensures ArrivalsOf(s, front, a)[q] < s.log.wire[ev.pos].index
        {
          var i := ArrivalAt(s, front, a, q);
          assert evs[i] == front[i];
          WireDatagram(s, evs[i].pos);
        }
      }
    }
  }

  lemma ArrivalsBelowN(s: Setting, evs: seq<Event>, a: nat)
    requires Sound(s) && OnWire(s, evs) && InOrder(evs)
    ensures |ArrivalsOf(s, evs, a)| <= E(s).n
  {
    InOrderIncreases(s, evs, a);
    var arrivals := ArrivalsOf(s, evs, a);
    if arrivals != [] {
      var i := ArrivalAt(s, evs, a, |arrivals| - 1);
      WireDatagram(s, evs[i].pos);
      RO.IncreasingAtLeast(arrivals, |arrivals| - 1);
    }
  }

  ghost predicate EachOnce(released: seq<nat>, k: nat) {
    forall x: nat :: x < k ==> multiset(released)[x] == 1
  }

  lemma EachOnceIff(k: nat, arrivals: seq<nat>)
    requires k > 0 && RO.Increasing(arrivals)
    ensures EachOnce(RO.Run(k, arrivals).released, k) <==> k <= |arrivals| < 2 * k
  {
    RO.ExactlyOnceIff(k, arrivals);
    assert forall x: nat :: RO.Times(k, arrivals, x) == multiset(RO.Run(k, arrivals).released)[x];
  }

  /** Exactly once: on an order-preserving, loss-only channel the group's data
      packets are each released exactly once iff at least k and fewer than 2k of
      its packets arrive; what is emitted is their payloads in release order.
      At most n arrive, so with n < 2k losing up to n - k is always safe. */
  lemma {:induction false} ExactlyOnceInOrder(c: Config, items: seq<Item>, timeout: int, evs: seq<Event>, a: nat)
    requires GroupRun(c, items, timeout, evs, a) && InOrder(evs)
    ensures var s := Setting(c, SendAll(c, items), timeout); var k, arrivals := c.engine.value.k, ArrivalsOf(s, evs, a);
      var released, payloads := RO.Run(k, arrivals).released, GroupAt(s.log, a).payloads;
      && Within(released, |payloads|) && DeliveredFor(s, evs, a) == Deliver(payloads, released)
      && (EachOnce(released, k) <==> k <= |arrivals| < 2 * k)
      && |arrivals| <= c.engine.value.n
  {
    var s := Setting(c, SendAll(c, items), timeout);
    RunDelivers(c, items, timeout, evs, a);
    InOrderIncreases(s, evs, a);
    ArrivalsBelowN(s, evs, a);
    EachOnceIff(E(s).k, ArrivalsOf(s, evs, a));
  }

  /** When all n packets arrive in order, every data packet is released floor(n/k) times. */
  lemma {:induction false} LosslessRepeats(c: Config, items: seq<Item>, timeout: int, evs: seq<Event>, a: nat, x: nat)
    requires GroupRun(c, items, timeout, evs, a) && x < c.engine.value.k
    requires ArrivalsOf(Setting(c, SendAll(c, items), timeout), evs, a) == seq(c.engine.value.n, i => i)
    ensures var s := Setting(c, SendAll(c, items), timeout);
      var released, payloads := RO.Run(c.engine.value.k, ArrivalsOf(s, evs, a)).released, GroupAt(s.log, a).payloads;
      && Within(released, |payloads|) && DeliveredFor(s, evs, a) == Deliver(payloads, released)
      && multiset(released)[x] == c.engine.value.n / c.engine.value.k
  {
    RunDelivers(c, items, timeout, evs, a);
    RO.LosslessInOrder(c.engine.value.k, c.engine.value.n, x);
  }
}
