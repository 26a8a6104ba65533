/** A lossless stream that is corrupted when a group number comes round within the timeout. */
module Reuse {
  import opened Words
  import opened Wrappers
  import opened Header
  import opened ReedSolomon
  import opened FecGroup
  import opened FecSource
  import opened FecManager
  import opened Sender
  import opened SenderLog
  import opened Receiver
  import opened EndToEnd
  import opened Delivery
  import opened SumCode
  import opened Wraparound
  import RO = ReleaseOrder

  /** Byte for byte: the older pair's sum without the newer packet. */
  function Crossed(x: Bytes, y: Bytes, q: Bytes): (r: Bytes)
    requires |x| == |y| == |q|
    ensures |r| == |x|
  {
    seq(|x|, p requires 0 <= p < |x| => (x[p] as int + y[p] as int - q[p] as int) % 256)
  }

  lemma NegateTwice(o: nat, q: byte)
    ensures Negate(q as int + Negate(o) as int) == (o - q as int) % 256
  {
    var t := NegateSum(o);
    var d := o - q as int;
    assert d == 256 * (d / 256) + d % 256;
    NegateIs(q as int + Negate(o) as int, d % 256, t - d / 256);
  }

  /** The older parity and the newer first packet rebuild a second packet that is neither. */
  lemma MixedFill(x: Bytes, y: Bytes, q: Bytes)
    requires |x| == |y| == |q| > 0
    ensures Fill([q, [], SumOf(x, y)]) == [q, Crossed(x, y, q), SumOf(x, y)]
  {
    var shards: seq<Bytes> := [q, [], SumOf(x, y)];
    assert shards[1..] == [[], SumOf(x, y)] && shards[1..][1..] == [SumOf(x, y)] && shards[1..][1..][1..] == [];
    forall p | 0 <= p < |q|
      ensures Balance(shards, |q|)[p] == Crossed(x, y, q)[p]
    {
      assert Column(shards[1..], p) == Column(shards[1..][1..], p) == SumOf(x, y)[p] as int;
      assert Column(shards, p) == q[p] as int + SumOf(x, y)[p] as int;
      NegateTwice(x[p] as int + y[p] as int, q[p]);
    }
    assert Balance(shards, |q|) == Crossed(x, y, q);
  }

  /** The older parity under index 2, the newer first packet under index 0. */
  function Pair(older: seq<Bytes>, newer: seq<Bytes>): Source {
    map[2 := older, 0 := newer]
  }

  lemma MixedPair(older: seq<Bytes>, newer: seq<Bytes>)
    requires |older| == 2 && 0 < |newer| <= 2 && |older[0]| == |older[1]| == |newer[0]| > 0
    requires MDS(SumEngine(2)) && IsGroup(SumEngine(2), older) && IsGroup(SumEngine(2), newer)
    ensures Sources(SumEngine(2), Pair(older, newer))
    ensures Mixture(SumEngine(2), Pair(older, newer)) == [newer[0], [], SumOf(older[0], older[1])]
  {
    var e, src := SumEngine(2), Pair(older, newer);
    PairParity(older);
    var p := Packets(e, src);
    var shards: seq<Bytes> := [newer[0], [], SumOf(older[0], older[1])];
    assert p == shards;
    LongestBounds(p);
    assert |p[0]| == |p[2]| == Longest(p);
    assert Mixture(e, src) == shards;
  }

  lemma RebuiltPair(older: seq<Bytes>, newer: seq<Bytes>)
    requires |older| == 2 && 0 < |newer| <= 2 && |older[0]| == |older[1]| == |newer[0]| > 0
    requires MDS(SumEngine(2)) && IsGroup(SumEngine(2), older) && IsGroup(SumEngine(2), newer)
    ensures Sources(SumEngine(2), Pair(older, newer))
    ensures Rebuilt(SumEngine(2), Pair(older, newer)) == [Crossed(older[0], older[1], newer[0])]
  {
    MixedPair(older, newer);
    MixedFill(older[0], older[1], newer[0]);
    var e, src := SumEngine(2), Pair(older, newer);
    assert seq(e.k, j requires 0 <= j < e.k => j in src) == [true, false];
    OnlySecond(e.rebuild(Mixture(e, src)), [true, false]);
  }

  lemma OnlySecond(word: seq<Bytes>, sent: seq<bool>)
    requires |word| == 3 && sent == [true, false]
    ensures Unsent(word, sent, 0) == [word[1]]
  {
    assert Unsent(word, sent, 2) == [];
    assert Unsent(word, sent, 1) == [word[1]];
  }

  /** Three packets of one payload length cross to a packet of that length. */
  lemma CrossedCarries(x: Bytes, y: Bytes, q: Bytes, u: Bytes, v: Bytes, w: Bytes)
    requires |u| == |v| == |w| && Carries(x, u) && Carries(y, v) && Carries(q, w)
    ensures Carries(Crossed(x, y, q), Crossed(u, v, w))
  {
    var r := Crossed(x, y, q);
    assert forall p :: 13 <= p < 15 ==> x[p] == x[13..15][p - 13] && y[p] == y[13..15][p - 13] && q[p] == q[13..15][p - 13];
    assert r[13..15] == x[13..15];
    assert forall p :: 0 <= p < |u| ==>
      x[HEADER_SIZE + p] == u[p] && y[HEADER_SIZE + p] == v[p] && q[HEADER_SIZE + p] == w[p];
    assert r[HEADER_SIZE..] == Crossed(u, v, w);
  }

  lemma CarriedIsEmitted(p: Bytes, payload: Bytes)
    requires Carries(p, payload) && 0 < |payload| < 0x1_0000
    ensures EmitOne(None, p) == [payload]
  {
    LengthBytes(p, |payload|);
    EmitOneIs(None, p);
    assert p[HEADER_SIZE..][..|payload|] == payload;
  }

  lemma CrossedEmits(x: Bytes, y: Bytes, q: Bytes, u: Bytes, v: Bytes, w: Bytes)
    requires |u| == |v| == |w| && 0 < |u| < 0x1_0000 && Carries(x, u) && Carries(y, v) && Carries(q, w)
    ensures EmitOne(None, q) + EmitOne(None, Crossed(x, y, q)) == [w, Crossed(u, v, w)]
  {
    CrossedCarries(x, y, q, u, v, w);
    CarriedIsEmitted(q, w);
    CarriedIsEmitted(Crossed(x, y, q), Crossed(u, v, w));
  }

  lemma EmitTwo(p: Bytes, q: Bytes)
    ensures EmitAll(None, [p] + [q]) == EmitOne(None, p) + EmitOne(None, q)
  {
    assert ([p] + [q])[..1] == [p];
    EmitSingle(None, p);
  }

  /** The parity of group `a` alone is left in its slot when the first packet of
      a later group with its number comes, within the timeout. */
  ghost predicate Collision(s: Setting, front: seq<Event>, a: nat, b: nat, now: int) {
    && Sound(s) && Channel(s, front) && InTime(s, front, a)
    && a != b && a % 2048 == b % 2048
    && ArrivalsOf(s, front, a) != [] && RO.Run(2, ArrivalsOf(s, front, a)).seen == {2}
    && front[|front| - 1].now <= now <= FirstTime(s, front, a) + s.timeout
  }

  lemma CollisionEmits(s: Setting, items: seq<Item>, len: nat, front: seq<Event>, a: nat, b: nat, now: int)
    requires Collision(s, front, a, b, now) && s.config == PAIRS && Uniform(items, len) && Fills(PAIRS, items, s.log)
    requires a < |s.log.complete| && |GroupAt(s.log, a).data| == 2 && Untruncated(GroupAt(s.log, a))
    requires 2 * a + 1 < |items| && 2 * b < |items|
    ensures Start(b, 3) < |s.log.wire| && s.log.wire[Start(b, 3)].group == b && s.log.wire[Start(b, 3)].index == 0
    ensures React(s, TableAfter(s, front), Arrive(Start(b, 3), now)).1
      == [items[2 * b].payload, Crossed(items[2 * a].payload, items[2 * a + 1].payload, items[2 * b].payload)]
  {
    PairsAreGood();
    Positions(items, s.log, b);
    LeftoverHolds(s, front, a, now);
    LogCarries(items, len, s.log, a, b);
    Collide(s, TableAfter(s, front), a, b, now, items[2 * a].payload, items[2 * a + 1].payload, items[2 * b].payload);
  }

  /** On such a collision the receiver emits the newer payload and, behind it,
      the byte-wise sum of the older payloads less the newer one. */
  lemma {:induction false} LeftoverParityCorrupts(items: seq<Item>, len: nat, timeout: int, front: seq<Event>, a: nat, b: nat, now: int)
    requires Uniform(items, len) && 2 * a + 2 <= |items| && 2 * b < |items| && GoodConfig(PAIRS)
    requires Collision(Setting(PAIRS, SendAll(PAIRS, items), timeout), front, a, b, now)
    ensures var s := Setting(PAIRS, SendAll(PAIRS, items), timeout);
      && Start(b, 3) < |s.log.wire| && s.log.wire[Start(b, 3)].group == b && s.log.wire[Start(b, 3)].index == 0
      && React(s, TableAfter(s, front), Arrive(Start(b, 3), now)).1
         == [items[2 * b].payload, Crossed(items[2 * a].payload, items[2 * a + 1].payload, items[2 * b].payload)]
  {
    UniformRun(items, len, timeout);
    PairIsLogged(items, len, a);
    GoodRunIsSound(PAIRS, items, timeout);
    CollisionEmits(Setting(PAIRS, SendAll(PAIRS, items), timeout), items, len, front, a, b, now);
  }

  /** The first packet of group `b` is on the wire. */
  lemma Positions(items: seq<Item>, log: Log, b: nat)
    requires GoodConfig(PAIRS) && LogOk(PAIRS, log) && Fills(PAIRS, items, log) && 2 * b < |items|
    ensures b <= |log.complete| && 0 < |GroupAt(log, b).data|
    ensures Start(b, 3) < |log.wire| && log.wire[Start(b, 3)].group == b && log.wire[Start(b, 3)].index == 0
  {
    assert GroupOk(PAIRS, GroupAt(log, |log.complete|));
    StartIsProduct(|log.complete|, 2);
    PacketAt(PAIRS, log, b, 0);
  }

  lemma LogCarries(items: seq<Item>, len: nat, log: Log, a: nat, b: nat)
    requires Uniform(items, len) && GoodConfig(PAIRS) && LogOk(PAIRS, log) && Fills(PAIRS, items, log)
    requires a <= |log.complete| && |GroupAt(log, a).data| == 2 && b <= |log.complete| && 0 < |GroupAt(log, b).data|
    requires 2 * a + 1 < |items| && 2 * b < |items|
    ensures Carries(GroupAt(log, a).data[0], items[2 * a].payload) && Carries(GroupAt(log, a).data[1], items[2 * a + 1].payload)
    ensures Carries(GroupAt(log, b).data[0], items[2 * b].payload)
  {
    assert GroupOk(PAIRS, GroupAt(log, a)) && GroupOk(PAIRS, GroupAt(log, b));
    StartIsProduct(a, 2);
    StartIsProduct(b, 2);
    UniformData(PAIRS, items, len, log, a, 0);
    UniformData(PAIRS, items, len, log, a, 1);
    UniformData(PAIRS, items, len, log, b, 0);
  }

  /** The slot holds the older parity, and it is not stale. */
  ghost predicate Leftover(s: Setting, t: Table, a: nat, now: int)
    requires Coded(s) && a <= |s.log.complete| && IsGroup(E(s), Data(s, a))
  {
    && TableShape(E(s), t) && TableConsistent(E(s), t) && a % 2048 in t
    && var g := t[a % 2048];
       HoldsOnly(E(s), Data(s, a), g) && Seen(g) == {2} && !Stale(g, s.timeout, now)
  }

  lemma LeftoverHolds(s: Setting, front: seq<Event>, a: nat, now: int)
    requires Sound(s) && E(s).k == 2 && a < |s.log.complete| && Untruncated(GroupAt(s.log, a))
    requires Channel(s, front) && InTime(s, front, a)
    requires ArrivalsOf(s, front, a) != [] && RO.Run(2, ArrivalsOf(s, front, a)).seen == {2}
    requires front[|front| - 1].now <= now <= FirstTime(s, front, a) + s.timeout
    ensures IsGroup(E(s), Data(s, a)) && Leftover(s, TableAfter(s, front), a, now)
  {
    GroupIsGroup(s, a);
    GroupDelivery(s, front, a);
  }

  lemma LeftoverHeld(e: Engine, data: seq<Bytes>, g: Group)
    requires WellFormed(e) && IsGroup(e, data) && Consistent(e, g) && HoldsOnly(e, data, g) && Seen(g) == {2}
    ensures HoldsFrom(e, map[2 := data], g)
  {
    var src: Source := map[2 := data];
    assert 2 in Seen(g);
    forall j | 0 <= j < e.n
      ensures g.packets[j] == Packets(e, src)[j]
    {
      assert g.received[j] <==> j in Seen(g);
    }
  }

  lemma CollideEmits(s: Setting, t: Table, a: nat, b: nat, now: int, r: Bytes)
    requires Sound(s) && a <= |s.log.complete| && b <= |s.log.complete| && a % 2048 == b % 2048 && s.config.aead.None?
    requires IsGroup(E(s), Data(s, a)) && IsGroup(E(s), Data(s, b)) && Leftover(s, t, a, now) && 0 < |Data(s, b)|
    requires var p := Start(b, E(s).n); p < |s.log.wire| && s.log.wire[p].group == b && s.log.wire[p].index == 0
    requires Decodes(E(s).k, {2}, 0) && Sources(E(s), Pair(Data(s, a), Data(s, b)))
    requires Rebuilt(E(s), Pair(Data(s, a), Data(s, b))) == [r]
    ensures React(s, t, Arrive(Start(b, E(s).n), now)).1 == EmitOne(None, Data(s, b)[0]) + EmitOne(None, r)
  {
    var pos := Start(b, E(s).n);
    WireDatagram(s, pos);
    ReactIsAdd(s, t, pos, now);
    PairStep(E(s), s.timeout, t[a % 2048], Data(s, a), Data(s, b), now);
    EmitTwo(Data(s, b)[0], r);
  }

  lemma PairStep(e: Engine, timeout: int, g: Group, older: seq<Bytes>, newer: seq<Bytes>, now: int)
    requires WellFormed(e) && IsGroup(e, older) && IsGroup(e, newer) && 0 < |newer| && Sources(e, Pair(older, newer))
    requires Consistent(e, g) && HoldsOnly(e, older, g) && Seen(g) == {2} && !Stale(g, timeout, now) && Decodes(e.k, {2}, 0)
    ensures Step(e, timeout, Some(g), newer[0], false, 0, now).release == [newer[0]] + Rebuilt(e, Pair(older, newer))
  {
    var src: Source := map[2 := older];
    LeftoverHeld(e, older, g);
    SlotIff(e, timeout, Some(g), src, newer, 0, now);
    assert src[0 := newer] == Pair(older, newer) && src.Keys == {2};
  }

  lemma DecodesPair()
    ensures Decodes(2, {2}, 0)
  {
    assert 1 in Upto(2);
  }

  /** The collision itself, in terms of the three payloads. */
  lemma Collide(s: Setting, t: Table, a: nat, b: nat, now: int, u: Bytes, v: Bytes, w: Bytes)
    requires s.config == PAIRS && Sound(s) && a <= |s.log.complete| && b <= |s.log.complete| && a % 2048 == b % 2048
    requires IsGroup(E(s), Data(s, a)) && Leftover(s, t, a, now)
    requires Start(b, 3) < |s.log.wire| && s.log.wire[Start(b, 3)].group == b && s.log.wire[Start(b, 3)].index == 0
    requires |Data(s, a)| == 2 && 0 < |Data(s, b)| && |u| == |v| == |w| && 0 < |u| < 0x1_0000
    requires Carries(Data(s, a)[0], u) && Carries(Data(s, a)[1], v) && Carries(Data(s, b)[0], w)
    ensures React(s, t, Arrive(Start(b, 3), now)).1 == [w, Crossed(u, v, w)]
  {
    GroupIsGroup(s, b);
    DecodesPair();
    PairsAreGood();
    RebuiltPair(Data(s, a), Data(s, b));
    CollideEmits(s, t, a, b, now, Crossed(Data(s, a)[0], Data(s, a)[1], Data(s, b)[0]));
    CrossedEmits(Data(s, a)[0], Data(s, a)[1], Data(s, b)[0], u, v, w);
  }

  // ---- Nothing lost, nothing reordered: 4097 packets arriving together ------

  const ITEMS: seq<Item> := seq(4097, j => Item(if j < 2 then [1] else [0], None, 0, (i: nat) => 0))

  /** The first m datagrams of the wire, in order, all at one time. */
  function InSequence(m: nat, now: int): (evs: seq<Event>)
    ensures |evs| == m
  {
    seq(m, p requires 0 <= p < m => Arrive(p, now))
  }

  lemma EarlyGroup(s: Setting, p: nat)
    requires Sound(s) && E(s).n == 3 && p < |s.log.wire| && p < 6144
    ensures s.log.wire[p].group < 2048
    ensures s.log.wire[p].group == 0 <==> p < 3
    ensures p < 3 ==> s.log.wire[p].index == p
  {
    NumberAt(s.config, s.log, p);
    var a := s.log.wire[p].group;
    StartIsProduct(a, 3);
    StartIsProduct(2048, 3);
  }

  lemma SequenceIsSpaced(s: Setting, m: nat, now: int)
    requires Sound(s) && E(s).n == 3 && m <= |s.log.wire| && m <= 6144
    ensures Channel(s, InSequence(m, now))
  {
    var evs := InSequence(m, now);
    forall i | 0 <= i < m
      ensures GroupOfEvent(s, evs[i]) % 2048 == GroupOfEvent(s, evs[i])
    {
      EarlyGroup(s, i);
    }
  }

  lemma SequenceInTime(s: Setting, m: nat, now: int)
    requires OnWire(s, InSequence(m, now)) && s.timeout >= 0
    ensures InTime(s, InSequence(m, now), 0)
    ensures ArrivalsOf(s, InSequence(m, now), 0) != [] ==> FirstTime(s, InSequence(m, now), 0) == now
  {
    if ArrivalsOf(s, InSequence(m, now), 0) != [] {
      var f := FirstEvent(s, InSequence(m, now), 0);
    }
  }

  lemma {:induction false} SequenceArrivals(s: Setting, m: nat, now: int)
    requires Sound(s) && E(s).n == 3 && m <= |s.log.wire| && m <= 6144
    ensures OnWire(s, InSequence(m, now))
    ensures ArrivalsOf(s, InSequence(m, now), 0) == [0, 1, 2][..if m < 3 then m else 3]
  {
    if m == 0 {
    } else {
      SequenceArrivals(s, m - 1, now);
      assert InSequence(m, now)[..m - 1] == InSequence(m - 1, now);
      EarlyGroup(s, m - 1);
      var all: seq<nat> := [0, 1, 2];
      if m <= 3 { assert all[..m] == all[..m - 1] + [m - 1]; }
    }
  }

  /** All three packets of a group in order leave its parity behind. */
  lemma ParityIsLeft()
    ensures RO.Run(2, [0, 1, 2]).seen == {2}
  {
    var all: seq<nat> := [0, 1, 2];
    assert all[..2] == [0, 1] && all[..2][..1] == [0] && all[..2][..1][..0] == [];
    assert RO.Run(2, all[..2][..1]).seen == {0};
    assert RO.Run(2, all[..2]).seen == {};
  }

  lemma SequenceCollides(s: Setting, t0: int, now: int)
    requires Sound(s) && E(s).n == 3 && 6144 <= |s.log.wire| && t0 <= now <= t0 + s.timeout
    ensures Collision(s, InSequence(6144, t0), 0, 2048, now)
  {
    SequenceIsSpaced(s, 6144, t0);
    SequenceInTime(s, 6144, t0);
    SequenceArrivals(s, 6144, t0);
    var all: seq<nat> := [0, 1, 2];
    assert all[..3] == all;
    ParityIsLeft();
  }

  lemma ItemsAreUniform()
    ensures Uniform(ITEMS, 1) && GoodConfig(PAIRS) && |ITEMS| == 4097
    ensures ITEMS[0].payload == ITEMS[1].payload == [1] && ITEMS[4096].payload == [0]
  {
    PairsAreGood();
  }

  lemma WireLength(items: seq<Item>, log: Log)
    requires GoodConfig(PAIRS) && LogOk(PAIRS, log) && Fills(PAIRS, items, log) && |items| == 4097
    ensures |log.wire| == 6145
  {
    assert GroupOk(PAIRS, GroupAt(log, |log.complete|));
    StartIsProduct(|log.complete|, 2);
    StartIsProduct(|log.complete|, 3);
  }

  lemma LastEmits(s: Setting, front: seq<Event>, ev: Event)
    requires Coded(s) && OnWire(s, front) && ev.Arrive? && ev.pos < |s.log.wire|
    ensures OnWire(s, front + [ev]) && Emitted(s, front + [ev]) == React(s, TableAfter(s, front), ev).1
  {
    assert (front + [ev])[..|front|] == front;
  }

  lemma SequenceEmits(s: Setting, items: seq<Item>, len: nat, t0: int, now: int)
    requires Sound(s) && s.config == PAIRS && Uniform(items, len) && Fills(PAIRS, items, s.log)
    requires t0 <= now <= t0 + s.timeout && 6144 < |s.log.wire| && 4096 < |items|
    requires 0 < |s.log.complete| && |GroupAt(s.log, 0).data| == 2 && Untruncated(GroupAt(s.log, 0))
    ensures OnWire(s, InSequence(6144, t0) + [Arrive(6144, now)])
    ensures Emitted(s, InSequence(6144, t0) + [Arrive(6144, now)])
      == [items[4096].payload, Crossed(items[0].payload, items[1].payload, items[4096].payload)]
  {
    PairsAreGood();
    StartIsProduct(2048, 3);
    SequenceCollides(s, t0, now);
    CollisionEmits(s, items, len, InSequence(6144, t0), 0, 2048, now);
    LastEmits(s, InSequence(6144, t0), Arrive(6144, now));
  }

  lemma SequenceIsOrdered(t0: int, now: int)
    requires t0 <= now
    ensures var evs := InSequence(6144, t0) + [Arrive(6144, now)];
      |evs| == 6145 && Ordered(evs) && forall p :: 0 <= p < |evs| ==> evs[p].Arrive? && evs[p].pos == p
  {
  }

  /** 4097 packets of one length are sent, nothing is lost, duplicated or
      reordered, and group 2048 begins within the timeout of group 0: behind the
      last payload the receiver emits a packet crossed from three others. */
  lemma {:induction false} LosslessReuseCrosses(items: seq<Item>, len: nat, timeout: int, t0: int, now: int)
    requires Uniform(items, len) && |items| == 4097 && t0 <= now <= t0 + timeout
    ensures GoodRun(PAIRS, items)
    ensures var s := Setting(PAIRS, SendAll(PAIRS, items), timeout); var evs := InSequence(6144, t0) + [Arrive(6144, now)];
      && |s.log.wire| == |evs| && OnWire(s, evs) && Ordered(evs)
      && (forall p :: 0 <= p < |evs| ==> evs[p].Arrive? && evs[p].pos == p)
      && Emitted(s, evs) == [items[4096].payload, Crossed(items[0].payload, items[1].payload, items[4096].payload)]
  {
    UniformRun(items, len, timeout);
    PairIsLogged(items, len, 0);
    GoodRunIsSound(PAIRS, items, timeout);
    var s := Setting(PAIRS, SendAll(PAIRS, items), timeout);
    WireLength(items, s.log);
    SequenceEmits(s, items, len, t0, now);
    SequenceIsOrdered(t0, now);
  }

  /** A packet nobody sent: from [1], [1] and 4095 times [0], the receiver makes [2]. */
  lemma {:induction false} LosslessReuseCorrupts(timeout: int, t0: int, now: int)
    requires t0 <= now <= t0 + timeout
    ensures GoodRun(PAIRS, ITEMS)
    ensures var s := Setting(PAIRS, SendAll(PAIRS, ITEMS), timeout); var evs := InSequence(6144, t0) + [Arrive(6144, now)];
      && |s.log.wire| == |evs| && OnWire(s, evs) && Emitted(s, evs) == [[0], [2]]
    ensures forall j :: 0 <= j < |ITEMS| ==> ITEMS[j].payload != [2]
  {
    ItemsAreUniform();
    assert Crossed([1], [1], [0]) == [2];
    LosslessReuseCrosses(ITEMS, 1, timeout, t0, now);
  }
}
