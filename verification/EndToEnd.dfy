/** Sender log, lossy channel and receiver together. */
module EndToEnd {
  import opened Words
  import opened Wrappers
  import opened Header
  import opened Crypto
  import opened ReedSolomon
  import opened FecGroup
  import opened FecSource
  import opened FecManager
  import opened Sender
  import opened SenderLog
  import opened Receiver
  import RO = ReleaseOrder

  /** The wire position that arrives, or a clean-up tick; lost datagrams never
      arrive, others arrive in any order and any number of times. */
  datatype Event = Arrive(pos: nat, now: int) | Tick(now: int)

  datatype Setting = Setting(config: Config, log: Log, timeout: int)

  /** Both ends use the same erasure code (and key). */
  ghost predicate Coded(s: Setting) {
    s.config.engine.Some? && MDS(s.config.engine.value)
  }

  /** The log is one a worker could write. */
  ghost predicate Sound(s: Setting) {
    Coded(s) && LogOk(s.config, s.log)
  }

  /** The datagram at this position is a packet of its group. */
  ghost predicate Genuine(s: Setting, pos: nat)
    requires Coded(s) && pos < |s.log.wire|
  {
    var d := s.log.wire[pos];
    d.group <= |s.log.complete| && IsGroup(E(s), Data(s, d.group)) && Available(E(s), Data(s, d.group), d.index)
  }

  function E(s: Setting): Engine
    requires s.config.engine.Some?
  {
    s.config.engine.value
  }

  ghost predicate OnWire(s: Setting, evs: seq<Event>) {
    forall i :: 0 <= i < |evs| ==> evs[i].Arrive? ==> evs[i].pos < |s.log.wire|
  }

  ghost predicate Ordered(evs: seq<Event>) {
    forall i, j :: 0 <= i < j < |evs| ==> evs[i].now <= evs[j].now
  }

  function GroupOfEvent(s: Setting, ev: Event): nat
    requires ev.Arrive? && ev.pos < |s.log.wire|
  {
    s.log.wire[ev.pos].group
  }

  /** Packets of different groups that share a number arrive more than the timeout apart. */
  ghost predicate Spaced(s: Setting, evs: seq<Event>)
    requires OnWire(s, evs)
  {
    forall i, j :: 0 <= i < j < |evs| && evs[i].Arrive? && evs[j].Arrive?
      && GroupOfEvent(s, evs[i]) != GroupOfEvent(s, evs[j])
      && GroupOfEvent(s, evs[i]) % 2048 == GroupOfEvent(s, evs[j]) % 2048
      ==> evs[j].now - evs[i].now > s.timeout
  }

  ghost predicate Channel(s: Setting, evs: seq<Event>) {
    OnWire(s, evs) && Ordered(evs) && Spaced(s, evs)
  }

  // ---- One event ----------------------------------------------------------

  function Stage(s: Setting): Mode
    requires s.config.engine.Some?
  {
    Enabled(E(s), s.timeout)
  }

  /** New table and emitted payloads. */
  function React(s: Setting, t: Table, ev: Event): (Table, seq<Bytes>)
    requires Coded(s) && TableShape(E(s), t) && (ev.Arrive? ==> ev.pos < |s.log.wire|)
  {
    match ev
    case Tick(now) => (Purge(t, s.timeout, now), [])
    case Arrive(pos, now) => Receive(Stage(s), s.config.aead, t, s.log.wire[pos].bytes, now)
  }

  function Data(s: Setting, a: nat): seq<Bytes>
    requires a <= |s.log.complete|
  {
    GroupAt(s.log, a).data
  }

  lemma WireDatagram(s: Setting, pos: nat)
    requires Sound(s) && pos < |s.log.wire|
    ensures Genuine(s, pos) && Position(s.log.wire[pos], E(s).n) == pos
    ensures DatagramOk(E(s), Data(s, s.log.wire[pos].group), s.log.wire[pos])
  {
    assert WireOk(E(s), s.log, pos);
  }

  /** The receiver hands each sender datagram to the decoder as its shard, under
      its group number modulo 2048 and its own index. */
  lemma ReactIsAdd(s: Setting, t: Table, pos: nat, now: int)
    requires Coded(s) && TableShape(E(s), t) && pos < |s.log.wire| && Genuine(s, pos)
    requires DatagramOk(E(s), Data(s, s.log.wire[pos].group), s.log.wire[pos])
    ensures var d := s.log.wire[pos];
      var shard := Shard(E(s), Data(s, d.group), d.index);
      var (after, out) := Add(E(s), s.timeout, t, shard, d.index >= E(s).k, d.group % 2048, d.index, now);
      React(s, t, Arrive(pos, now)) == (after, EmitAll(s.config.aead, out.release))
  {
    var d := s.log.wire[pos];
    assert Accepted(d.bytes);
    assert FecPart(d.bytes, d.index >= E(s).k) == FecInput(d, E(s).k);
  }

  // ---- What is emitted for a released copy --------------------------------

  ghost predicate Within(indices: seq<nat>, m: nat) {
    forall t :: 0 <= t < |indices| ==> indices[t] < m
  }

  /** The payloads of the given indices that are not empty. */
  ghost function Deliver(payloads: seq<Bytes>, indices: seq<nat>): seq<Bytes>
    requires Within(indices, |payloads|)
  {
    if indices == [] then []
    else
      var p := payloads[indices[|indices| - 1]];
      Deliver(payloads, indices[..|indices| - 1]) + if p == [] then [] else [p]
  }

  /** No payload length overflows its 16-bit field. */
  ghost predicate Untruncated(g: GroupLog) {
    forall i :: 0 <= i < |g.data| ==> |g.data[i]| - HEADER_SIZE < 0x1_0000
  }

  lemma HeaderIsPrefix(p: Bytes, q: Bytes)
    requires |p| >= HEADER_SIZE && p <= q
    ensures Deserialize(q) == Deserialize(p)
  {
    assert q[..HEADER_SIZE] == p[..HEADER_SIZE];
  }

  /** Passed through or reconstructed, a released data packet is trimmed and
      opened to the payload it was made from. */
  lemma EmitCopy(c: Config, g: GroupLog, p: Bytes, i: nat)
    requires GroupOk(c, g) && Untruncated(g) && IsCopy(p, g.data, i)
    ensures EmitOne(c.aead, p) == if g.payloads[i] == [] then [] else [g.payloads[i]]
  {
    var d := g.data[i];
    assert DataFor(c, g.payloads[i], d);
    assert d <= p;
    HeaderIsPrefix(d, p);
    assert p[HEADER_SIZE..][..|d| - HEADER_SIZE] == d[HEADER_SIZE..];
  }

  lemma {:induction false} EmitCopies(c: Config, g: GroupLog, release: seq<Bytes>, indices: seq<nat>)
    requires GroupOk(c, g) && Untruncated(g) && Copies(release, g.data, indices)
    ensures Within(indices, |g.payloads|)
    ensures EmitAll(c.aead, release) == Deliver(g.payloads, indices)
  {
    assert forall t :: 0 <= t < |indices| ==> IsCopy(release[t], g.data, indices[t]);
    if release == [] {
    } else {
      var m := |release| - 1;
      EmitCopies(c, g, release[..m], indices[..m]);
      EmitCopy(c, g, release[m], indices[m]);
    }
  }

  // ---- Whole runs ---------------------------------------------------------

  function TableAfter(s: Setting, evs: seq<Event>): (t: Table)
    requires Coded(s) && OnWire(s, evs)
    ensures TableConsistent(E(s), t) && TableShape(E(s), t)
  {
    if evs == [] then map[]
    else
      var before := TableAfter(s, evs[..|evs| - 1]);
      ReactKeepsTable(s, before, evs[|evs| - 1]);
      React(s, before, evs[|evs| - 1]).0
  }

  lemma ReactKeepsTable(s: Setting, t: Table, ev: Event)
    requires Coded(s) && TableConsistent(E(s), t) && (ev.Arrive? ==> ev.pos < |s.log.wire|)
    ensures TableShape(E(s), t)
    ensures TableConsistent(E(s), React(s, t, ev).0)
  {
    match ev
    case Tick(now) => PurgeKeepsTable(E(s), s.timeout, t, now);
    case Arrive(pos, now) =>
      var d := s.log.wire[pos].bytes;
      if Accepted(d) {
        var info := Deserialize(d).value.fecInfo;
        AddKeepsTable(E(s), s.timeout, t, FecPart(d, IsParity(info)), IsParity(info), GroupOf(info), IndexOf(info), now);
      }
  }

  /** The payloads emitted by the last event. */
  function Emitted(s: Setting, evs: seq<Event>): seq<Bytes>
    requires Coded(s) && OnWire(s, evs) && evs != []
  {
    React(s, TableAfter(s, evs[..|evs| - 1]), evs[|evs| - 1]).1
  }

  /** `g`, stored under `num`, holds packets of one group only, which bears that
      number, and it was created when a packet of that group arrived (event `i`). */
  ghost predicate OwnedBy(s: Setting, evs: seq<Event>, num: nat, g: Group, i: nat)
    requires Coded(s) && OnWire(s, evs)
  {
    && i < |evs| && evs[i].Arrive?
    && var a := GroupOfEvent(s, evs[i]);
       && a % 2048 == num && g.createdAt == evs[i].now
       && a <= |s.log.complete| && IsGroup(E(s), Data(s, a)) && HoldsOnly(E(s), Data(s, a), g)
  }

  ghost predicate Unmixed(s: Setting, evs: seq<Event>, t: Table)
    requires Coded(s) && OnWire(s, evs)
  {
    forall num :: num in t ==> exists i :: OwnedBy(s, evs, num, t[num], i)
  }

  lemma OwnedLater(s: Setting, evs: seq<Event>, ev: Event, num: nat, g: Group, i: nat)
    requires Coded(s) && OnWire(s, evs + [ev]) && OnWire(s, evs) && OwnedBy(s, evs, num, g, i)
    ensures OwnedBy(s, evs + [ev], num, g, i)
  {
  }

  lemma ChannelFront(s: Setting, evs: seq<Event>)
    requires Channel(s, evs) && evs != []
    ensures Channel(s, evs[..|evs| - 1])
  {
    var front := evs[..|evs| - 1];
    assert forall i :: 0 <= i < |front| ==> front[i] == evs[i];
  }

  lemma FreshHoldsOnly(e: Engine, data: seq<Bytes>, now: int)
    requires WellFormed(e) && IsGroup(e, data)
    ensures Consistent(e, Fresh(e, now)) && HoldsOnly(e, data, Fresh(e, now)) && Seen(Fresh(e, now)) == {}
  {
    FreshConsistent(e, now);
  }

  /** A stored group that is not stale when a packet arrives is of the packet's own generation. */
  lemma SameGeneration(s: Setting, front: seq<Event>, g: Group, pos: nat, now: int, i: nat)
    requires Coded(s) && Channel(s, front + [Arrive(pos, now)]) && OnWire(s, front) && pos < |s.log.wire| && Genuine(s, pos)
    requires OwnedBy(s, front, s.log.wire[pos].group % 2048, g, i) && !Stale(g, s.timeout, now)
    ensures GroupOfEvent(s, front[i]) == s.log.wire[pos].group
  {
    var evs := front + [Arrive(pos, now)];
    assert evs[i] == front[i] && evs[|front|] == Arrive(pos, now);
  }

  /** When a packet arrives, the state it is put into is fresh or of its own
      group, and dates from the arrival (event `i`) of a packet of that group. */
  lemma CurrentIsOwn(s: Setting, front: seq<Event>, t: Table, pos: nat, now: int) returns (i: nat)
    requires Coded(s) && Channel(s, front + [Arrive(pos, now)]) && OnWire(s, front) && pos < |s.log.wire| && Genuine(s, pos)
    requires TableConsistent(E(s), t) && Unmixed(s, front, t)
    ensures var a := s.log.wire[pos].group; var g := Current(E(s), s.timeout, Lookup(t, a % 2048), now);
      Consistent(E(s), g) && OwnedBy(s, front + [Arrive(pos, now)], a % 2048, g, i)
        && GroupOfEvent(s, (front + [Arrive(pos, now)])[i]) == a
        && (i < |front| || g == Fresh(E(s), now))
  {
    var a := s.log.wire[pos].group;
    var og := Lookup(t, a % 2048);
    if og.Some? && !Stale(og.value, s.timeout, now) {
      i :| OwnedBy(s, front, a % 2048, og.value, i);
      SameGeneration(s, front, og.value, pos, now, i);
      OwnedLater(s, front, Arrive(pos, now), a % 2048, og.value, i);
    } else {
      FreshHoldsOnly(E(s), Data(s, a), now);
      i := |front|;
    }
  }

  /** The arrival as the index account sees it. */
  lemma ArrivalRefines(s: Setting, t: Table, pos: nat, now: int)
    requires Coded(s) && pos < |s.log.wire| && Genuine(s, pos) && TableShape(E(s), t)
    requires DatagramOk(E(s), Data(s, s.log.wire[pos].group), s.log.wire[pos])
    requires var a := s.log.wire[pos].group; var g := Current(E(s), s.timeout, Lookup(t, a % 2048), now);
      Consistent(E(s), g) && HoldsOnly(E(s), Data(s, a), g)
    ensures var d := s.log.wire[pos]; var a := d.group;
      var g := Current(E(s), s.timeout, Lookup(t, a % 2048), now);
      var out := Step(E(s), s.timeout, Lookup(t, a % 2048), Shard(E(s), Data(s, a), d.index), d.index >= E(s).k, d.index, now);
      var seen := RO.Seen(E(s).k, Seen(g), d.index);
      && React(s, t, Arrive(pos, now)) == (Put(t, a % 2048, out.group), EmitAll(s.config.aead, out.release))
      && (out.group.Some? <==> seen != {})
      && (out.group.Some? ==> Seen(out.group.value) == seen && HoldsOnly(E(s), Data(s, a), out.group.value)
                              && out.group.value.createdAt == g.createdAt)
      && Copies(out.release, Data(s, a), RO.Releases(E(s).k, Seen(g), d.index))
  {
    var d := s.log.wire[pos];
    ReactIsAdd(s, t, pos, now);
    StepRefines(E(s), s.timeout, Lookup(t, d.group % 2048), Data(s, d.group), d.index, now);
  }

  lemma PutKeepsUnmixed(s: Setting, front: seq<Event>, ev: Event, t: Table, num: uint16, og: Option<Group>, i: nat)
    requires Coded(s) && OnWire(s, front) && OnWire(s, front + [ev]) && Unmixed(s, front, t)
    requires og.Some? ==> OwnedBy(s, front + [ev], num, og.value, i)
    ensures Unmixed(s, front + [ev], Put(t, num, og))
  {
    var t' := Put(t, num, og);
    forall m | m in t'
      ensures exists j :: OwnedBy(s, front + [ev], m, t'[m], j)
    {
      if m == num {
        assert OwnedBy(s, front + [ev], m, t'[m], i);
      } else {
        var j :| OwnedBy(s, front, m, t[m], j);
        OwnedLater(s, front, ev, m, t[m], j);
      }
    }
  }

  lemma PurgeKeepsUnmixed(s: Setting, front: seq<Event>, ev: Event, t: Table)
    requires Coded(s) && OnWire(s, front) && OnWire(s, front + [ev]) && Unmixed(s, front, t)
    ensures Unmixed(s, front + [ev], Purge(t, s.timeout, ev.now))
  {
    var t' := Purge(t, s.timeout, ev.now);
    forall m | m in t'
      ensures exists j :: OwnedBy(s, front + [ev], m, t'[m], j)
    {
      var j :| OwnedBy(s, front, m, t[m], j);
      OwnedLater(s, front, ev, m, t[m], j);
    }
  }

  /** No generation mix, over every run: while different groups with one number
      arrive more than the timeout apart, every stored state holds packets of a
      single group, so no reconstruction ever combines two. */
  lemma {:induction false} NoGenerationMix(s: Setting, evs: seq<Event>)
    requires Sound(s) && Channel(s, evs)
    ensures Unmixed(s, evs, TableAfter(s, evs))
  {
    if evs == [] {
    } else {
      var front, ev := evs[..|evs| - 1], evs[|evs| - 1];
      assert evs == front + [ev];
      ChannelFront(s, evs);
      NoGenerationMix(s, front);
      var t := TableAfter(s, front);
      if ev.Arrive? {
        var d := s.log.wire[ev.pos];
        WireDatagram(s, ev.pos);
        var i := CurrentIsOwn(s, front, t, ev.pos, ev.now);
        ArrivalRefines(s, t, ev.pos, ev.now);
        var og := Lookup(React(s, t, ev).0, d.group % 2048);
        PutKeepsUnmixed(s, front, ev, t, d.group % 2048, og, i);
        assert React(s, t, ev).0 == Put(t, d.group % 2048, og);
      } else {
        PurgeKeepsUnmixed(s, front, ev, t);
      }
    }
  }

  /** Whatever an event emits is a payload of the very group whose packet arrived. */
  lemma {:induction false} EmittedIsOfGroup(s: Setting, evs: seq<Event>, p: Bytes)
    requires Sound(s) && Channel(s, evs) && evs != [] && p in Emitted(s, evs)
    requires forall a :: 0 <= a <= |s.log.complete| ==> Untruncated(GroupAt(s.log, a))
    ensures var ev := evs[|evs| - 1];
      && ev.Arrive? && GroupOfEvent(s, ev) <= |s.log.complete|
      && p in GroupAt(s.log, GroupOfEvent(s, ev)).payloads
  {
    var front, ev := evs[..|evs| - 1], evs[|evs| - 1];
    assert evs == front + [ev];
    ChannelFront(s, evs);
    WireDatagram(s, ev.pos);
    EmissionOf(s, front, ev.pos, ev.now, p);
  }

  /** A run of the worker on items that fit the 16-bit length field. */
  ghost predicate GoodRun(c: Config, items: seq<Item>) {
    && c.engine.Some? && MDS(c.engine.value) && GoodConfig(c)
    && forall i :: 0 <= i < |items| ==> GoodItem(items[i]) && |items[i].payload| + Overhead(c) < 0x1_0000
  }

  lemma GoodRunIsSound(c: Config, items: seq<Item>, timeout: int)
    requires GoodRun(c, items)
    ensures var s := Setting(c, SendAll(c, items), timeout);
      && Sound(s) && forall a :: 0 <= a <= |s.log.complete| ==> Untruncated(GroupAt(s.log, a))
  {
    EveryRunIsFramed(c, items);
    var log := SendAll(c, items);
    forall a | 0 <= a <= |log.complete|
      ensures Untruncated(GroupAt(log, a))
    {
      PayloadsBounded(c, items, 0xFFFF - Overhead(c), a);
      assert GroupOk(c, GroupAt(log, a));
      forall i | 0 <= i < |GroupAt(log, a).data|
        ensures |GroupAt(log, a).data[i]| - HEADER_SIZE < 0x1_0000
      {
        assert GroupAt(log, a).payloads[i] in GroupAt(log, a).payloads;
      }
    }
  }

  /** Soundness, over every run with losses, duplicates and reordering: whatever
      is emitted is, byte for byte, a payload the sender's worker dequeued. */
  lemma {:induction false} EmittedWasDequeued(c: Config, items: seq<Item>, timeout: int, evs: seq<Event>, p: Bytes)
    requires GoodRun(c, items)
    requires var s := Setting(c, SendAll(c, items), timeout); Channel(s, evs) && evs != [] && p in Emitted(s, evs)
    ensures exists i :: 0 <= i < |items| && items[i].payload == p
  {
    var s := Setting(c, SendAll(c, items), timeout);
    GoodRunIsSound(c, items, timeout);
    EmittedIsOfGroup(s, evs, p);
    LogIsDequeued(c, items);
    LoggedContains(s.log, GroupOfEvent(s, evs[|evs| - 1]), p);
    var i := SealedFrom(c, items, p);
  }

  /** A packet put into a fresh state or one of its own group makes the receiver
      emit the payloads of the indices the account names. */
  lemma ArrivalEmits(s: Setting, t: Table, pos: nat, now: int)
    requires Coded(s) && pos < |s.log.wire| && Genuine(s, pos) && TableShape(E(s), t)
    requires DatagramOk(E(s), Data(s, s.log.wire[pos].group), s.log.wire[pos])
    requires var a := s.log.wire[pos].group; var g := Current(E(s), s.timeout, Lookup(t, a % 2048), now);
      Consistent(E(s), g) && HoldsOnly(E(s), Data(s, a), g)
    requires GroupOk(s.config, GroupAt(s.log, s.log.wire[pos].group)) && Untruncated(GroupAt(s.log, s.log.wire[pos].group))
    ensures var d := s.log.wire[pos]; var g := Current(E(s), s.timeout, Lookup(t, d.group % 2048), now);
      var indices := RO.Releases(E(s).k, Seen(g), d.index); var payloads := GroupAt(s.log, d.group).payloads;
      Within(indices, |payloads|) && React(s, t, Arrive(pos, now)).1 == Deliver(payloads, indices)
  {
    var d := s.log.wire[pos];
    ArrivalRefines(s, t, pos, now);
    var out := Step(E(s), s.timeout, Lookup(t, d.group % 2048), Shard(E(s), Data(s, d.group), d.index),
                    d.index >= E(s).k, d.index, now);
    var g := Current(E(s), s.timeout, Lookup(t, d.group % 2048), now);
    EmitCopies(s.config, GroupAt(s.log, d.group), out.release, RO.Releases(E(s).k, Seen(g), d.index));
  }

  /** An emission of an arrival is a payload of its group. */
  lemma EmissionOf(s: Setting, front: seq<Event>, pos: nat, now: int, p: Bytes)
    requires Sound(s) && Channel(s, front + [Arrive(pos, now)]) && Channel(s, front) && pos < |s.log.wire| && Genuine(s, pos)
    requires Untruncated(GroupAt(s.log, s.log.wire[pos].group)) && p in React(s, TableAfter(s, front), Arrive(pos, now)).1
    ensures p in GroupAt(s.log, s.log.wire[pos].group).payloads
  {
    var t, d := TableAfter(s, front), s.log.wire[pos];
    WireDatagram(s, pos);
    NoGenerationMix(s, front);
    var i := CurrentIsOwn(s, front, t, pos, now);
    assert GroupOk(s.config, GroupAt(s.log, d.group));
    ArrivalEmits(s, t, pos, now);
    var g := Current(E(s), s.timeout, Lookup(t, d.group % 2048), now);
    DeliverContains(GroupAt(s.log, d.group).payloads, RO.Releases(E(s).k, Seen(g), d.index), p);
  }

  lemma DeliverContains(payloads: seq<Bytes>, indices: seq<nat>, p: Bytes)
    requires Within(indices, |payloads|)
    ensures p in Deliver(payloads, indices) <==> p != [] && exists t :: 0 <= t < |indices| && payloads[indices[t]] == p
  {
    if indices == [] {
    } else {
      var front := indices[..|indices| - 1];
      DeliverContains(payloads, front, p);
      if t :| 0 <= t < |indices| && payloads[indices[t]] == p {
        if t < |front| { assert payloads[front[t]] == p; }
      }
    }
  }

  // ---- Without decoding ---------------------------------------------------

  /** With FEC off at both ends every arriving datagram yields its payload. */
  lemma {:induction false} PlainDelivery(c: Config, s: State, item: Item, m: Mode, t: Table, now: int)
    requires c.engine.None? && GoodConfig(c) && GoodItem(item) && StateFits(c, s) && Sealable(c, item)
    requires !m.Enabled? && |item.payload| + Overhead(c) < 0x1_0000
    ensures SendStep(c, s, item).1 == [DataPacket(c, s, item.time, Body(c, item).value)]
    ensures Receive(m, c.aead, t, DataPacket(c, s, item.time, Body(c, item).value), now)
      == (t, if item.payload == [] then [] else [item.payload])
  {
    var body := Body(c, item).value;
    BodyOpens(c, item);
    PlainArrival(c, s.seqNum, item.time, body, item.payload, m, t, now);
  }

  lemma PlainArrival(c: Config, seqNum: uint32, time: int64, body: Bytes, payload: Bytes, m: Mode, t: Table, now: int)
    requires Opens(c, body, payload) && |body| < 0x1_0000 && !m.Enabled?
    ensures Receive(m, c.aead, t, Packet(seqNum, time, 0, body), now) == (t, if payload == [] then [] else [payload])
  {
    PacketParts(seqNum, time, 0, body);
    PlainEmits(c, seqNum, time, body, payload);
    EmitSingle(c.aead, Packet(seqNum, time, 0, body));
  }

  lemma PlainEmits(c: Config, seqNum: uint32, time: int64, body: Bytes, payload: Bytes)
    requires Opens(c, body, payload) && |body| < 0x1_0000
    ensures EmitOne(c.aead, Packet(seqNum, time, 0, body)) == if payload == [] then [] else [payload]
  {
    PacketParts(seqNum, time, 0, body);
    assert body[..|body|] == body;
  }

  lemma EmitSingle(aead: Option<Aead>, p: Bytes)
    ensures EmitAll(aead, [p]) == EmitOne(aead, p)
  {
    assert [p][..0] == [];
    assert EmitAll(aead, []) + EmitOne(aead, p) == EmitOne(aead, p);
  }

  /** What the receiver reads out of a trimmed payload. */
  function Opening(aead: Option<Aead>, body: Bytes): Option<Bytes> {
    if aead.Some? then Decrypt(aead.value, body) else Some(body)
  }

  predicate Nothing(o: Option<Bytes>) {
    o.None? || o.value == []
  }

  /** A packet yields nothing when it is shorter than its length field says, or
      what is left does not open or is empty; otherwise it yields what it opens to. */
  lemma EmitOneIs(aead: Option<Aead>, p: Bytes)
    requires |p| >= HEADER_SIZE
    ensures var len := Deserialize(p).value.payloadLen;
      EmitOne(aead, p) ==
        if |p| - HEADER_SIZE < len || Nothing(Opening(aead, p[HEADER_SIZE..][..len])) then []
        else [Opening(aead, p[HEADER_SIZE..][..len]).value]
  {
  }

  lemma ParityIsLong(s: Setting, pos: nat)
    requires Sound(s) && pos < |s.log.wire| && s.log.wire[pos].index >= E(s).k
    ensures Genuine(s, pos)
    ensures var d := s.log.wire[pos]; |Data(s, d.group)| == E(s).k && |Shard(E(s), Data(s, d.group), d.index)| >= HEADER_SIZE
  {
    WireDatagram(s, pos);
    var d := s.log.wire[pos];
    var data := Data(s, d.group);
    assert GroupOk(s.config, GroupAt(s.log, d.group));
    GroupLongest(E(s), data);
    LongestBounds(data);
    assert DataFor(s.config, GroupAt(s.log, d.group).payloads[0], data[0]);
  }

  /** A parity datagram is ignored while there is no FEC manager. One that is
      switched off passes the parity shard on as if it were a data packet: its
      garbage is emitted unless the shard's own length field exceeds it, or what
      the field leaves does not open, or is empty. */
  lemma {:induction false} DisabledForwardsParity(s: Setting, pos: nat, m: Mode, t: Table, now: int)
    requires Sound(s) && pos < |s.log.wire| && s.log.wire[pos].index >= E(s).k && !m.Enabled?
    ensures Genuine(s, pos)
    ensures var d := s.log.wire[pos]; var shard := Shard(E(s), Data(s, d.group), d.index);
      && |shard| >= HEADER_SIZE
      && var len := Deserialize(shard).value.payloadLen;
         var out := Receive(m, s.config.aead, t, d.bytes, now).1;
      && (out == [] <==> m.NoManager? || |shard| - HEADER_SIZE < len
                         || Nothing(Opening(s.config.aead, shard[HEADER_SIZE..][..len])))
      && (out != [] ==> out == [Opening(s.config.aead, shard[HEADER_SIZE..][..len]).value])
  {
    WireDatagram(s, pos);
    ParityIsLong(s, pos);
    var d := s.log.wire[pos];
    var shard := Shard(E(s), Data(s, d.group), d.index);
    EmitSingle(s.config.aead, shard);
    EmitOneIs(s.config.aead, shard);
  }
}
