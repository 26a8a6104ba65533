/** The sender's whole output as a log: which packet of which group every
    datagram is, and what each one says about itself. */
module SenderLog {
  import opened Words
  import opened Wrappers
  import opened Header
  import opened Crypto
  import opened ReedSolomon
  import opened FecGroup
  import opened FecSource
  import opened Sender

  /** A datagram tagged with its absolute group, its index there, and the
      number of sequence numbers burnt by failed encryptions before it. */
  datatype Datagram = Datagram(group: nat, index: nat, burnt: nat, bytes: Bytes)

  datatype GroupLog = GroupLog(payloads: seq<Bytes>, data: seq<Bytes>)

  datatype Log = Log(state: State, complete: seq<GroupLog>, partial: GroupLog, wire: seq<Datagram>, failures: nat)

  const EMPTY := Log(State(0, 0, []), [], GroupLog([], []), [], 0)

  /** Tag the packets one worker iteration sent: the data packet, then parity. */
  function Tag(log: Log, k: nat, out: seq<Bytes>): seq<Datagram> {
    seq(|out|, t requires 0 <= t < |out| =>
      Datagram(|log.complete|, if t == 0 then |log.partial.data| else k + t - 1, log.failures, out[t]))
  }

  function LogStep(c: Config, log: Log, item: Item): (r: Log)
    requires c.engine.Some? && StateFits(c, log.state)
    ensures StateFits(c, r.state)
  {
    var (s, out) := SendStep(c, log.state, item);
    if out == [] then log.(state := s, failures := log.failures + 1)
    else
      var grown := GroupLog(log.partial.payloads + [item.payload], log.partial.data + [out[0]]);
      var wire := log.wire + Tag(log, c.engine.value.k, out);
      if |grown.data| == c.engine.value.k
      then Log(s, log.complete + [grown], GroupLog([], []), wire, log.failures)
      else Log(s, log.complete, grown, wire, log.failures)
  }

  function SendAll(c: Config, items: seq<Item>): (r: Log)
    requires c.engine.Some? && StateFits(c, EMPTY.state)
    ensures StateFits(c, r.state)
  {
    if items == [] then EMPTY else LogStep(c, SendAll(c, items[..|items| - 1]), items[|items| - 1])
  }

  function Untag(wire: seq<Datagram>): (r: seq<Bytes>)
    ensures |r| == |wire|
  {
    seq(|wire|, i requires 0 <= i < |wire| => wire[i].bytes)
  }

  /** The log adds nothing to what the worker sends and does. */
  lemma {:induction false} LogIsWire(c: Config, items: seq<Item>)
    requires c.engine.Some? && StateFits(c, EMPTY.state)
    ensures SendBytes(c, items) == (SendAll(c, items).state, Untag(SendAll(c, items).wire))
  {
    if items == [] {
    } else {
      LogIsWire(c, items[..|items| - 1]);
      var log := SendAll(c, items[..|items| - 1]);
      var out := SendStep(c, log.state, items[|items| - 1]).1;
      assert Untag(log.wire + Tag(log, c.engine.value.k, out)) == Untag(log.wire) + out;
      assert Untag(log.wire) + [] == Untag(log.wire);
    }
  }

  function GroupAt(log: Log, a: nat): GroupLog
    requires a <= |log.complete|
  {
    if a < |log.complete| then log.complete[a] else log.partial
  }

  // ---- What one packet says about itself ----------------------------------

  /** The receiver, holding the same key, reads `payload` out of `body`. */
  ghost predicate Opens(c: Config, body: Bytes, payload: Bytes) {
    if c.aead.None? then body == payload else Decrypt(c.aead.value, body) == Some(payload)
  }

  function Overhead(c: Config): nat {
    if c.aead.None? then 0 else 28
  }

  /** `bytes` is packet (group, index) of the stream, under sequence number `seqNum`. */
  ghost predicate Framed(bytes: Bytes, parity: bool, group: nat, index: nat, seqNum: uint32) {
    var h := Deserialize(bytes);
    && h.Some?
    && h.value.version == CURRENT_VERSION && h.value.seqNum == seqNum
    && h.value.payloadLen == (|bytes| - HEADER_SIZE) % 0x1_0000
    && IsParity(h.value.fecInfo) == parity
    && GroupOf(h.value.fecInfo) == group % 2048
    && IndexOf(h.value.fecInfo) == index
  }

  ghost predicate DataFor(c: Config, payload: Bytes, bytes: Bytes) {
    && |bytes| == HEADER_SIZE + |payload| + Overhead(c)
    && Opens(c, bytes[HEADER_SIZE..], payload)
    && Deserialize(bytes).Some?
    && Deserialize(bytes).value.payloadLen == (|bytes| - HEADER_SIZE) % 0x1_0000
  }

  ghost predicate GroupOk(c: Config, g: GroupLog) {
    && |g.payloads| == |g.data|
    && forall i :: 0 <= i < |g.data| ==> DataFor(c, g.payloads[i], g.data[i])
  }

  /** The part of a datagram the receiver gives to its FEC layer. */
  function FecInput(d: Datagram, k: nat): Bytes
    requires d.index < k || |d.bytes| >= HEADER_SIZE
  {
    if d.index < k then d.bytes else d.bytes[HEADER_SIZE..]
  }

  /** Where a group starts on the wire when `n` packets make a group. */
  function Start(group: nat, n: nat): nat {
    if group == 0 then 0 else Start(group - 1, n) + n
  }

  lemma StartIsProduct(group: nat, n: nat)
    ensures Start(group, n) == group * n
  {
    if group == 0 {
    } else {
      StartIsProduct(group - 1, n);
    }
  }

  function Position(d: Datagram, n: nat): nat {
    Start(d.group, n) + d.index
  }

  ghost predicate DatagramOk(e: Engine, data: seq<Bytes>, d: Datagram)
    requires WellFormed(e)
  {
    && IsGroup(e, data) && Available(e, data, d.index)
    && Framed(d.bytes, d.index >= e.k, d.group, d.index, Advance(0, Position(d, e.n) + d.burnt))
    && FecInput(d, e.k) == Shard(e, data, d.index)
  }

  /** The worker's registers in terms of what it has sent. */
  ghost predicate StateOk(e: Engine, log: Log) {
    && log.state == State(Advance(0, |log.wire| + log.failures), |log.complete| % 2048, log.partial.data)
    && |log.wire| == Start(|log.complete|, e.n) + |log.partial.data|
    && |log.partial.data| < e.k
  }

  ghost predicate LogOk(c: Config, log: Log)
    requires c.engine.Some? && WellFormed(c.engine.value)
  {
    var e := c.engine.value;
    && StateOk(e, log)
    && (forall a :: 0 <= a <= |log.complete| ==> GroupOk(c, GroupAt(log, a)))
    && (forall a :: 0 <= a < |log.complete| ==> |log.complete[a].data| == e.k)
    && (forall p :: 0 <= p < |log.wire| ==> WireOk(e, log, p))
  }

  ghost predicate WireOk(e: Engine, log: Log, p: nat)
    requires WellFormed(e) && p < |log.wire|
  {
    var d := log.wire[p];
    && d.group <= |log.complete|
    && DatagramOk(e, GroupAt(log, d.group).data, d)
    && Position(d, e.n) == p && d.burnt <= log.failures
  }

  // ---- Every run of the worker keeps its log well framed ------------------

  lemma PacketParts(seqNum: uint32, time: int64, fecInfo: uint16, body: Bytes)
    ensures var p := Packet(seqNum, time, fecInfo, body);
      && |p| == HEADER_SIZE + |body| && p[HEADER_SIZE..] == body
      && Deserialize(p) == Some(Header(CURRENT_VERSION, seqNum, time, |body| % 0x1_0000, fecInfo))
  {
    DeserializeImage(Header(CURRENT_VERSION, seqNum, time, |body| % 0x1_0000, fecInfo), body);
  }

  lemma BodyOpens(c: Config, item: Item)
    requires GoodConfig(c) && GoodItem(item) && Body(c, item).Some?
    ensures |Body(c, item).value| == |item.payload| + Overhead(c)
    ensures Opens(c, Body(c, item).value, item.payload)
  {
    if c.aead.Some? { DecryptEncrypt(c.aead.value, item.nonce.value, item.payload); }
  }

  lemma DataPacketOk(c: Config, s: State, item: Item)
    requires c.engine.Some? && GoodConfig(c) && GoodItem(item) && Body(c, item).Some?
    requires StateFits(c, s)
    ensures var p := DataPacket(c, s, item.time, Body(c, item).value);
      && DataFor(c, item.payload, p)
      && Framed(p, false, s.groupNum, |s.pending|, s.seqNum)
  {
    var body := Body(c, item).value;
    BodyOpens(c, item);
    FieldParts(false, s.groupNum, |s.pending|);
    FramedBy(s.seqNum, item.time, FecField(false, s.groupNum, |s.pending|), false, s.groupNum, |s.pending|, body);
  }

  lemma FramedBy(seqNum: uint32, time: int64, fecInfo: uint16, parity: bool, group: nat, index: nat, body: Bytes)
    requires IsParity(fecInfo) == parity && GroupOf(fecInfo) == group % 2048 && IndexOf(fecInfo) == index
    ensures var p := Packet(seqNum, time, fecInfo, body);
      && Framed(p, parity, group, index, seqNum)
      && |p| == HEADER_SIZE + |body| && p[HEADER_SIZE..] == body
  {
    PacketParts(seqNum, time, fecInfo, body);
  }

  lemma ParityPacketOk(e: Engine, data: seq<Bytes>, group: nat, i: nat, seqNum: uint32, time: int64)
    requires WellFormed(e) && e.n <= 16 && IsGroup(e, data) && |data| == e.k && e.k <= i < e.n
    ensures var p := ParityPacket(seqNum, group % 2048, i, Shard(e, data, i), time);
      && Framed(p, true, group, i, seqNum)
      && |p| >= HEADER_SIZE && p[HEADER_SIZE..] == Shard(e, data, i)
  {
    FieldParts(true, group % 2048, i);
    FramedBy(seqNum, time, FecField(true, group % 2048, i), true, group, i, Shard(e, data, i));
  }

  lemma AdvanceAdvance(a: nat, b: nat)
    ensures Advance(Advance(0, a), b) == Advance(0, a + b)
    ensures NextSeq(Advance(0, a)) == Advance(0, a + 1)
  {
  }

  lemma NextGroupOf(a: nat)
    ensures NextGroup(a % 2048) == (a + 1) % 2048
  {
  }

  /** Full groups always encode: data packets are never empty. */
  lemma FullGroupEncodes(e: Engine, data: seq<Bytes>)
    requires WellFormed(e) && IsGroup(e, data) && |data| == e.k
    ensures ParityOf(Some(e), data).Some? && |ParityOf(Some(e), data).value| == e.n - e.k
    ensures forall i :: e.k <= i < e.n ==> ParityOf(Some(e), data).value[i - e.k] == Shard(e, data, i)
  {
    GroupLongest(e, data);
    EncodeSize(e, Aligned(data), Longest(data));
  }

  lemma GrownGroup(c: Config, g: GroupLog, payload: Bytes, pkt: Bytes)
    requires c.engine.Some? && WellFormed(c.engine.value) && GroupOk(c, g) && |g.data| < c.engine.value.k
    requires DataFor(c, payload, pkt)
    ensures var h := GroupLog(g.payloads + [payload], g.data + [pkt]);
      GroupOk(c, h) && IsGroup(c.engine.value, h.data) && IsGroup(c.engine.value, g.data)
  {
  }

  /** A datagram of a group stays right while the group grows. */
  lemma StillOk(e: Engine, data: seq<Bytes>, longer: seq<Bytes>, d: Datagram)
    requires WellFormed(e) && DatagramOk(e, data, d) && IsGroup(e, longer)
    requires |data| < e.k && data <= longer
    ensures DatagramOk(e, longer, d)
  {
  }

  /** `grown` continues `log`: earlier groups are untouched, the current one got longer. */
  ghost predicate Continues(e: Engine, log: Log, grown: Log)
    requires WellFormed(e)
  {
    && |log.complete| <= |grown.complete|
    && log.wire <= grown.wire && log.failures <= grown.failures
    && (forall a :: 0 <= a < |log.complete| ==> GroupAt(grown, a) == GroupAt(log, a))
    && log.partial.data <= GroupAt(grown, |log.complete|).data
    && IsGroup(e, GroupAt(grown, |log.complete|).data)
  }

  lemma OldWireOk(c: Config, log: Log, grown: Log, p: nat)
    requires c.engine.Some? && WellFormed(c.engine.value) && LogOk(c, log)
    requires Continues(c.engine.value, log, grown) && p < |log.wire|
    ensures WireOk(c.engine.value, grown, p)
  {
    var e := c.engine.value;
    var d := log.wire[p];
    assert WireOk(e, log, p) && grown.wire[p] == d;
    if d.group == |log.complete| {
      StillOk(e, log.partial.data, GroupAt(grown, d.group).data, d);
    }
  }

  /** The data packet of an iteration is the next position on the wire. */
  lemma NewDataOk(c: Config, log: Log, item: Item, data: seq<Bytes>)
    requires c.engine.Some? && GoodConfig(c) && GoodItem(item) && StateOk(c.engine.value, log) && Body(c, item).Some?
    requires var pkt := DataPacket(c, log.state, item.time, Body(c, item).value);
      data == log.partial.data + [pkt] && IsGroup(c.engine.value, data)
    ensures var pkt := DataPacket(c, log.state, item.time, Body(c, item).value);
      var d := Datagram(|log.complete|, |log.partial.data|, log.failures, pkt);
      DatagramOk(c.engine.value, data, d) && Position(d, c.engine.value.n) == |log.wire|
  {
    DataPacketOk(c, log.state, item);
    var pkt := DataPacket(c, log.state, item.time, Body(c, item).value);
    NewDatagramOk(c.engine.value, log, data, pkt);
  }

  lemma NewDatagramOk(e: Engine, log: Log, data: seq<Bytes>, pkt: Bytes)
    requires WellFormed(e) && StateOk(e, log) && IsGroup(e, data) && data == log.partial.data + [pkt]
    requires Framed(pkt, false, log.state.groupNum, |log.partial.data|, log.state.seqNum)
    ensures var d := Datagram(|log.complete|, |log.partial.data|, log.failures, pkt);
      DatagramOk(e, data, d) && Position(d, e.n) == |log.wire|
  {
    var d := Datagram(|log.complete|, |log.partial.data|, log.failures, pkt);
    assert Position(d, e.n) == |log.wire|;
    assert Framed(pkt, false, d.group, d.index, log.state.seqNum);
    assert FecInput(d, e.k) == pkt == Shard(e, data, d.index);
  }

  lemma NewParityOk(e: Engine, log: Log, data: seq<Bytes>, i: nat, time: int64)
    requires WellFormed(e) && e.n <= 16 && StateOk(e, log)
    requires IsGroup(e, data) && |data| == e.k == |log.partial.data| + 1 && i < e.n - e.k
    ensures var seqNum := Advance(NextSeq(log.state.seqNum), i);
      var pkt := ParityPacket(seqNum, log.state.groupNum, e.k + i, Shard(e, data, e.k + i), time);
      var d := Datagram(|log.complete|, e.k + i, log.failures, pkt);
      DatagramOk(e, data, d) && Position(d, e.n) == |log.wire| + 1 + i
  {
    var seqNum := Advance(NextSeq(log.state.seqNum), i);
    var pkt := ParityPacket(seqNum, log.state.groupNum, e.k + i, Shard(e, data, e.k + i), time);
    var d := Datagram(|log.complete|, e.k + i, log.failures, pkt);
    ParityPacketOk(e, data, |log.complete|, e.k + i, seqNum, time);
    assert Position(d, e.n) == |log.wire| + 1 + i;
    assert FecInput(d, e.k) == Shard(e, data, d.index);
    assert Framed(d.bytes, true, d.group, d.index, seqNum);
    assert seqNum == Advance(0, Position(d, e.n) + d.burnt) by {
      AdvanceAdvance(|log.wire| + log.failures, 0);
      AdvanceAdvance(|log.wire| + log.failures + 1, i);
    }
  }

  lemma StepFails(c: Config, log: Log, item: Item)
    requires c.engine.Some? && GoodConfig(c) && LogOk(c, log) && Body(c, item).None?
    ensures LogOk(c, LogStep(c, log, item))
  {
    var grown := LogStep(c, log, item);
    AdvanceAdvance(|log.wire| + log.failures, 1);
    forall p | 0 <= p < |grown.wire|
      ensures WireOk(c.engine.value, grown, p)
    {
      assert WireOk(c.engine.value, log, p);
    }
    assert forall a :: 0 <= a <= |log.complete| ==> GroupAt(grown, a) == GroupAt(log, a);
  }

  lemma StepGrows(c: Config, log: Log, item: Item)
    requires c.engine.Some? && GoodConfig(c) && GoodItem(item) && LogOk(c, log) && Body(c, item).Some?
    requires |log.partial.data| + 1 < c.engine.value.k
    ensures LogOk(c, LogStep(c, log, item))
  {
    var e := c.engine.value;
    var grown := LogStep(c, log, item);
    var pkt := DataPacket(c, log.state, item.time, Body(c, item).value);
    AdvanceAdvance(|log.wire| + log.failures, 1);
    assert GroupOk(c, GroupAt(log, |log.complete|));
    DataPacketOk(c, log.state, item);
    GrownGroup(c, log.partial, item.payload, pkt);
    NewDataOk(c, log, item, grown.partial.data);
    assert Tag(log, e.k, [pkt]) == [Datagram(|log.complete|, |log.partial.data|, log.failures, pkt)];
    forall p | 0 <= p < |grown.wire|
      ensures WireOk(e, grown, p)
    {
      if p < |log.wire| { OldWireOk(c, log, grown, p); }
    }
    forall a | 0 <= a <= |grown.complete|
      ensures GroupOk(c, GroupAt(grown, a))
    {
      assert GroupOk(c, GroupAt(log, a));
    }
  }

  /** What an iteration that completes a group sends. */
  lemma CompletingOutput(c: Config, log: Log, item: Item, data: seq<Bytes>, i: nat)
    requires c.engine.Some? && GoodConfig(c) && StateOk(c.engine.value, log) && Body(c, item).Some?
    requires |log.partial.data| + 1 == c.engine.value.k && IsGroup(c.engine.value, data)
    requires data == log.partial.data + [DataPacket(c, log.state, item.time, Body(c, item).value)]
    ensures var e := c.engine.value; var out := SendStep(c, log.state, item).1;
      && |out| == 1 + e.n - e.k && out[0] == data[e.k - 1]
      && (i < e.n - e.k ==> out[1 + i] == ParityPacket(Advance(NextSeq(log.state.seqNum), i), log.state.groupNum,
                                                       e.k + i, Shard(e, data, e.k + i), item.parityTime(i)))
  {
    FullGroupEncodes(c.engine.value, data);
  }

  /** The datagrams of an iteration that completes a group. */
  lemma CompletingDatagrams(c: Config, log: Log, item: Item, data: seq<Bytes>, t: nat)
    requires c.engine.Some? && GoodConfig(c) && GoodItem(item) && StateOk(c.engine.value, log) && Body(c, item).Some?
    requires |log.partial.data| + 1 == c.engine.value.k && IsGroup(c.engine.value, data)
    requires data == log.partial.data + [DataPacket(c, log.state, item.time, Body(c, item).value)]
    requires t <= c.engine.value.n - c.engine.value.k
    ensures |SendStep(c, log.state, item).1| == 1 + c.engine.value.n - c.engine.value.k
    ensures var d := Datagram(|log.complete|, if t == 0 then |log.partial.data| else c.engine.value.k + t - 1,
                              log.failures, SendStep(c, log.state, item).1[t]);
      && DatagramOk(c.engine.value, data, d) && Position(d, c.engine.value.n) == |log.wire| + t
  {
    var e, out := c.engine.value, SendStep(c, log.state, item).1;
    if t == 0 {
      CompletingOutput(c, log, item, data, 0);
      NewDataOk(c, log, item, data);
      assert out[0] == DataPacket(c, log.state, item.time, Body(c, item).value);
    } else {
      CompletingOutput(c, log, item, data, t - 1);
      NewParityOk(e, log, data, t - 1, item.parityTime(t - 1));
      assert out[t] == ParityPacket(Advance(NextSeq(log.state.seqNum), t - 1), log.state.groupNum,
                                    e.k + (t - 1), Shard(e, data, e.k + (t - 1)), item.parityTime(t - 1));
    }
  }

  lemma CompletedState(c: Config, log: Log, item: Item, data: seq<Bytes>)
    requires c.engine.Some? && GoodConfig(c) && GoodItem(item) && StateOk(c.engine.value, log) && Body(c, item).Some?
    requires |log.partial.data| + 1 == c.engine.value.k && IsGroup(c.engine.value, data)
    requires data == log.partial.data + [DataPacket(c, log.state, item.time, Body(c, item).value)]
    ensures var grown := LogStep(c, log, item);
      && StateOk(c.engine.value, grown) && grown.failures == log.failures
      && grown.complete == log.complete + [GroupLog(log.partial.payloads + [item.payload], data)]
      && grown.partial == GroupLog([], [])
      && grown.wire == log.wire + Tag(log, c.engine.value.k, SendStep(c, log.state, item).1)
      && |grown.wire| == |log.wire| + 1 + c.engine.value.n - c.engine.value.k
  {
    var e := c.engine.value;
    FullGroupEncodes(e, data);
    CompletingDatagrams(c, log, item, data, 0);
    AdvanceAdvance(|log.wire| + log.failures, 1);
    AdvanceAdvance(|log.wire| + log.failures + 1, e.n - e.k);
    NextGroupOf(|log.complete|);
  }

  lemma CompletedWire(c: Config, log: Log, item: Item, data: seq<Bytes>, p: nat)
    requires c.engine.Some? && GoodConfig(c) && GoodItem(item) && LogOk(c, log) && Body(c, item).Some?
    requires |log.partial.data| + 1 == c.engine.value.k && IsGroup(c.engine.value, data)
    requires data == log.partial.data + [DataPacket(c, log.state, item.time, Body(c, item).value)]
    requires p < |LogStep(c, log, item).wire|
    ensures WireOk(c.engine.value, LogStep(c, log, item), p)
  {
    var e, grown := c.engine.value, LogStep(c, log, item);
    CompletedState(c, log, item, data);
    CompletingWire(e, log, grown, data);
    if p < |log.wire| {
      OldWireOk(c, log, grown, p);
    } else {
      CompletedNew(c, log, item, data, p - |log.wire|);
    }
  }

  lemma CompletedNew(c: Config, log: Log, item: Item, data: seq<Bytes>, t: nat)
    requires c.engine.Some? && GoodConfig(c) && GoodItem(item) && LogOk(c, log) && Body(c, item).Some?
    requires |log.partial.data| + 1 == c.engine.value.k && IsGroup(c.engine.value, data)
    requires data == log.partial.data + [DataPacket(c, log.state, item.time, Body(c, item).value)]
    requires |log.wire| + t < |LogStep(c, log, item).wire|
    ensures WireOk(c.engine.value, LogStep(c, log, item), |log.wire| + t)
  {
    var e, grown := c.engine.value, LogStep(c, log, item);
    CompletedState(c, log, item, data);
    CompletingWire(e, log, grown, data);
    CompletingDatagrams(c, log, item, data, t);
    TaggedAt(c, log, item, grown, t);
    NewWireOk(e, grown, data, |log.complete|, |log.wire| + t);
  }

  lemma TaggedAt(c: Config, log: Log, item: Item, grown: Log, t: nat)
    requires c.engine.Some? && StateFits(c, log.state)
    requires grown.wire == log.wire + Tag(log, c.engine.value.k, SendStep(c, log.state, item).1)
    requires t < |SendStep(c, log.state, item).1|
    ensures |log.wire| + t < |grown.wire| && grown.wire[|log.wire| + t] ==
      Datagram(|log.complete|, if t == 0 then |log.partial.data| else c.engine.value.k + t - 1,
               log.failures, SendStep(c, log.state, item).1[t])
  {
  }

  lemma CompletingWire(e: Engine, log: Log, grown: Log, data: seq<Bytes>)
    requires WellFormed(e) && |grown.complete| == |log.complete| + 1 && grown.complete[..|log.complete|] == log.complete
    requires grown.complete[|log.complete|].data == data && log.partial.data <= data && IsGroup(e, data)
    requires log.wire <= grown.wire && log.failures <= grown.failures
    ensures Continues(e, log, grown) && GroupAt(grown, |log.complete|).data == data
  {
  }

  lemma NewWireOk(e: Engine, grown: Log, data: seq<Bytes>, a: nat, p: nat)
    requires WellFormed(e) && p < |grown.wire| && a <= |grown.complete| && GroupAt(grown, a).data == data
    requires grown.wire[p].group == a && DatagramOk(e, data, grown.wire[p])
    requires Position(grown.wire[p], e.n) == p && grown.wire[p].burnt <= grown.failures
    ensures WireOk(e, grown, p)
  {
  }

  lemma StepCompletes(c: Config, log: Log, item: Item)
    requires c.engine.Some? && GoodConfig(c) && GoodItem(item) && LogOk(c, log) && Body(c, item).Some?
    requires |log.partial.data| + 1 == c.engine.value.k
    ensures LogOk(c, LogStep(c, log, item))
  {
    var grown := LogStep(c, log, item);
    var pkt := DataPacket(c, log.state, item.time, Body(c, item).value);
    var data := log.partial.data + [pkt];
    assert GroupOk(c, GroupAt(log, |log.complete|));
    DataPacketOk(c, log.state, item);
    GrownGroup(c, log.partial, item.payload, pkt);
    CompletedState(c, log, item, data);
    forall p | 0 <= p < |grown.wire|
      ensures WireOk(c.engine.value, grown, p)
    {
      CompletedWire(c, log, item, data, p);
    }
    forall a | 0 <= a <= |grown.complete|
      ensures GroupOk(c, GroupAt(grown, a))
    {
      if a < |log.complete| { assert GroupOk(c, GroupAt(log, a)); }
    }
  }

  /** Framing: over every run, datagram p of the wire carries sequence number
      p plus the numbers burnt so far (modulo 2^32), names its group modulo 2048
      and its index, and holds the shard of that group and index; data packets
      open to the payloads dequeued, in order. */
  lemma {:induction false} EveryRunIsFramed(c: Config, items: seq<Item>)
    requires c.engine.Some? && GoodConfig(c)
    requires forall i :: 0 <= i < |items| ==> GoodItem(items[i])
    ensures LogOk(c, SendAll(c, items))
  {
    if items == [] {
    } else {
      var front, item := items[..|items| - 1], items[|items| - 1];
      EveryRunIsFramed(c, front);
      var log := SendAll(c, front);
      if Body(c, item).None? {
        StepFails(c, log, item);
      } else if |log.partial.data| + 1 < c.engine.value.k {
        StepGrows(c, log, item);
      } else {
        StepCompletes(c, log, item);
      }
    }
  }

  // ---- Where every packet is on the wire -----------------------------------

  lemma StartGrows(a: nat, b: nat, n: nat)
    requires a < b
    ensures Start(b, n) >= Start(a, n) + n
  {
    if a + 1 == b {
    } else {
      StartGrows(a, b - 1, n);
    }
  }

  lemma NumberAt(c: Config, log: Log, p: nat)
    requires c.engine.Some? && WellFormed(c.engine.value) && LogOk(c, log) && p < |log.wire|
    ensures var d := log.wire[p];
      && Position(d, c.engine.value.n) == p && d.index < c.engine.value.n && d.burnt <= log.failures
      && Deserialize(d.bytes).Some? && Deserialize(d.bytes).value.seqNum == Advance(0, p + d.burnt)
  {
    assert WireOk(c.engine.value, log, p);
  }

  /** How many packets of group `a` the log holds. */
  function Made(c: Config, log: Log, a: nat): nat
    requires c.engine.Some? && a <= |log.complete|
  {
    if a < |log.complete| then c.engine.value.n else |log.partial.data|
  }

  /** Packet `i` of group `a` is on the wire `i` places behind the group's start. */
  lemma PacketAt(c: Config, log: Log, a: nat, i: nat)
    requires c.engine.Some? && WellFormed(c.engine.value) && LogOk(c, log)
    requires a <= |log.complete| && i < Made(c, log, a)
    ensures var p := Start(a, c.engine.value.n) + i;
      p < |log.wire| && log.wire[p].group == a && log.wire[p].index == i
  {
    var n, p := c.engine.value.n, Start(a, c.engine.value.n) + i;
    OnWireIs(c.engine.value, log, a, i);
    NumberAt(c, log, p);
    OnePlace(log.wire[p], a, i, n);
  }

  lemma OnWireIs(e: Engine, log: Log, a: nat, i: nat)
    requires StateOk(e, log) && e.k <= e.n && a <= |log.complete|
    requires i < if a < |log.complete| then e.n else |log.partial.data|
    ensures Start(a, e.n) + i < |log.wire| && i < e.n
  {
    if a < |log.complete| { StartGrows(a, |log.complete|, e.n); }
  }

  lemma OnePlace(d: Datagram, a: nat, i: nat, n: nat)
    requires d.index < n && i < n && Position(d, n) == Start(a, n) + i
    ensures d.group == a && d.index == i
  {
    if d.group < a {
      StartGrows(d.group, a, n);
    } else if a < d.group {
      StartGrows(a, d.group, n);
    }
  }

  lemma GroupsAdvance(c: Config, log: Log, p: nat, q: nat)
    requires c.engine.Some? && WellFormed(c.engine.value) && LogOk(c, log) && p <= q < |log.wire|
    ensures log.wire[p].group <= log.wire[q].group <= |log.complete|
  {
    var e := c.engine.value;
    assert WireOk(e, log, p) && WireOk(e, log, q);
    if log.wire[q].group < log.wire[p].group {
      StartGrows(log.wire[q].group, log.wire[p].group, e.n);
    }
  }

  lemma PositionIsPlace(d: Datagram, n: nat)
    ensures Position(d, n) == d.group * n + d.index
  {
    StartIsProduct(d.group, n);
  }

  /** The sequence number of a datagram is its group times n plus its index,
      plus the numbers burnt before it, modulo 2^32. */
  lemma {:induction false} SequenceNumbers(c: Config, items: seq<Item>, p: nat)
    requires c.engine.Some? && GoodConfig(c) && p < |SendAll(c, items).wire|
    requires forall i :: 0 <= i < |items| ==> GoodItem(items[i])
    ensures var d := SendAll(c, items).wire[p];
      && p == d.group * c.engine.value.n + d.index && d.index < c.engine.value.n
      && d.burnt <= SendAll(c, items).failures
      && Deserialize(d.bytes).Some?
      && Deserialize(d.bytes).value.seqNum == (d.group * c.engine.value.n + d.index + d.burnt) % 0x1_0000_0000
  {
    EveryRunIsFramed(c, items);
    NumberAt(c, SendAll(c, items), p);
    PositionIsPlace(SendAll(c, items).wire[p], c.engine.value.n);
  }

  // ---- Runs in which no encryption fails -----------------------------------

  ghost predicate NoFailures(c: Config, items: seq<Item>) {
    forall i :: 0 <= i < |items| ==> GoodItem(items[i]) && Sealable(c, items[i])
  }

  /** Every item is in the log: k to a full group, the rest in the last one. */
  ghost predicate Fills(c: Config, items: seq<Item>, log: Log)
    requires c.engine.Some?
  {
    && log.failures == 0
    && Start(|log.complete|, c.engine.value.k) + |log.partial.payloads| == |items|
    && forall a, i :: 0 <= a <= |log.complete| && 0 <= i < |GroupAt(log, a).payloads| ==> ItemAt(c, items, log, a, i)
  }

  ghost predicate ItemAt(c: Config, items: seq<Item>, log: Log, a: nat, i: nat)
    requires c.engine.Some? && a <= |log.complete| && i < |GroupAt(log, a).payloads|
  {
    var j := Start(a, c.engine.value.k) + i;
    j < |items| && GroupAt(log, a).payloads[i] == items[j].payload
  }

  lemma FillsStep(c: Config, front: seq<Item>, item: Item, log: Log)
    requires c.engine.Some? && GoodConfig(c) && LogOk(c, log) && Fills(c, front, log)
    requires GoodItem(item) && Body(c, item).Some?
    ensures StateFits(c, log.state) && Fills(c, front + [item], LogStep(c, log, item))
  {
    assert StateFits(c, log.state);
    assert GroupOk(c, GroupAt(log, |log.complete|));
    var items, grown := front + [item], LogStep(c, log, item);
    forall a, i | 0 <= a <= |grown.complete| && 0 <= i < |GroupAt(grown, a).payloads|
      ensures ItemAt(c, items, grown, a, i)
    {
      if a <= |log.complete| && i < |GroupAt(log, a).payloads| {
        assert ItemAt(c, front, log, a, i);
      }
    }
  }

  lemma {:induction false} RunFills(c: Config, items: seq<Item>)
    requires c.engine.Some? && GoodConfig(c) && NoFailures(c, items)
    ensures LogOk(c, SendAll(c, items)) && Fills(c, items, SendAll(c, items))
  {
    EveryRunIsFramed(c, items);
    if items == [] {
    } else {
      var front, item := items[..|items| - 1], items[|items| - 1];
      RunFills(c, front);
      FillsStep(c, front, item, SendAll(c, front));
      assert items == front + [item];
    }
  }

  // ---- The payloads in the log are the payloads dequeued ------------------

  function Concat(parts: seq<GroupLog>): seq<Bytes> {
    if parts == [] then [] else Concat(parts[..|parts| - 1]) + parts[|parts| - 1].payloads
  }

  function Logged(log: Log): seq<Bytes> {
    Concat(log.complete) + log.partial.payloads
  }

  /** The dequeued payloads whose encryption succeeded, in order. */
  function Sealed(c: Config, items: seq<Item>): seq<Bytes> {
    if items == [] then []
    else
      var item := items[|items| - 1];
      Sealed(c, items[..|items| - 1]) + if Sealable(c, item) then [item.payload] else []
  }

  /** Nothing but what was dequeued enters the log, in order and without loss. */
  lemma {:induction false} LogIsDequeued(c: Config, items: seq<Item>)
    requires c.engine.Some? && StateFits(c, EMPTY.state)
    ensures Logged(SendAll(c, items)) == Sealed(c, items)
  {
    if items == [] {
    } else {
      var front, item := items[..|items| - 1], items[|items| - 1];
      LogIsDequeued(c, front);
      var log, next := SendAll(c, front), SendAll(c, items);
      if Body(c, item).Some? {
        var grown := GroupLog(log.partial.payloads + [item.payload], log.partial.data + [SendStep(c, log.state, item).1[0]]);
        if |grown.data| == c.engine.value.k {
          assert next.complete[..|next.complete| - 1] == log.complete;
        }
        assert Concat(log.complete) + (log.partial.payloads + [item.payload]) == Logged(log) + [item.payload];
      }
    }
  }

  lemma ConcatContains(parts: seq<GroupLog>, a: nat, p: Bytes)
    requires a < |parts| && p in parts[a].payloads
    ensures p in Concat(parts)
  {
    if a == |parts| - 1 {
    } else {
      ConcatContains(parts[..|parts| - 1], a, p);
    }
  }

  lemma LoggedContains(log: Log, a: nat, p: Bytes)
    requires a <= |log.complete| && p in GroupAt(log, a).payloads
    ensures p in Logged(log)
  {
    if a < |log.complete| { ConcatContains(log.complete, a, p); }
  }

  lemma SealedFrom(c: Config, items: seq<Item>, p: Bytes) returns (i: nat)
    requires p in Sealed(c, items)
    ensures i < |items| && items[i].payload == p
  {
    var item := items[|items| - 1];
    if p in Sealed(c, items[..|items| - 1]) {
      i := SealedFrom(c, items[..|items| - 1], p);
    } else {
      i := |items| - 1;
    }
  }

  // ---- Size bound ---------------------------------------------------------

  /** The largest multicast packet the sender accepts. */
  function MaxPayload(mtu: int, encryption: bool): int {
    var link := if mtu < 576 then 1500 else mtu;
    link - 20 - 8 - 17 - 17 - (if encryption then 28 else 0)
  }

  lemma GroupLengths(c: Config, g: GroupLog, cap: nat, i: nat)
    requires c.engine.Some? && WellFormed(c.engine.value)
    requires GroupOk(c, g) && IsGroup(c.engine.value, g.data) && Available(c.engine.value, g.data, i)
    requires forall p :: p in g.payloads ==> |p| <= cap
    ensures |Shard(c.engine.value, g.data, i)| <= HEADER_SIZE + cap + Overhead(c)
  {
    LongestBounds(g.data);
    forall j | 0 <= j < |g.data|
      ensures |g.data[j]| <= HEADER_SIZE + cap + Overhead(c)
    {
      assert DataFor(c, g.payloads[j], g.data[j]);
    }
    if i >= |g.data| { GroupLongest(c.engine.value, g.data); }
  }

  lemma PayloadsBounded(c: Config, items: seq<Item>, cap: nat, a: nat)
    requires c.engine.Some? && StateFits(c, EMPTY.state) && a <= |SendAll(c, items).complete|
    requires forall i :: 0 <= i < |items| ==> |items[i].payload| <= cap
    ensures forall p :: p in GroupAt(SendAll(c, items), a).payloads ==> |p| <= cap
  {
    LogIsDequeued(c, items);
    var log := SendAll(c, items);
    forall p | p in GroupAt(log, a).payloads
      ensures |p| <= cap
    {
      LoggedContains(log, a, p);
      var i := SealedFrom(c, items, p);
    }
  }

  lemma DatagramSize(e: Engine, data: seq<Bytes>, d: Datagram, size: nat)
    requires WellFormed(e) && DatagramOk(e, data, d) && |Shard(e, data, d.index)| <= size < 0x1_0000
    ensures |d.bytes| <= HEADER_SIZE + size && Deserialize(d.bytes).Some?
    ensures Deserialize(d.bytes).value.payloadLen == |d.bytes| - HEADER_SIZE
  {
  }

  /** The datagram fits the MTU with its IP and UDP headers, and its length field is its length. */
  predicate Fits(d: Bytes, mtu: nat) {
    && |d| + 28 <= mtu
    && Deserialize(d).Some? && Deserialize(d).value.payloadLen == |d| - HEADER_SIZE
  }

  /** Every datagram made from accepted packets, plus 28 bytes of IP and UDP
      headers, fits the configured MTU, and its length field is not truncated. */
  lemma {:induction false} DatagramsFit(c: Config, items: seq<Item>, mtu: nat, encryption: bool, p: nat)
    requires c.engine.Some? && GoodConfig(c) && 576 <= mtu <= 65535 && (c.aead.Some? ==> encryption)
    requires forall i :: 0 <= i < |items| ==> GoodItem(items[i]) && |items[i].payload| <= MaxPayload(mtu, encryption)
    requires p < |SendAll(c, items).wire|
    ensures Fits(SendAll(c, items).wire[p].bytes, mtu)
  {
    EveryRunIsFramed(c, items);
    var log := SendAll(c, items);
    var d := log.wire[p];
    assert WireOk(c.engine.value, log, p);
    assert GroupOk(c, GroupAt(log, d.group));
    var cap := MaxPayload(mtu, encryption);
    PayloadsBounded(c, items, cap, d.group);
    GroupLengths(c, GroupAt(log, d.group), cap, d.index);
    DatagramSize(c.engine.value, GroupAt(log, d.group).data, d, HEADER_SIZE + cap + Overhead(c));
  }

  lemma PlainStep(c: Config, s: State, item: Item, mtu: nat, encryption: bool, p: nat)
    requires c.engine.None? && GoodConfig(c) && GoodItem(item) && StateFits(c, s) && p < |SendStep(c, s, item).1|
    requires 576 <= mtu <= 65535 && (c.aead.Some? ==> encryption) && |item.payload| <= MaxPayload(mtu, encryption)
    ensures Fits(SendStep(c, s, item).1[p], mtu)
  {
    BodyOpens(c, item);
    PacketFits(s.seqNum, item.time, Body(c, item).value, mtu);
  }

  lemma PacketFits(seqNum: uint32, time: int64, body: Bytes, mtu: nat)
    requires HEADER_SIZE + |body| + 28 <= mtu <= 65535
    ensures Fits(Packet(seqNum, time, 0, body), mtu)
  {
    PacketParts(seqNum, time, 0, body);
  }

  /** The same with FEC off. */
  lemma {:induction false} PlainDatagramsFit(c: Config, items: seq<Item>, mtu: nat, encryption: bool, p: nat)
    requires c.engine.None? && GoodConfig(c) && 576 <= mtu <= 65535 && (c.aead.Some? ==> encryption)
    requires forall i :: 0 <= i < |items| ==> GoodItem(items[i]) && |items[i].payload| <= MaxPayload(mtu, encryption)
    requires StateFits(c, EMPTY.state) && p < |SendBytes(c, items).1|
    ensures Fits(SendBytes(c, items).1[p], mtu)
  {
    var front, item := items[..|items| - 1], items[|items| - 1];
    var (s, out) := SendBytes(c, front);
    if p < |out| {
      PlainDatagramsFit(c, front, mtu, encryption, p);
    } else {
      PlainStep(c, s, item, mtu, encryption, p - |out|);
    }
  }

  /** One byte more does not fit: the parity of a full group is two headers, the
      longest payload and the encryption overhead long, so it fits the MTU
      exactly when that payload was one the sender accepts. */
  lemma {:induction false} BoundIsTight(c: Config, log: Log, a: nat, i: nat, longest: nat, mtu: nat)
    requires c.engine.Some? && GoodConfig(c) && LogOk(c, log) && a < |log.complete| && c.engine.value.k <= i < c.engine.value.n
    requires forall x :: 0 <= x < |log.complete[a].payloads| ==> |log.complete[a].payloads[x]| <= longest
    requires exists x :: 0 <= x < |log.complete[a].payloads| && |log.complete[a].payloads[x]| == longest
    requires 576 <= mtu
    ensures var p := Start(a, c.engine.value.n) + i;
      && p < |log.wire| && log.wire[p].group == a && log.wire[p].index == i
      && |log.wire[p].bytes| == 2 * HEADER_SIZE + longest + Overhead(c)
      && (|log.wire[p].bytes| + 28 <= mtu <==> longest <= MaxPayload(mtu, c.aead.Some?))
  {
    var e, p := c.engine.value, Start(a, c.engine.value.n) + i;
    PacketAt(c, log, a, i);
    FullGroups(c, log, a);
    ParityOnWire(c, log, p, longest);
  }

  lemma ParityOnWire(c: Config, log: Log, p: nat, longest: nat)
    requires c.engine.Some? && GoodConfig(c) && LogOk(c, log) && p < |log.wire|
    requires var d := log.wire[p]; d.group < |log.complete| && c.engine.value.k <= d.index < c.engine.value.n
    requires var g := log.complete[log.wire[p].group];
      && |g.payloads| == |g.data| == c.engine.value.k
      && (forall x :: 0 <= x < |g.payloads| ==> |g.payloads[x]| <= longest)
      && exists x :: 0 <= x < |g.payloads| && |g.payloads[x]| == longest
    ensures |log.wire[p].bytes| == 2 * HEADER_SIZE + longest + Overhead(c)
  {
    var d := log.wire[p];
    assert WireOk(c.engine.value, log, p) && GroupOk(c, GroupAt(log, d.group));
    LongestIs(c, log.complete[d.group], longest);
    ParityLength(c.engine.value, log.complete[d.group].data, d);
  }

  lemma FullGroups(c: Config, log: Log, a: nat)
    requires c.engine.Some? && GoodConfig(c) && LogOk(c, log) && a < |log.complete|
    ensures |log.complete[a].payloads| == |log.complete[a].data| == c.engine.value.k
  {
    assert GroupOk(c, GroupAt(log, a));
  }

  lemma LongestIs(c: Config, g: GroupLog, longest: nat)
    requires GroupOk(c, g) && forall x :: 0 <= x < |g.data| ==> |g.payloads[x]| <= longest
    requires exists x :: 0 <= x < |g.data| && |g.payloads[x]| == longest
    ensures Longest(g.data) == HEADER_SIZE + longest + Overhead(c)
  {
    LongestBounds(g.data);
    forall x | 0 <= x < |g.data|
      ensures |g.data[x]| == HEADER_SIZE + |g.payloads[x]| + Overhead(c)
    {
      assert DataFor(c, g.payloads[x], g.data[x]);
    }
  }

  lemma ParityLength(e: Engine, data: seq<Bytes>, d: Datagram)
    requires WellFormed(e) && DatagramOk(e, data, d) && |data| == e.k && e.k <= d.index < e.n
    ensures |d.bytes| == HEADER_SIZE + Longest(data)
  {
    GroupLongest(e, data);
  }

  // ---- Time stamps -----------------------------------------------------------

  /** When the datagrams of one iteration are made. */
  function StampAt(item: Item, t: nat): int64 {
    if t == 0 then item.time else item.parityTime(t - 1)
  }

  function Stamps(item: Item, m: nat): seq<int64> {
    seq(m, t requires 0 <= t < m => StampAt(item, t))
  }

  function StampsOf(c: Config, items: seq<Item>): seq<int64>
    requires StateFits(c, State(0, 0, []))
  {
    if items == [] then []
    else
      var s := SendBytes(c, items[..|items| - 1]).0;
      StampsOf(c, items[..|items| - 1]) + Stamps(items[|items| - 1], |SendStep(c, s, items[|items| - 1]).1|)
  }

  ghost predicate HasStamp(d: Bytes, time: int64) {
    Deserialize(d).Some? && Deserialize(d).value.timestamp == time && Deserialize(d).value.version == CURRENT_VERSION
  }

  lemma StepIsStamped(c: Config, s: State, item: Item, t: nat)
    requires StateFits(c, s) && t < |SendStep(c, s, item).1|
    ensures HasStamp(SendStep(c, s, item).1[t], StampAt(item, t))
  {
    var out := SendStep(c, s, item).1;
    if t == 0 {
      PacketParts(s.seqNum, item.time, if c.engine.Some? then FecField(false, s.groupNum, |s.pending|) else 0, Body(c, item).value);
    } else {
      ParityIsStamped(c, s, item, t - 1);
    }
  }

  lemma ParityIsStamped(c: Config, s: State, item: Item, i: nat)
    requires StateFits(c, s) && i + 1 < |SendStep(c, s, item).1|
    ensures HasStamp(SendStep(c, s, item).1[i + 1], item.parityTime(i))
  {
    var out := SendStep(c, s, item).1;
    var shards := ParityFollows(c, s, item);
    assert out[i + 1] == out[1..][i];
    PacketsAreStamped(NextSeq(s.seqNum), s.groupNum, c.engine.value.k, shards, item.parityTime, i);
  }

  /** What follows the data packet of an iteration are parity packets. */
  lemma ParityFollows(c: Config, s: State, item: Item) returns (shards: seq<Bytes>)
    requires StateFits(c, s) && |SendStep(c, s, item).1| > 1
    ensures c.engine.Some? && c.engine.value.k + |shards| <= 16
    ensures SendStep(c, s, item).1[1..] == ParityPackets(NextSeq(s.seqNum), s.groupNum, c.engine.value.k, shards, item.parityTime)
  {
    var pending := s.pending + [DataPacket(c, s, item.time, Body(c, item).value)];
    shards := ParityOf(c.engine, pending).value;
    ParityFits(c.engine.value, pending);
  }

  lemma PacketsAreStamped(seqNum: uint32, groupNum: nat, k: nat, shards: seq<Bytes>, time: nat -> int64, i: nat)
    requires groupNum < 2048 && k + |shards| <= 16 && i < |shards|
    ensures HasStamp(ParityPackets(seqNum, groupNum, k, shards, time)[i], time(i))
  {
    ParityStamp(Advance(seqNum, i), groupNum, k + i, shards[i], time(i));
  }

  lemma ParityStamp(seqNum: uint32, groupNum: nat, index: nat, shard: Bytes, time: int64)
    requires groupNum < 2048 && index < 16
    ensures HasStamp(ParityPacket(seqNum, groupNum, index, shard, time), time)
  {
    PacketParts(seqNum, time, FecField(true, groupNum, index), shard);
  }

  ghost predicate AllStamped(out: seq<Bytes>, times: seq<int64>) {
    |out| == |times| && forall p :: 0 <= p < |out| ==> HasStamp(out[p], times[p])
  }

  lemma StampedConcat(out: seq<Bytes>, times: seq<int64>, more: seq<Bytes>, later: seq<int64>)
    requires AllStamped(out, times) && AllStamped(more, later)
    ensures AllStamped(out + more, times + later)
  {
  }

  lemma IterationIsStamped(c: Config, s: State, item: Item)
    requires StateFits(c, s)
    ensures AllStamped(SendStep(c, s, item).1, Stamps(item, |SendStep(c, s, item).1|))
  {
    forall t | 0 <= t < |SendStep(c, s, item).1|
      ensures HasStamp(SendStep(c, s, item).1[t], StampAt(item, t))
    {
      StepIsStamped(c, s, item, t);
    }
  }

  /** Over every run, with FEC or without, every datagram carries the clock
      reading taken when it was made, and the program's version. */
  lemma {:induction false} EveryRunIsStamped(c: Config, items: seq<Item>)
    requires StateFits(c, State(0, 0, []))
    ensures AllStamped(SendBytes(c, items).1, StampsOf(c, items))
  {
    if items == [] {
    } else {
      var front, last := items[..|items| - 1], items[|items| - 1];
      EveryRunIsStamped(c, front);
      var (s, out) := SendBytes(c, front);
      IterationIsStamped(c, s, last);
      StampedConcat(out, StampsOf(c, front), SendStep(c, s, last).1, Stamps(last, |SendStep(c, s, last).1|));
    }
  }
}
