/** The per-session sender worker: numbering, FEC field, grouping, parity. */
module Sender {
  import opened Words
  import opened Wrappers
  import opened Header
  import opened Crypto
  import opened ReedSolomon
  import opened FecGroup
  import opened FecSource

  // ---- Parity generation --------------------------------------------------

  /** The parity shards for `packets`; none without an engine or from empty packets. */
  function ParityOf(enc: Option<Engine>, packets: seq<Bytes>): Option<seq<Bytes>> {
    if enc.None? then None else Encode(enc.value, Aligned(packets))
  }

  method EncodeFECWithEncoder(enc: Option<Engine>, k: nat, n: nat, packets: seq<Bytes>)
    returns (redundant: Option<seq<Bytes>>)
    requires |packets| == k < n
    requires enc.Some? ==> WellFormed(enc.value) && enc.value.k == k && enc.value.n == n
    ensures redundant == ParityOf(enc, packets)
    ensures redundant.Some? ==> |redundant.value| == n - k
  {
    if enc.None? {
      return None;
    }
    LongestBounds(packets);
    var maxLen := 0;
    var i := 0;
    while i < |packets|
      invariant i <= |packets| && maxLen <= Longest(packets)
      invariant forall j :: 0 <= j < i ==> |packets[j]| <= maxLen
    {
      if |packets[i]| > maxLen {
        maxLen := |packets[i]|;
      }
      i := i + 1;
    }
    assert maxLen == Longest(packets);

    var padded: seq<Bytes> := [];
    i := 0;
    while i < k
      invariant i <= k && padded == Aligned(packets)[..i]
    {
      padded := padded + [Pad(packets[i], maxLen)];
      i := i + 1;
    }
    assert padded == Aligned(packets);
    redundant := Encode(enc.value, padded);
    if redundant.Some? { EncodeSize(enc.value, padded, maxLen); }
  }

  lemma EncodeSize(e: Engine, data: seq<Bytes>, len: nat)
    requires WellFormed(e) && |data| == e.k && AllLength(data, len)
    ensures Encode(e, data).Some? <==> len > 0
    ensures len > 0 ==> |Encode(e, data).value| == e.n - e.k && AllLength(Encode(e, data).value, len)
  {
    if len > 0 {
      assert 0 in Present(data);
    } else {
      assert Present(data) == {};
    }
  }

  // ---- One iteration of the worker ---------------------------------------

  /** A dequeued payload with what the environment supplies: the nonce (none
      when no randomness is to be had) and the clock readings. */
  datatype Item = Item(payload: Bytes, nonce: Option<Bytes>, time: int64, parityTime: nat -> int64)

  datatype Config = Config(engine: Option<Engine>, aead: Option<Aead>)

  datatype State = State(seqNum: uint32, groupNum: uint16, pending: seq<Bytes>)

  ghost predicate GoodItem(item: Item) {
    item.nonce.Some? ==> |item.nonce.value| == NONCE_SIZE
  }

  ghost predicate GoodConfig(c: Config) {
    && (c.engine.Some? ==> WellFormed(c.engine.value) && c.engine.value.n <= 16)
    && (c.aead.Some? ==> Lawful(c.aead.value))
  }

  /** Encryption is off or there is randomness for a nonce. */
  predicate Sealable(c: Config, item: Item) {
    c.aead.Some? ==> item.nonce.Some?
  }

  /** What travels as payload, unless encryption fails. */
  function Body(c: Config, item: Item): Option<Bytes> {
    if c.aead.None? then Some(item.payload)
    else if item.nonce.None? then None
    else Some(Encrypt(c.aead.value, item.nonce.value, item.payload))
  }

  function Packet(seqNum: uint32, time: int64, fecInfo: uint16, body: Bytes): Bytes {
    Image(Header(CURRENT_VERSION, seqNum, time, |body| % 0x1_0000, fecInfo)) + body
  }

  function NextSeq(s: uint32): uint32 {
    (s + 1) % 0x1_0000_0000
  }

  function NextGroup(g: nat): (r: uint16) {
    (g + 1) % 2048
  }

  lemma WrapTwice(x: nat)
    requires x <= 0x1_0000
    ensures x % 0x1_0000 % 2048 == x % 2048
  {
  }

  /** The source's 11-bit mask wraps the group number. */
  lemma NextGroupIsMasked(g: uint16)
    ensures And((g + 1) % 0x1_0000, 0x7FF) == NextGroup(g)
  {
    var next := (g + 1) % 0x1_0000;
    assert Pow2(11) == 2048;
    AndLowMask(next, 11);
    WrapTwice(g + 1);
  }

  function Advance(s: uint32, steps: nat): uint32 {
    (s + steps) % 0x1_0000_0000
  }

  lemma NextAfterAdvance(s: uint32, steps: nat)
    ensures NextSeq(Advance(s, steps)) == Advance(s, steps + 1)
  {
  }

  function ParityPacket(seqNum: uint32, groupNum: nat, index: nat, shard: Bytes, time: int64): Bytes
    requires groupNum < 2048 && index < 16
  {
    Packet(seqNum, time, FecField(true, groupNum, index), shard)
  }

  function ParityPackets(seqNum: uint32, groupNum: nat, k: nat, shards: seq<Bytes>, time: nat -> int64): (r: seq<Bytes>)
    requires groupNum < 2048 && k + |shards| <= 16
    ensures |r| == |shards|
  {
    seq(|shards|, i requires 0 <= i < |shards| =>
      ParityPacket(Advance(seqNum, i), groupNum, k + i, shards[i], time(i)))
  }

  function DataPacket(c: Config, s: State, time: int64, body: Bytes): Bytes
    requires StateFits(c, s)
  {
    Packet(s.seqNum, time, if c.engine.Some? then FecField(false, s.groupNum, |s.pending|) else 0, body)
  }

  ghost predicate StateFits(c: Config, s: State) {
    && s.groupNum < 2048
    && (c.engine.Some? ==> WellFormed(c.engine.value) && c.engine.value.n <= 16 && |s.pending| < c.engine.value.k)
  }

  /** A full group's parity never outgrows the group. */
  lemma ParityFits(e: Engine, pending: seq<Bytes>)
    requires WellFormed(e) && |pending| == e.k
    ensures ParityOf(Some(e), pending).Some? ==> |ParityOf(Some(e), pending).value| == e.n - e.k
  {
    EncodeSize(e, Aligned(pending), Longest(pending));
  }

  function SendStep(c: Config, s: State, item: Item): (r: (State, seq<Bytes>))
    requires StateFits(c, s)
    ensures StateFits(c, r.0)
  {
    var body := Body(c, item);
    var next := NextSeq(s.seqNum);
    if body.None? then (s.(seqNum := next), [])
    else
      var pkt := DataPacket(c, s, item.time, body.value);
      if c.engine.None? then (s.(seqNum := next), [pkt])
      else
        var pending := s.pending + [pkt];
        if |pending| != c.engine.value.k then (State(next, s.groupNum, pending), [pkt])
        else
          var parity := ParityOf(c.engine, pending);
          if parity.None? then (State(next, NextGroup(s.groupNum), []), [pkt])
          else
            ParityFits(c.engine.value, pending);
            (State(Advance(next, |parity.value|), NextGroup(s.groupNum), []),
             [pkt] + ParityPackets(next, s.groupNum, c.engine.value.k, parity.value, item.parityTime))
  }

  /** The bytes put on the wire and the final state, over a whole run. */
  function SendBytes(c: Config, items: seq<Item>): (r: (State, seq<Bytes>))
    requires StateFits(c, State(0, 0, []))
    ensures StateFits(c, r.0)
  {
    if items == [] then (State(0, 0, []), [])
    else
      var (s, out) := SendBytes(c, items[..|items| - 1]);
      var (s', more) := SendStep(c, s, items[|items| - 1]);
      (s', out + more)
  }

  class SessionWorker {
    const config: Config
    var seqNum: uint32
    var groupNum: uint16
    var groupPackets: seq<Bytes>

    constructor (c: Config)
      requires StateFits(c, State(0, 0, []))
      ensures Valid() && config == c && Value() == State(0, 0, [])
    {
      config := c;
      seqNum, groupNum, groupPackets := 0, 0, [];
    }

    function Value(): State
      reads this
    {
      State(seqNum, groupNum, groupPackets)
    }

    ghost predicate Valid()
      reads this
    {
      StateFits(config, Value())
    }

    /** One pass of the worker loop: number, seal, frame, send, and emit parity when a group is full. */
    method Process(item: Item) returns (out: seq<Bytes>)
      requires Valid()
      modifies this
      ensures Valid()
      ensures (Value(), out) == SendStep(config, old(Value()), item)
    {
      var s := seqNum;
      seqNum := NextSeq(seqNum);
      var body := Body(config, item);
      if body.None? {
        return [];
      }
      if config.engine.Some? { PackIsField(groupNum, |groupPackets|); }
      var fecInfo := if config.engine.Some? then PackData(groupNum, |groupPackets|) else 0;
      var buf := Serialize(Header(CURRENT_VERSION, s, item.time, |body.value| % 0x1_0000, fecInfo));
      var packetToSend := buf[..] + body.value;
      out := [packetToSend];
      if config.engine.Some? {
        groupPackets := groupPackets + [packetToSend];
        if |groupPackets| == config.engine.value.k {
          var redundant := EncodeFECWithEncoder(config.engine, config.engine.value.k, config.engine.value.n, groupPackets);
          if redundant.Some? {
            var parity := SendParity(redundant.value, item.parityTime);
            out := out + parity;
          }
          groupPackets := [];
          NextGroupIsMasked(groupNum);
          groupNum := And((groupNum + 1) % 0x1_0000, 0x7FF);
        }
      }
    }

    method SendParity(shards: seq<Bytes>, time: nat -> int64) returns (out: seq<Bytes>)
      requires config.engine.Some? && groupNum < 2048 && config.engine.value.k + |shards| <= 16
      modifies `seqNum
      ensures seqNum == Advance(old(seqNum), |shards|)
      ensures out == ParityPackets(old(seqNum), groupNum, config.engine.value.k, shards, time)
    {
      out := [];
      var i := 0;
      while i < |shards|
        invariant i <= |shards| && seqNum == Advance(old(seqNum), i)
        invariant out == ParityPackets(old(seqNum), groupNum, config.engine.value.k, shards, time)[..i]
      {
        NextAfterAdvance(old(seqNum), i);
        var packet := MakeParity(seqNum, i, shards[i], time(i));
        seqNum := NextSeq(seqNum);
        out := out + [packet];
        i := i + 1;
      }
    }

    method MakeParity(rSeq: uint32, i: nat, shard: Bytes, time: int64) returns (packet: Bytes)
      requires config.engine.Some? && groupNum < 2048 && config.engine.value.k + i < 16
      ensures packet == ParityPacket(rSeq, groupNum, config.engine.value.k + i, shard, time)
    {
      var fecInfo := PackParity(groupNum, config.engine.value.k + i);
      PackIsField(groupNum, config.engine.value.k + i);
      var buf := Serialize(Header(CURRENT_VERSION, rSeq, time, |shard| % 0x1_0000, fecInfo));
      packet := buf[..] + shard;
    }

    /** The worker loop over the payloads the queue yields. */
    method Run(items: seq<Item>) returns (wire: seq<Bytes>)
      requires Valid() && Value() == State(0, 0, [])
      modifies this
      ensures (Value(), wire) == SendBytes(config, items)
    {
      wire := [];
      var i := 0;
      while i < |items|
        invariant i <= |items| && Valid()
        invariant (Value(), wire) == SendBytes(config, items[..i])
      {
        assert items[..i + 1][..i] == items[..i];
        var out := Process(items[i]);
        wire := wire + out;
        i := i + 1;
      }
      assert items[..i] == items;
    }
  }
}
