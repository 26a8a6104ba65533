/** Two data packets and their byte-wise sum: small enough to say what every
    byte of a parity or a rebuilt packet is. */
module SumCode {
  import opened Words
  import opened Wrappers
  import opened Header
  import opened ReedSolomon
  import opened FecGroup
  import opened FecSource
  import opened FecManager
  import opened Sender
  import opened SenderLog
  import opened Receiver
  import opened EndToEnd

  /** k = 2 and n = 3, without encryption. */
  const PAIRS := Config(Some(SumEngine(2)), None)

  lemma PairsAreGood()
    ensures MDS(SumEngine(2)) && SumEngine(2).k == 2 && SumEngine(2).n == 3 && GoodConfig(PAIRS)
  {
    SumEngineIsMDS(2);
  }

  /** All payloads have the same length. */
  ghost predicate Uniform(items: seq<Item>, len: nat) {
    0 < len < 0x1_0000 && forall i :: 0 <= i < |items| ==> GoodItem(items[i]) && |items[i].payload| == len
  }

  lemma UniformRun(items: seq<Item>, len: nat, timeout: int)
    requires Uniform(items, len)
    ensures GoodRun(PAIRS, items) && Sound(Setting(PAIRS, SendAll(PAIRS, items), timeout))
    ensures Fills(PAIRS, items, SendAll(PAIRS, items))
  {
    PairsAreGood();
    GoodRunIsSound(PAIRS, items, timeout);
    RunFills(PAIRS, items);
  }

  /** Items 2a and 2a + 1 are in the log as a full group. */
  lemma PairIsLogged(items: seq<Item>, len: nat, a: nat)
    requires Uniform(items, len) && 2 * a + 2 <= |items|
    ensures GoodRun(PAIRS, items) && a < |SendAll(PAIRS, items).complete| && |SendAll(PAIRS, items).complete[a].data| == 2
  {
    UniformRun(items, len, 0);
    var log := SendAll(PAIRS, items);
    PairsAreGood();
    assert GroupOk(PAIRS, GroupAt(log, |log.complete|));
    StartIsProduct(|log.complete|, 2);
  }

  /** A data packet, byte for byte where it matters. */
  ghost predicate Carries(d: Bytes, payload: Bytes) {
    |d| == HEADER_SIZE + |payload| && d[HEADER_SIZE..] == payload && d[13..15] == BE(|payload|, 2)
  }

  lemma LengthBytes(d: Bytes, len: nat)
    requires |d| >= HEADER_SIZE && len < 0x1_0000
    ensures Deserialize(d).value.payloadLen == len <==> d[13..15] == BE(len, 2)
  {
    Pow256Values();
    assert d[..HEADER_SIZE][13..15] == d[13..15];
    FromBEOfBE(len, 2);
    BEOfFromBE(d[13..15]);
  }

  lemma UniformData(c: Config, items: seq<Item>, len: nat, log: Log, a: nat, i: nat)
    requires c.engine.Some? && c.aead.None? && Uniform(items, len) && Fills(c, items, log)
    requires a <= |log.complete| && i < |GroupAt(log, a).data| && GroupOk(c, GroupAt(log, a))
    ensures Start(a, c.engine.value.k) + i < |items|
    ensures Carries(GroupAt(log, a).data[i], items[Start(a, c.engine.value.k) + i].payload)
  {
    assert ItemAt(c, items, log, a, i);
    assert DataFor(c, GroupAt(log, a).payloads[i], GroupAt(log, a).data[i]);
    LengthBytes(GroupAt(log, a).data[i], len);
  }

  lemma PadSame(p: Bytes)
    ensures Pad(p, |p|) == p
  {
  }

  function SumOf(x: Bytes, y: Bytes): (r: Bytes)
    requires |x| == |y|
    ensures |r| == |x|
  {
    seq(|x|, p requires 0 <= p < |x| => Negate(x[p] as int + y[p] as int))
  }

  lemma TwoColumns(s: seq<Bytes>, p: nat)
    requires |s| == 2 && p < |s[0]| == |s[1]|
    ensures Column(s, p) == s[0][p] as int + s[1][p] as int
  {
    assert s[1..] == [s[1]] && s[1..][1..] == [];
    assert Column(s, p) == s[0][p] as int + Column(s[1..], p);
    assert Column(s[1..], p) == s[1][p] as int + Column(s[1..][1..], p);
  }

  /** The parity of two packets of one length. */
  lemma PairParity(data: seq<Bytes>)
    requires |data| == 2 && |data[0]| == |data[1]| > 0
    ensures MDS(SumEngine(2)) && IsGroup(SumEngine(2), data) && Available(SumEngine(2), data, 2)
    ensures Shard(SumEngine(2), data, 2) == SumOf(data[0], data[1])
  {
    PairsAreGood();
    LongestBounds(data);
    assert Longest(data[1..]) == |data[1]| && Longest(data) == |data[0]|;
    PadSame(data[0]);
    PadSame(data[1]);
    assert Aligned(data)[0] == data[0] && Aligned(data)[1] == data[1];
    assert Aligned(data) == data;
    FirstLengthIs(data, |data[0]|, 0);
    forall p | 0 <= p < |data[0]|
      ensures Column(data, p) == data[0][p] as int + data[1][p] as int
    {
      TwoColumns(data, p);
    }
    assert Shard(SumEngine(2), data, 2) == Balance(data, |data[0]|);
  }

  lemma LengthOfParity(x: Bytes, y: Bytes)
    requires |x| == |y| == 188 && x[13..15] == BE(171, 2) == y[13..15]
    ensures Deserialize(SumOf(x, y)).Some? && Deserialize(SumOf(x, y)).value.payloadLen == 170
  {
    var s := SumOf(x, y);
    assert BE(171, 2) == [0, 171] && BE(170, 2) == [0, 170];
    assert x[13] == x[13..15][0] && x[14] == x[13..15][1] && y[13] == y[13..15][0] && y[14] == y[13..15][1];
    assert s[13] == 0 && s[14] == 170;
    assert s[13..15] == [0, 170];
    LengthBytes(s, 170);
  }

  /** A shard whose length field lies within it is re-sent, cut to that length. */
  lemma FieldDecides(s: Setting, pos: nat, t: Table, now: int, shard: Bytes, len: nat)
    requires Sound(s) && s.config.aead.None? && pos < |s.log.wire| && s.log.wire[pos].index >= E(s).k
    requires Genuine(s, pos) && shard == Shard(E(s), Data(s, s.log.wire[pos].group), s.log.wire[pos].index)
    requires Deserialize(shard).Some? && Deserialize(shard).value.payloadLen == len && 0 < len <= |shard| - HEADER_SIZE
    ensures Receive(Disabled, None, t, s.log.wire[pos].bytes, now).1 == [shard[HEADER_SIZE..][..len]]
  {
    DisabledForwardsParity(s, pos, Disabled, t, now);
  }

  lemma GarbageAt(s: Setting, a: nat, t: Table, now: int, x: Bytes, y: Bytes)
    requires Sound(s) && E(s).k == 2 && E(s).n == 3 && s.config.aead.None? && a < |s.log.complete|
    requires |x| == |y| == 188 && x[13..15] == BE(171, 2) == y[13..15]
    requires IsGroup(E(s), Data(s, a)) && Available(E(s), Data(s, a), 2) && Shard(E(s), Data(s, a), 2) == SumOf(x, y)
    ensures var p := Start(a, 3) + 2;
      && p < |s.log.wire| && s.log.wire[p].group == a && s.log.wire[p].index == 2
      && Receive(Disabled, None, t, s.log.wire[p].bytes, now).1 == [SumOf(x, y)[HEADER_SIZE..][..170]]
  {
    PacketAt(s.config, s.log, a, 2);
    WireDatagram(s, Start(a, 3) + 2);
    LengthOfParity(x, y);
    FieldDecides(s, Start(a, 3) + 2, t, now, SumOf(x, y), 170);
  }

  /** With payloads of 171 bytes, a receiver whose FEC is switched off re-sends
      170 bytes of every parity shard: the multicast group gets packets nobody sent. */
  lemma {:induction false} DisabledEmitsGarbage(items: seq<Item>, a: nat, t: Table, now: int)
    requires Uniform(items, 171) && 2 * a + 2 <= |items|
    ensures GoodConfig(PAIRS)
    ensures var log := SendAll(PAIRS, items); var p := Start(a, 3) + 2;
      && p < |log.wire| && log.wire[p].group == a && log.wire[p].index == 2
      && var out := Receive(Disabled, None, t, log.wire[p].bytes, now).1;
      && |out| == 1 && |out[0]| == 170
      && forall i :: 0 <= i < |items| ==> items[i].payload != out[0]
  {
    PairsAreGood();
    UniformRun(items, 171, 0);
    PairIsLogged(items, 171, a);
    var s := Setting(PAIRS, SendAll(PAIRS, items), 0);
    assert GroupOk(PAIRS, GroupAt(s.log, a));
    UniformData(PAIRS, items, 171, s.log, a, 0);
    UniformData(PAIRS, items, 171, s.log, a, 1);
    PairParity(Data(s, a));
    GarbageAt(s, a, t, now, Data(s, a)[0], Data(s, a)[1]);
  }
}
