/** How much the receiver can hold, whatever datagrams arrive. */
module TableBound {
  import opened Words
  import opened Wrappers
  import opened Header
  import opened Crypto
  import opened ReedSolomon
  import opened FecGroup
  import opened FecManager
  import opened Receiver

  datatype Input = Datagram(bytes: Bytes, now: int) | Tick(now: int)

  /** Data packets carry at least a header, so a received one is not empty. */
  ghost predicate DataSolid(e: Engine, g: Group) {
    Shape(e, g) && forall i :: i in Seen(g) && i < e.k ==> g.packets[i] != []
  }

  /** A stored group holds fewer than k packets, or parity only. */
  ghost predicate Limited(e: Engine, g: Group) {
    g.recvCount < e.k || g.recvCount <= e.n - e.k
  }

  /** Group numbers stay below 2048 and every group is consistent and limited. */
  ghost predicate Bounded(e: Engine, t: Table) {
    TableConsistent(e, t) && forall num :: num in t ==> num < 2048 && DataSolid(e, t[num]) && Limited(e, t[num])
  }

  /** A group of k packets that was not decoded holds empty packets only, and those are parity. */
  lemma SolidIsLimited(e: Engine, g: Group)
    requires WellFormed(e) && Consistent(e, g) && DataSolid(e, g)
    ensures Limited(e, g)
  {
    LongestBounds(g.packets);
    if g.recvCount >= e.k {
      assert Seen(g) <= Upto(e.n) - Upto(e.k);
      SubsetSize(Seen(g), Upto(e.n) - Upto(e.k));
      SubsetSize(Upto(e.k), Upto(e.n));
      assert Upto(e.n) == Upto(e.k) + (Upto(e.n) - Upto(e.k));
    }
  }

  lemma SettleStaysSolid(e: Engine, g: Group, passed: seq<Bytes>)
    requires WellFormed(e) && Buffered(e, g) && DataSolid(e, g)
    ensures var out := Settle(e, g, passed); out.group.Some? ==> DataSolid(e, out.group.value)
  {
  }

  /** One packet whatever, except that data is never empty. */
  lemma StepStaysSolid(e: Engine, timeout: int, og: Option<Group>, pkt: Bytes, isFEC: bool, index: int, now: int)
    requires WellFormed(e) && (og.Some? ==> Consistent(e, og.value) && DataSolid(e, og.value)) && (isFEC || pkt != [])
    ensures var out := Step(e, timeout, og, pkt, isFEC, index, now);
      out.group.Some? ==> Consistent(e, out.group.value) && DataSolid(e, out.group.value)
  {
    StepKeepsConsistent(e, timeout, og, pkt, isFEC, index, now);
    FreshConsistent(e, now);
    var g := Current(e, timeout, og, now);
    if 0 <= index < e.n && isFEC == (index >= e.k) && !g.received[index] {
      NewStaysSolid(e, g, pkt, index, if isFEC then [] else [pkt]);
    }
  }

  lemma NewStaysSolid(e: Engine, g: Group, pkt: Bytes, index: nat, passed: seq<Bytes>)
    requires WellFormed(e) && Consistent(e, g) && DataSolid(e, g) && index < e.n && !g.received[index]
    requires index < e.k ==> pkt != []
    ensures var out := Settle(e, Buffer(g, pkt, index >= e.k, index), passed);
      out.group.Some? ==> DataSolid(e, out.group.value)
  {
    BufferKeeps(e, g, pkt, index);
    SettleStaysSolid(e, Buffer(g, pkt, index >= e.k, index), passed);
  }

  function TableOf(e: Engine, timeout: int, aead: Option<Aead>, ins: seq<Input>): (t: Table)
    requires WellFormed(e)
    ensures TableConsistent(e, t)
  {
    if ins == [] then map[]
    else
      var before := TableOf(e, timeout, aead, ins[..|ins| - 1]);
      match ins[|ins| - 1]
      case Tick(now) => PurgeKeepsTable(e, timeout, before, now); Purge(before, timeout, now)
      case Datagram(d, now) =>
        ReceiveKeepsTable(e, timeout, aead, before, d, now);
        Receive(Enabled(e, timeout), aead, before, d, now).0
  }

  lemma ReceiveKeepsTable(e: Engine, timeout: int, aead: Option<Aead>, t: Table, d: Bytes, now: int)
    requires WellFormed(e) && TableConsistent(e, t)
    ensures TableShape(e, t) && TableConsistent(e, Receive(Enabled(e, timeout), aead, t, d, now).0)
  {
    if Accepted(d) {
      var info := Deserialize(d).value.fecInfo;
      AddKeepsTable(e, timeout, t, FecPart(d, IsParity(info)), IsParity(info), GroupOf(info), IndexOf(info), now);
    }
  }

  lemma ReceiveStaysBounded(e: Engine, timeout: int, aead: Option<Aead>, t: Table, d: Bytes, now: int)
    requires WellFormed(e) && Bounded(e, t)
    ensures TableShape(e, t) && Bounded(e, Receive(Enabled(e, timeout), aead, t, d, now).0)
  {
    ReceiveKeepsTable(e, timeout, aead, t, d, now);
    if Accepted(d) {
      var info := Deserialize(d).value.fecInfo;
      var pkt := FecPart(d, IsParity(info));
      StepStaysSolid(e, timeout, Lookup(t, GroupOf(info)), pkt, IsParity(info), IndexOf(info), now);
      var out := Step(e, timeout, Lookup(t, GroupOf(info)), pkt, IsParity(info), IndexOf(info), now);
      if out.group.Some? { SolidIsLimited(e, out.group.value); }
    }
  }

  /** Over every run, on any datagrams of any origin. */
  lemma {:induction false} AlwaysBounded(e: Engine, timeout: int, aead: Option<Aead>, ins: seq<Input>)
    requires WellFormed(e)
    ensures Bounded(e, TableOf(e, timeout, aead, ins))
  {
    if ins == [] {
    } else {
      AlwaysBounded(e, timeout, aead, ins[..|ins| - 1]);
      var before, last := TableOf(e, timeout, aead, ins[..|ins| - 1]), ins[|ins| - 1];
      if last.Datagram? {
        ReceiveStaysBounded(e, timeout, aead, before, last.bytes, last.now);
      }
    }
  }

  /** Packets held under the group numbers below `m`. */
  function Held(t: Table, m: nat): nat {
    if m == 0 then 0
    else Held(t, m - 1) + if m - 1 < 0x1_0000 && m - 1 in t then t[m - 1].recvCount else 0
  }

  lemma HeldBound(t: Table, m: nat, cap: nat)
    requires forall num :: num in t ==> t[num].recvCount <= cap
    ensures Held(t, m) <= m * cap
  {
    if m == 0 {
    } else {
      HeldBound(t, m - 1, cap);
      assert (m - 1) * cap + cap == m * cap;
    }
  }

  /** At most 2048 max(k - 1, n - k) packets are ever buffered. */
  lemma BufferIsBounded(e: Engine, timeout: int, aead: Option<Aead>, ins: seq<Input>)
    requires WellFormed(e)
    ensures forall num :: num in TableOf(e, timeout, aead, ins) ==> num < 2048
    ensures Held(TableOf(e, timeout, aead, ins), 2048) <= 2048 * Max(e.k - 1, e.n - e.k)
  {
    AlwaysBounded(e, timeout, aead, ins);
    HeldBound(TableOf(e, timeout, aead, ins), 2048, Max(e.k - 1, e.n - e.k));
  }

  // ---- Fewer than k: for which codes, and for which datagrams ---------------

  ghost predicate Short(e: Engine, t: Table) {
    forall num :: num in t ==> t[num].recvCount < e.k
  }

  ghost predicate AlwaysShort(e: Engine, timeout: int, aead: Option<Aead>)
    requires WellFormed(e)
  {
    forall ins: seq<Input> :: Short(e, TableOf(e, timeout, aead, ins))
  }

  /** A datagram that consists of a parity header and nothing else. */
  function BareParity(index: nat): Bytes
    requires index < 16
  {
    Image(Header(CURRENT_VERSION, 0, 0, 0, FecField(true, 0, index)))
  }

  /** The bare parity packets k, k + 1, ... of group 0, all at time 0. */
  function BareRun(k: nat, m: nat): (r: seq<Input>)
    requires k + m <= 16
    ensures |r| == m
  {
    seq(m, j requires 0 <= j < m => Datagram(BareParity(k + j), 0))
  }

  function BareGroup(e: Engine, m: nat): Group {
    Group(seq(e.n, _ => []), seq(e.n, i => e.k <= i < e.k + m), seq(e.k, _ => false), m, 0, 0)
  }

  lemma BareStep(e: Engine, timeout: nat, m: nat)
    requires WellFormed(e) && e.k + m < e.n && m < e.k
    ensures var og := if m == 0 then None else Some(BareGroup(e, m));
      Step(e, timeout, og, [], true, e.k + m, 0).group == Some(BareGroup(e, m + 1))
  {
    assert BareGroup(e, 0) == Fresh(e, 0);
    var b := Buffer(BareGroup(e, m), [], true, e.k + m);
    assert b == BareGroup(e, m + 1);
    assert !b.sent[0];
    assert Align(b).packets == b.packets;
    assert Present(b.packets) == {};
  }

  function BareTable(e: Engine, m: nat): Table {
    if m == 0 then map[] else map[0 := BareGroup(e, m)]
  }

  lemma BareAdded(e: Engine, timeout: nat, m: nat)
    requires WellFormed(e) && e.k + m < e.n && m < e.k
    ensures TableShape(e, BareTable(e, m))
    ensures Add(e, timeout, BareTable(e, m), [], true, 0, e.k + m, 0).0 == BareTable(e, m + 1)
  {
    BareStep(e, timeout, m);
  }

  lemma BareReceived(e: Engine, timeout: nat, aead: Option<Aead>, t: Table, index: nat)
    requires WellFormed(e) && TableShape(e, t) && index < 16
    ensures Receive(Enabled(e, timeout), aead, t, BareParity(index), 0).0
      == Add(e, timeout, t, [], true, 0, index, 0).0
  {
    var d := BareParity(index);
    var h := Header(CURRENT_VERSION, 0, 0, 0, FecField(true, 0, index));
    DeserializeImage(h, []);
    assert Image(h) + [] == Image(h);
    FieldParts(true, 0, index);
  }

  lemma {:induction false} BareRunHolds(e: Engine, timeout: nat, aead: Option<Aead>, m: nat)
    requires WellFormed(e) && e.k + m <= e.n <= 16 && m <= e.k
    ensures TableOf(e, timeout, aead, BareRun(e.k, m)) == BareTable(e, m)
  {
    if m == 0 {
    } else {
      BareRunHolds(e, timeout, aead, m - 1);
      assert BareRun(e.k, m)[..m - 1] == BareRun(e.k, m - 1);
      BareAdded(e, timeout, m - 1);
      BareReceived(e, timeout, aead, BareTable(e, m - 1), e.k + m - 1);
      assert BareRun(e.k, m)[m - 1] == Datagram(BareParity(e.k + m - 1), 0);
    }
  }

  /** Every group of every run holds fewer than k packets exactly when n < 2k:
      otherwise k bare parity headers are stored and cannot be decoded. */
  lemma {:induction false} AlwaysShortIff(e: Engine, timeout: nat, aead: Option<Aead>)
    requires WellFormed(e) && e.n <= 16
    ensures AlwaysShort(e, timeout, aead) <==> e.n < 2 * e.k
  {
    if e.n < 2 * e.k {
      forall ins: seq<Input>
        ensures Short(e, TableOf(e, timeout, aead, ins))
      {
        AlwaysBounded(e, timeout, aead, ins);
      }
    } else {
      BareRunHolds(e, timeout, aead, e.k);
      var t := TableOf(e, timeout, aead, BareRun(e.k, e.k));
      assert 0 in t && t[0].recvCount == e.k;
      assert !Short(e, t);
    }
  }

  /** Not an accepted datagram that consists of a parity header alone. */
  predicate Substantial(i: Input) {
    i.Datagram? && Accepted(i.bytes) ==> FecPart(i.bytes, IsParity(Deserialize(i.bytes).value.fecInfo)) != []
  }

  ghost predicate Solid(g: Group) {
    |g.packets| == |g.received| && forall i :: i in Seen(g) ==> g.packets[i] != []
  }

  ghost predicate SolidTable(e: Engine, t: Table) {
    TableConsistent(e, t) && forall num :: num in t ==> Solid(t[num]) && t[num].recvCount < e.k
  }

  lemma SolidShort(e: Engine, g: Group)
    requires WellFormed(e) && Consistent(e, g) && Solid(g)
    ensures g.recvCount < e.k
  {
    LongestBounds(g.packets);
    if i :| i in Seen(g) {
      assert g.packets[i] != [];
    }
  }

  lemma BufferStaysSolid(e: Engine, g: Group, pkt: Bytes, index: nat)
    requires Buffered(e, g) && Solid(g) && pkt != [] && index < e.n && !g.received[index]
    ensures Solid(Buffer(g, pkt, index >= e.k, index))
  {
  }

  lemma StepKeepsSolid(e: Engine, timeout: int, og: Option<Group>, pkt: Bytes, isFEC: bool, index: int, now: int)
    requires WellFormed(e) && (og.Some? ==> Consistent(e, og.value) && Solid(og.value)) && pkt != []
    ensures var out := Step(e, timeout, og, pkt, isFEC, index, now); out.group.Some? ==> Solid(out.group.value)
  {
    FreshConsistent(e, now);
    var g := Current(e, timeout, og, now);
    if 0 <= index < e.n && isFEC == (index >= e.k) && !g.received[index] {
      BufferStaysSolid(e, g, pkt, index);
    }
  }

  lemma ReceiveKeepsSolid(e: Engine, timeout: int, aead: Option<Aead>, t: Table, d: Bytes, now: int)
    requires WellFormed(e) && SolidTable(e, t) && Substantial(Datagram(d, now))
    ensures TableShape(e, t) && SolidTable(e, Receive(Enabled(e, timeout), aead, t, d, now).0)
  {
    ReceiveKeepsTable(e, timeout, aead, t, d, now);
    if Accepted(d) {
      var info := Deserialize(d).value.fecInfo;
      StepStaysShort(e, timeout, Lookup(t, GroupOf(info)), FecPart(d, IsParity(info)), IsParity(info), IndexOf(info), now);
    }
  }

  /** Decoding fires at exactly k packets: a step on non-empty packets never
      fails to decode and never leaves k behind. */
  lemma StepStaysShort(e: Engine, timeout: int, og: Option<Group>, pkt: Bytes, isFEC: bool, index: int, now: int)
    requires WellFormed(e) && (og.Some? ==> Consistent(e, og.value) && Solid(og.value)) && pkt != []
    ensures var out := Step(e, timeout, og, pkt, isFEC, index, now);
      && out.error != ReconstructFailed
      && (out.group.Some? ==> Consistent(e, out.group.value) && Solid(out.group.value) && out.group.value.recvCount < e.k)
  {
    StepKeepsConsistent(e, timeout, og, pkt, isFEC, index, now);
    ReconstructFailsIff(e, timeout, og, pkt, isFEC, index, now);
    StepKeepsSolid(e, timeout, og, pkt, isFEC, index, now);
    var out := Step(e, timeout, og, pkt, isFEC, index, now);
    if out.group.Some? { SolidShort(e, out.group.value); }
  }

  /** For every code: fewer than k packets a group while no bare parity header arrives. */
  lemma {:induction false} SubstantialStaysShort(e: Engine, timeout: int, aead: Option<Aead>, ins: seq<Input>)
    requires WellFormed(e) && forall i :: 0 <= i < |ins| ==> Substantial(ins[i])
    ensures SolidTable(e, TableOf(e, timeout, aead, ins))
  {
    if ins == [] {
    } else {
      SubstantialStaysShort(e, timeout, aead, ins[..|ins| - 1]);
      var before, last := TableOf(e, timeout, aead, ins[..|ins| - 1]), ins[|ins| - 1];
      if last.Datagram? {
        ReceiveKeepsSolid(e, timeout, aead, before, last.bytes, last.now);
      }
    }
  }
}
