/** The reception state of one FEC group as a value, and what one packet does to it. */
module FecGroup {
  import opened Words
  import opened Wrappers
  import opened ReedSolomon

  datatype Group = Group(
    packets: seq<Bytes>,
    received: seq<bool>,
    sent: seq<bool>,
    recvCount: nat,
    maxLen: nat,
    createdAt: int)

  datatype Error = NoError | BadIndex | ParityIndexTooLow | DataIndexTooHigh | ReconstructFailed

  datatype Outcome = Outcome(group: Option<Group>, release: seq<Bytes>, error: Error)

  function Fresh(e: Engine, now: int): Group {
    Group(seq(e.n, _ => []), seq(e.n, _ => false), seq(e.k, _ => false), 0, 0, now)
  }

  /** Older than the group timeout: left over from an earlier use of the group number. */
  predicate Stale(g: Group, timeout: int, now: int) {
    now - g.createdAt > timeout
  }

  predicate AllSent(g: Group) {
    forall i :: 0 <= i < |g.sent| ==> g.sent[i]
  }

  /** Buffer a packet; a data packet counts as released at once. */
  function Buffer(g: Group, pkt: Bytes, isFEC: bool, index: nat): Group
    requires index < |g.packets| == |g.received|
    requires !isFEC ==> index < |g.sent|
  {
    Group(g.packets[index := pkt], g.received[index := true],
          if isFEC then g.sent else g.sent[index := true],
          g.recvCount + 1, Max(g.maxLen, |pkt|), g.createdAt)
  }

  function PadShard(p: Bytes, received: bool, len: nat): Bytes {
    if received && |p| < len then Pad(p, len) else p
  }

  /** Received packets brought to the longest length seen. */
  function Align(g: Group): (r: Group)
    requires |g.packets| == |g.received|
    ensures |r.packets| == |g.packets|
  {
    g.(packets := seq(|g.packets|, i requires 0 <= i < |g.packets| => PadShard(g.packets[i], g.received[i], g.maxLen)))
  }

  /** The shards from `i` on whose data packet was never released. */
  function Unsent(shards: seq<Bytes>, sent: seq<bool>, i: nat): seq<Bytes>
    requires |sent| <= |shards|
    decreases |sent| - i
  {
    if i >= |sent| then []
    else if sent[i] then Unsent(shards, sent, i + 1)
    else [shards[i]] + Unsent(shards, sent, i + 1)
  }

  ghost predicate Shape(e: Engine, g: Group) {
    && |g.packets| == |g.received| == e.n
    && |g.sent| == e.k <= e.n
  }

  /** The group a packet arriving now is put into. */
  function Current(e: Engine, timeout: int, og: Option<Group>, now: int): Group {
    if og.Some? && !Stale(og.value, timeout, now) then og.value else Fresh(e, now)
  }

  /** Deliver the buffered group `g`, which just received its newest packet. */
  function Settle(e: Engine, g: Group, passed: seq<Bytes>): Outcome
    requires Shape(e, g) && WellFormed(e)
  {
    if AllSent(g) then Outcome(None, passed, NoError)
    else if g.recvCount < e.k then Outcome(Some(g), passed, NoError)
    else
      var a := Align(g);
      var r := Reconstruct(e, a.packets);
      if r.None? then Outcome(Some(a), passed, ReconstructFailed)
      else Outcome(None, passed + Unsent(r.value, a.sent, 0), NoError)
  }

  /** `AddPacket` restricted to the entry of the packet's own group number. */
  function Step(e: Engine, timeout: int, og: Option<Group>, pkt: Bytes, isFEC: bool, index: int, now: int): Outcome
    requires WellFormed(e) && (og.Some? ==> Shape(e, og.value))
  {
    var g := Current(e, timeout, og, now);
    if index < 0 || index >= e.n then Outcome(Some(g), [], BadIndex)
    else if isFEC && index < e.k then Outcome(Some(g), [], ParityIndexTooLow)
    else if !isFEC && index >= e.k then Outcome(Some(g), [], DataIndexTooHigh)
    else if g.received[index] then Outcome(Some(g), [], NoError)
    else Settle(e, Buffer(g, pkt, isFEC, index), if isFEC then [] else [pkt])
  }

  lemma StepKeepsShape(e: Engine, timeout: int, og: Option<Group>, pkt: Bytes, isFEC: bool, index: int, now: int)
    requires WellFormed(e) && (og.Some? ==> Shape(e, og.value))
    ensures var out := Step(e, timeout, og, pkt, isFEC, index, now); out.group.Some? ==> Shape(e, out.group.value)
  {
  }

  // ---- The group invariant, over every input -----------------------------

  function Longest(packets: seq<Bytes>): nat {
    if packets == [] then 0 else Max(|packets[0]|, Longest(packets[1..]))
  }

  lemma LongestBounds(packets: seq<Bytes>)
    ensures forall i :: 0 <= i < |packets| ==> |packets[i]| <= Longest(packets)
    ensures Longest(packets) > 0 ==> exists i :: 0 <= i < |packets| && |packets[i]| == Longest(packets)
  {
    if packets == [] {
    } else {
      LongestBounds(packets[1..]);
      forall i | 0 <= i < |packets|
        ensures |packets[i]| <= Longest(packets)
      {
        if i > 0 { assert packets[i] == packets[1..][i - 1]; }
      }
      if Longest(packets) > 0 && |packets[0]| < Longest(packets) {
        var i :| 0 <= i < |packets[1..]| && |packets[1..][i]| == Longest(packets[1..]);
        assert packets[i + 1] == packets[1..][i];
      }
    }
  }

  lemma LongestUpdate(packets: seq<Bytes>, i: nat, p: Bytes)
    requires i < |packets| && packets[i] == []
    ensures Longest(packets[i := p]) == Max(Longest(packets), |p|)
  {
    if i > 0 {
      assert packets[i := p][1..] == packets[1..][i - 1 := p];
      LongestUpdate(packets[1..], i - 1, p);
    } else {
      assert packets[i := p][1..] == packets[1..];
    }
  }

  /** The indices received so far. */
  function Seen(g: Group): (s: set<nat>)
    ensures forall i :: i in s <==> 0 <= i < |g.received| && g.received[i]
  {
    set i: nat | i < |g.received| && g.received[i]
  }

  /** Kept by every packet, well-formed or not: the count is the number of
      reception flags, exactly the received data packets are marked released,
      the group still misses data, and it holds fewer than k packets unless
      all of them are empty (which is when reconstruction is refused). */
  ghost predicate Consistent(e: Engine, g: Group) {
    && Shape(e, g)
    && (forall i :: 0 <= i < e.n && !g.received[i] ==> g.packets[i] == [])
    && g.maxLen == Longest(g.packets)
    && g.recvCount == |Seen(g)|
    && (forall i :: 0 <= i < e.k ==> g.sent[i] == g.received[i])
    && !AllSent(g)
    && (g.recvCount < e.k || g.maxLen == 0)
  }

  lemma LongestEmpty(packets: seq<Bytes>)
    requires forall i :: 0 <= i < |packets| ==> packets[i] == []
    ensures Longest(packets) == 0
  {
    LongestBounds(packets);
  }

  lemma FreshConsistent(e: Engine, now: int)
    requires WellFormed(e)
    ensures Consistent(e, Fresh(e, now)) && Seen(Fresh(e, now)) == {}
  {
    LongestEmpty(Fresh(e, now).packets);
    assert !Fresh(e, now).sent[0];
  }

  /** Everything `Consistent` asks except that the group be unfinished. */
  ghost predicate Buffered(e: Engine, g: Group) {
    && Shape(e, g)
    && (forall i :: 0 <= i < e.n && !g.received[i] ==> g.packets[i] == [])
    && g.maxLen == Longest(g.packets)
    && g.recvCount == |Seen(g)|
    && (forall i :: 0 <= i < e.k ==> g.sent[i] == g.received[i])
  }

  lemma BufferKeeps(e: Engine, g: Group, pkt: Bytes, index: nat)
    requires Buffered(e, g) && index < e.n && !g.received[index]
    ensures var b := Buffer(g, pkt, index >= e.k, index); Buffered(e, b) && Seen(b) == Seen(g) + {index}
  {
    LongestUpdate(g.packets, index, pkt);
    assert Seen(Buffer(g, pkt, index >= e.k, index)) == Seen(g) + {index};
  }

  /** After alignment the engine refuses exactly when every packet is empty. */
  lemma AlignedReconstruct(e: Engine, g: Group)
    requires WellFormed(e) && Buffered(e, g) && g.recvCount >= e.k
    ensures Reconstruct(e, Align(g).packets).None? <==> g.maxLen == 0
    ensures g.maxLen > 0 ==> Present(Align(g).packets) == Seen(g)
    ensures g.maxLen == 0 ==> Align(g) == g
  {
    var a := Align(g).packets;
    LongestBounds(g.packets);
    if g.maxLen == 0 {
      assert a == g.packets;
      assert Present(a) == {};
    } else {
      assert forall i :: 0 <= i < |a| ==> |a[i]| == if g.received[i] then g.maxLen else 0;
      assert Present(a) == Seen(g);
    }
  }

  /** Every packet, sender-produced or not, leaves every stored group consistent. */
  lemma {:induction false} StepKeepsConsistent(e: Engine, timeout: int, og: Option<Group>, pkt: Bytes,
                             isFEC: bool, index: int, now: int)
    requires WellFormed(e) && (og.Some? ==> Consistent(e, og.value))
    ensures var out := Step(e, timeout, og, pkt, isFEC, index, now); out.group.Some? ==> Consistent(e, out.group.value)
  {
    FreshConsistent(e, now);
    var g := Current(e, timeout, og, now);
    if 0 <= index < e.n && isFEC == (index >= e.k) && !g.received[index] {
      BufferKeeps(e, g, pkt, index);
      var b := Buffer(g, pkt, isFEC, index);
      if !AllSent(b) && b.recvCount >= e.k { AlignedReconstruct(e, b); }
    }
  }

  lemma SettleFailsIff(e: Engine, g: Group, passed: seq<Bytes>)
    requires WellFormed(e) && Buffered(e, g)
    ensures Settle(e, g, passed).error == ReconstructFailed
      <==> |Seen(g)| >= e.k && !(Upto(e.k) <= Seen(g)) && g.maxLen == 0
  {
    AllSentIff(e, g);
    if g.recvCount >= e.k { AlignedReconstruct(e, g); }
  }

  lemma BufferedEmptyIff(e: Engine, g: Group, pkt: Bytes, index: nat)
    requires Buffered(e, g) && index < e.n && !g.received[index]
    ensures Buffer(g, pkt, index >= e.k, index).maxLen == 0
      <==> pkt == [] && forall i :: i in Seen(g) ==> g.packets[i] == []
  {
    LongestBounds(g.packets);
  }

  /** Reconstruction is refused exactly when the packet completes (or extends)
      a group of k packets that misses data and holds nothing but empty packets. */
  lemma {:induction false} ReconstructFailsIff(e: Engine, timeout: int, og: Option<Group>, pkt: Bytes,
                             isFEC: bool, index: int, now: int)
    requires WellFormed(e) && (og.Some? ==> Consistent(e, og.value))
    ensures var g := Current(e, timeout, og, now);
      Step(e, timeout, og, pkt, isFEC, index, now).error == ReconstructFailed <==>
        && 0 <= index < e.n && isFEC == (index >= e.k) && index !in Seen(g)
        && |Seen(g) + {index}| >= e.k && !(Upto(e.k) <= Seen(g) + {index})
        && pkt == [] && (forall i :: i in Seen(g) ==> g.packets[i] == [])
  {
    FreshConsistent(e, now);
    var g := Current(e, timeout, og, now);
    if 0 <= index < e.n && isFEC == (index >= e.k) && index !in Seen(g) {
      BufferKeeps(e, g, pkt, index);
      BufferedEmptyIff(e, g, pkt, index);
      SettleFailsIff(e, Buffer(g, pkt, isFEC, index), if isFEC then [] else [pkt]);
    }
  }

  /** A packet is rejected exactly when its index is outside the group or on the
      wrong side of k for its kind; a rejected packet, like a duplicate, releases
      nothing and leaves the receptions alone. */
  lemma {:induction false} RejectedIff(e: Engine, timeout: int, og: Option<Group>, pkt: Bytes,
                                       isFEC: bool, index: int, now: int)
    requires WellFormed(e) && (og.Some? ==> Consistent(e, og.value))
    ensures var g := Current(e, timeout, og, now); var out := Step(e, timeout, og, pkt, isFEC, index, now);
      && (out.error in {BadIndex, ParityIndexTooLow, DataIndexTooHigh}
          <==> !(0 <= index < e.n && isFEC == (index >= e.k)))
      && (out.error in {BadIndex, ParityIndexTooLow, DataIndexTooHigh} || index in Seen(g)
          ==> out.release == [] && out.group == Some(g))
  {
    FreshConsistent(e, now);
  }

  lemma AllSentIff(e: Engine, g: Group)
    requires Buffered(e, g)
    ensures AllSent(g) <==> Upto(e.k) <= Seen(g)
  {
    if Upto(e.k) <= Seen(g) {
      forall i | 0 <= i < e.k
        ensures g.sent[i]
      {
        assert i in Upto(e.k);
      }
    }
  }
}
