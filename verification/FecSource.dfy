/** One group as its sender made it, and the refinement of the reception state
    by the index-only account of `ReleaseOrder`. */
module FecSource {
  import opened Words
  import opened Wrappers
  import opened ReedSolomon
  import opened FecGroup
  import RO = ReleaseOrder

  function PadAll(data: seq<Bytes>, len: nat): (r: seq<Bytes>)
    requires forall i :: 0 <= i < |data| ==> |data[i]| <= len
    ensures |r| == |data| && AllLength(r, len)
  {
    seq(|data|, i requires 0 <= i < |data| => Pad(data[i], len))
  }

  /** The data packets brought to the length of the longest one. */
  function Aligned(data: seq<Bytes>): (r: seq<Bytes>)
    ensures |r| == |data| && AllLength(r, Longest(data))
  {
    LongestBounds(data);
    PadAll(data, Longest(data))
  }

  /** Packets of one group of the sender: at most k so far, none of them empty. */
  ghost predicate IsGroup(e: Engine, data: seq<Bytes>) {
    && |data| <= e.k
    && forall i :: 0 <= i < |data| ==> data[i] != []
  }

  /** Parity exists only once all k data packets do. */
  predicate Available(e: Engine, data: seq<Bytes>, i: nat) {
    i < |data| || (|data| == e.k && i < e.n)
  }

  lemma GroupLongest(e: Engine, data: seq<Bytes>)
    requires WellFormed(e) && IsGroup(e, data) && |data| == e.k
    ensures Longest(data) > 0
    ensures |Codeword(e, Aligned(data))| == e.n && AllLength(Codeword(e, Aligned(data)), Longest(data))
  {
    LongestBounds(data);
    assert |data[0]| > 0;
    assert AllLength(Aligned(data), Longest(data));
    var parity := e.parity(Aligned(data));
    assert |parity| == e.n - e.k && AllLength(parity, Longest(data));
  }

  /** What the sender hands to the FEC layer of the receiver under index `i`. */
  function Shard(e: Engine, data: seq<Bytes>, i: nat): Bytes
    requires WellFormed(e) && IsGroup(e, data) && Available(e, data, i)
  {
    if i < |data| then data[i]
    else
      GroupLongest(e, data);
      Codeword(e, Aligned(data))[i]
  }

  /** `g` holds packets of this one group only. */
  ghost predicate HoldsOnly(e: Engine, data: seq<Bytes>, g: Group)
    requires WellFormed(e) && IsGroup(e, data)
  {
    && Shape(e, g)
    && forall i :: i in Seen(g) ==> Available(e, data, i) && g.packets[i] == Shard(e, data, i)
  }

  /** Released packets are the named data packets, up to trailing zeros. */
  ghost predicate Copies(release: seq<Bytes>, data: seq<Bytes>, indices: seq<nat>) {
    && |release| == |indices|
    && forall t :: 0 <= t < |release| ==> IsCopy(release[t], data, indices[t])
  }

  ghost predicate IsCopy(p: Bytes, data: seq<Bytes>, i: nat) {
    && i < |data|
    && (p == data[i] || (|data[i]| <= Longest(data) && p == Pad(data[i], Longest(data))))
  }

  lemma CopiesConcat(r1: seq<Bytes>, r2: seq<Bytes>, data: seq<Bytes>, i1: seq<nat>, i2: seq<nat>)
    requires Copies(r1, data, i1) && Copies(r2, data, i2)
    ensures Copies(r1 + r2, data, i1 + i2)
  {
  }

  /** Padding agreement: when data is missing from k receptions, one of them is
      a parity packet, so the receiver's longest length is the encoder's. */
  lemma {:induction false} PaddingAgrees(e: Engine, data: seq<Bytes>, g: Group)
    requires MDS(e) && IsGroup(e, data) && Buffered(e, g) && HoldsOnly(e, data, g)
    requires |Seen(g)| >= e.k && !(Upto(e.k) <= Seen(g))
    ensures |data| == e.k && g.maxLen == Longest(data) > 0
    ensures Erasure(Align(g).packets, Codeword(e, Aligned(data)))
    ensures Present(Align(g).packets) == Seen(g)
  {
    var p := SomeParity(e, g);
    GroupLongest(e, data);
    LongestBounds(data);
    LongestBounds(g.packets);
    assert |g.packets[p]| == Longest(data);
    forall i | 0 <= i < e.n
      ensures |g.packets[i]| <= Longest(data)
    {
      if i in Seen(g) { assert g.packets[i] == Shard(e, data, i); }
    }
    AlignedReconstruct(e, g);
    var a := Align(g).packets;
    forall i | 0 <= i < e.n
      ensures a[i] == [] || a[i] == Codeword(e, Aligned(data))[i]
    {
      if i in Seen(g) { AlignedShard(e, data, g, i); }
    }
  }

  lemma AlignedShard(e: Engine, data: seq<Bytes>, g: Group, i: nat)
    requires WellFormed(e) && IsGroup(e, data) && HoldsOnly(e, data, g) && i in Seen(g)
    requires |data| == e.k && g.maxLen == Longest(data)
    ensures Align(g).packets[i] == Codeword(e, Aligned(data))[i]
  {
    GroupLongest(e, data);
    LongestBounds(data);
    if i < e.k && |data[i]| == Longest(data) {
      assert Pad(data[i], Longest(data)) == data[i];
    }
  }

  lemma SomeParity(e: Engine, g: Group) returns (p: nat)
    requires Shape(e, g) && |Seen(g)| >= e.k && !(Upto(e.k) <= Seen(g))
    ensures p in Seen(g) && p >= e.k
  {
    if forall i :: i in Seen(g) ==> i < e.k {
      SubsetSize(Seen(g), Upto(e.k));
    }
    p :| p in Seen(g) && p >= e.k;
  }

  /** The shards still unsent from `j` on are the data packets still missing from `j` on. */
  lemma {:induction false} UnsentAreMissing(e: Engine, data: seq<Bytes>, shards: seq<Bytes>, sent: seq<bool>, seen: set<nat>, j: nat)
    requires |data| == e.k == |sent| <= |shards|
    requires forall i :: 0 <= i < e.k ==> sent[i] == (i in seen) && IsCopy(shards[i], data, i)
    ensures Copies(Unsent(shards, sent, j), data, RO.Missing(e.k, seen, j))
    decreases e.k - j
  {
    if j >= e.k {
    } else {
      UnsentAreMissing(e, data, shards, sent, seen, j + 1);
      if !sent[j] {
        CopiesConcat([shards[j]], Unsent(shards, sent, j + 1), data, [j], RO.Missing(e.k, seen, j + 1));
      }
    }
  }

  lemma NothingMissing(k: nat, seen: set<nat>, j: nat)
    requires Upto(k) <= seen
    ensures RO.Missing(k, seen, j) == []
    decreases k - j
  {
    if j >= k {
    } else {
      assert j in Upto(k);
      NothingMissing(k, seen, j + 1);
    }
  }

  /** Settling a buffered group releases what the index account says. */
  lemma SettleRefines(e: Engine, data: seq<Bytes>, g: Group, passed: seq<Bytes>, passedIndices: seq<nat>)
    requires MDS(e) && IsGroup(e, data) && Buffered(e, g) && HoldsOnly(e, data, g)
    requires Copies(passed, data, passedIndices)
    ensures var out := Settle(e, g, passed);
      && out.error == NoError
      && out.group == (if |Seen(g)| >= e.k then None else Some(g))
      && Copies(out.release, data, passedIndices + (if |Seen(g)| >= e.k then RO.Missing(e.k, Seen(g), 0) else []))
  {
    AllSentIff(e, g);
    if AllSent(g) {
      SubsetSize(Upto(e.k), Seen(g));
      NothingMissing(e.k, Seen(g), 0);
      assert passedIndices + [] == passedIndices;
    } else if g.recvCount < e.k {
      assert passedIndices + [] == passedIndices;
    } else {
      PaddingAgrees(e, data, g);
      GroupLongest(e, data);
      LongestBounds(data);
      AlignedReconstruct(e, g);
      var word := Codeword(e, Aligned(data));
      assert AllLength(Aligned(data), Longest(data));
      assert Reconstruct(e, Align(g).packets) == Some(word);
      assert forall i :: 0 <= i < e.k ==> word[i] == Pad(data[i], Longest(data));
      UnsentAreMissing(e, data, word, g.sent, Seen(g), 0);
      CopiesConcat(passed, Unsent(word, g.sent, 0), data, passedIndices, RO.Missing(e.k, Seen(g), 0));
    }
  }

  lemma FewerThanK(e: Engine, data: seq<Bytes>, g: Group)
    requires WellFormed(e) && IsGroup(e, data) && Consistent(e, g) && HoldsOnly(e, data, g)
    ensures |Seen(g)| < e.k
  {
    if i :| i in Seen(g) {
      if |data| == e.k { GroupLongest(e, data); }
      LongestBounds(g.packets);
      assert g.packets[i] == Shard(e, data, i) != [];
    }
  }

  /** A packet the group does not have yet. */
  lemma NewRefines(e: Engine, data: seq<Bytes>, g: Group, i: nat, passed: seq<Bytes>)
    requires MDS(e) && IsGroup(e, data) && Available(e, data, i) && Consistent(e, g) && HoldsOnly(e, data, g)
    requires i !in Seen(g) && passed == if i >= e.k then [] else [Shard(e, data, i)]
    ensures var out := Settle(e, Buffer(g, Shard(e, data, i), i >= e.k, i), passed); var seen := Seen(g) + {i};
      && out.error == NoError
      && (out.group.Some? <==> |seen| < e.k)
      && (out.group.Some? ==> Seen(out.group.value) == seen && HoldsOnly(e, data, out.group.value)
                              && out.group.value.createdAt == g.createdAt)
      && Copies(out.release, data, (if i < e.k then [i] else []) + if |seen| >= e.k then RO.Missing(e.k, seen, 0) else [])
  {
    var pkt := Shard(e, data, i);
    BufferKeeps(e, g, pkt, i);
    var b := Buffer(g, pkt, i >= e.k, i);
    assert HoldsOnly(e, data, b);
    SettleRefines(e, data, b, passed, if i < e.k then [i] else []);
  }

  /** One packet of the group, put into a state that holds only packets of the
      group, does what the index account says, and the state stays unmixed. */
  lemma {:induction false} StepRefines(e: Engine, timeout: int, og: Option<Group>, data: seq<Bytes>, i: nat, now: int)
    requires MDS(e) && IsGroup(e, data) && Available(e, data, i)
    requires og.Some? ==> Shape(e, og.value)
    requires var g := Current(e, timeout, og, now); Consistent(e, g) && HoldsOnly(e, data, g)
    ensures var g := Current(e, timeout, og, now);
      var out := Step(e, timeout, og, Shard(e, data, i), i >= e.k, i, now);
      var seen := RO.Seen(e.k, Seen(g), i);
      && out.error == NoError
      && (out.group.Some? <==> seen != {})
      && (out.group.Some? ==> Seen(out.group.value) == seen && HoldsOnly(e, data, out.group.value)
                              && out.group.value.createdAt == g.createdAt)
      && Copies(out.release, data, RO.Releases(e.k, Seen(g), i))
  {
    var g := Current(e, timeout, og, now);
    FewerThanK(e, data, g);
    assert i < e.n ==> (g.received[i] <==> i in Seen(g));
    if i !in Seen(g) { NewRefines(e, data, g, i, if i >= e.k then [] else [Shard(e, data, i)]); }
  }
}
