/** The analyzer's verdict on a group against what the receiver's decoder itself
    releases when it is given the same packets. */
module Verdict {
  import opened Words
  import opened Wrappers
  import opened Header
  import opened ReedSolomon
  import opened FecGroup
  import opened FecSource
  import opened SenderLog
  import opened EndToEnd
  import Sender
  import Receiver
  import Conservation
  import FecLoss
  import Analyzer
  import AnalyzerHistory
  import AnalyzerState
  import RO = ReleaseOrder

  /** Packets of one group, by index, with the times at which they come. */
  ghost predicate Stream(e: Engine, data: seq<Bytes>, arrivals: seq<nat>, nows: seq<int>) {
    && IsGroup(e, data) && |data| == e.k && |nows| == |arrivals|
    && forall t :: 0 <= t < |arrivals| ==> arrivals[t] < e.n
  }

  lemma StreamFront(e: Engine, data: seq<Bytes>, arrivals: seq<nat>, nows: seq<int>)
    requires Stream(e, data, arrivals, nows) && arrivals != []
    ensures Stream(e, data, arrivals[..|arrivals| - 1], nows[..|nows| - 1])
    ensures Available(e, data, arrivals[|arrivals| - 1])
  {
  }

  /** The decoder's entry for the group, and everything released. */
  function Feed(e: Engine, timeout: int, data: seq<Bytes>, arrivals: seq<nat>, nows: seq<int>): (r: (Option<Group>, seq<Bytes>))
    requires WellFormed(e) && Stream(e, data, arrivals, nows)
    ensures r.0.Some? ==> Consistent(e, r.0.value)
  {
    if arrivals == [] then (None, [])
    else
      StreamFront(e, data, arrivals, nows);
      var (og, released) := Feed(e, timeout, data, arrivals[..|arrivals| - 1], nows[..|nows| - 1]);
      var i, now := arrivals[|arrivals| - 1], nows[|nows| - 1];
      var pkt := Shard(e, data, i);
      StepKeepsConsistent(e, timeout, og, pkt, i >= e.k, i, now);
      var out := Step(e, timeout, og, pkt, i >= e.k, i, now);
      (out.group, released + out.release)
  }

  /** In order of time, and all within the timeout. */
  ghost predicate Timely(nows: seq<int>, timeout: int) {
    forall s, t :: 0 <= s <= t < |nows| ==> 0 <= nows[t] - nows[s] <= timeout
  }

  /** The decoder's entry and releases are those of the index account. */
  ghost predicate Follows(e: Engine, data: seq<Bytes>, arrivals: seq<nat>, nows: seq<int>, og: Option<Group>, released: seq<Bytes>)
    requires WellFormed(e) && IsGroup(e, data)
  {
    var h := RO.Run(e.k, arrivals);
    && Copies(released, data, h.released)
    && (og.Some? <==> h.seen != {})
    && (og.Some? ==> Seen(og.value) == h.seen && HoldsOnly(e, data, og.value) && og.value.createdAt in nows)
  }

  lemma FeedStep(e: Engine, timeout: int, data: seq<Bytes>, before: seq<nat>, times: seq<int>, i: nat, now: int)
    requires WellFormed(e) && Stream(e, data, before, times) && i < e.n
    ensures Stream(e, data, before + [i], times + [now]) && Available(e, data, i)
    ensures var (og, released) := Feed(e, timeout, data, before, times);
      var out := Step(e, timeout, og, Shard(e, data, i), i >= e.k, i, now);
      Feed(e, timeout, data, before + [i], times + [now]) == (out.group, released + out.release)
  {
    assert (before + [i])[..|before|] == before && (times + [now])[..|times|] == times;
  }

  lemma TimelyFront(nows: seq<int>, timeout: int)
    requires nows != [] && Timely(nows, timeout)
    ensures Timely(nows[..|nows| - 1], timeout)
  {
  }

  ghost predicate Followed(e: Engine, timeout: int, data: seq<Bytes>, arrivals: seq<nat>, nows: seq<int>)
    requires WellFormed(e) && Stream(e, data, arrivals, nows)
  {
    var (og, released) := Feed(e, timeout, data, arrivals, nows);
    Follows(e, data, arrivals, nows, og, released)
  }

  lemma FollowedSnoc(e: Engine, timeout: int, data: seq<Bytes>, before: seq<nat>, times: seq<int>, i: nat, now: int)
    requires MDS(e) && Stream(e, data, before, times) && i < e.n && Timely(times + [now], timeout)
    requires Followed(e, timeout, data, before, times)
    ensures Stream(e, data, before + [i], times + [now]) && Followed(e, timeout, data, before + [i], times + [now])
  {
    FeedStep(e, timeout, data, before, times, i, now);
    var (og, released) := Feed(e, timeout, data, before, times);
    FollowStep(e, timeout, data, before, times, og, released, i, now);
  }

  lemma {:induction false} FeedFollows(e: Engine, timeout: int, data: seq<Bytes>, arrivals: seq<nat>, nows: seq<int>)
    requires MDS(e) && Stream(e, data, arrivals, nows) && Timely(nows, timeout)
    ensures Followed(e, timeout, data, arrivals, nows)
  {
    if arrivals == [] {
      NothingFollowed(e, timeout, data, arrivals, nows);
    } else {
      var last := |arrivals| - 1;
      StreamFront(e, data, arrivals, nows);
      TimelyFront(nows, timeout);
      FeedFollows(e, timeout, data, arrivals[..last], nows[..last]);
      SnocBack(arrivals, nows);
      FollowedSnoc(e, timeout, data, arrivals[..last], nows[..last], arrivals[last], nows[last]);
    }
  }

  lemma SnocBack(arrivals: seq<nat>, nows: seq<int>)
    requires |arrivals| == |nows| > 0
    ensures arrivals[..|arrivals| - 1] + [arrivals[|arrivals| - 1]] == arrivals
    ensures nows[..|arrivals| - 1] + [nows[|arrivals| - 1]] == nows
  {
  }

  lemma NothingFollowed(e: Engine, timeout: int, data: seq<Bytes>, arrivals: seq<nat>, nows: seq<int>)
    requires WellFormed(e) && Stream(e, data, arrivals, nows) && arrivals == []
    ensures Followed(e, timeout, data, arrivals, nows)
  {
  }

  lemma FollowStep(e: Engine, timeout: int, data: seq<Bytes>, before: seq<nat>, times: seq<int>,
                   og: Option<Group>, released: seq<Bytes>, i: nat, now: int)
    requires MDS(e) && IsGroup(e, data) && Available(e, data, i) && Timely(times + [now], timeout)
    requires (og.Some? ==> Consistent(e, og.value)) && Follows(e, data, before, times, og, released)
    ensures var out := Step(e, timeout, og, Shard(e, data, i), i >= e.k, i, now);
      Follows(e, data, before + [i], times + [now], out.group, released + out.release)
  {
    CurrentIs(e, timeout, data, times, og, now);
    StepRefines(e, timeout, og, data, i, now);
    var h := RO.Run(e.k, before);
    assert (before + [i])[..|before|] == before;
    var out := Step(e, timeout, og, Shard(e, data, i), i >= e.k, i, now);
    CopiesConcat(released, out.release, data, h.released, RO.Releases(e.k, h.seen, i));
  }

  /** The state met is the group's own, or fresh if there is none. */
  lemma CurrentIs(e: Engine, timeout: int, data: seq<Bytes>, times: seq<int>, og: Option<Group>, now: int)
    requires WellFormed(e) && IsGroup(e, data) && Timely(times + [now], timeout)
    requires og.Some? ==> Consistent(e, og.value) && HoldsOnly(e, data, og.value) && og.value.createdAt in times
    ensures var g := Current(e, timeout, og, now);
      && Consistent(e, g) && HoldsOnly(e, data, g) && g.createdAt in times + [now]
      && Seen(g) == if og.Some? then Seen(og.value) else {}
  {
    var nows := times + [now];
    assert nows[|nows| - 1] == now;
    if og.Some? {
      var t :| 0 <= t < |times| && times[t] == og.value.createdAt;
      assert nows[t] == times[t];
    } else {
      FreshHoldsOnly(e, data, now);
    }
  }

  // ---- Packets that never come out -----------------------------------------

  /** No packet is a copy of two. */
  ghost predicate ToldApart(data: seq<Bytes>) {
    forall p, x, y :: IsCopy(p, data, x) && IsCopy(p, data, y) ==> x == y
  }

  /** The data packets of which no copy was released. */
  ghost function NeverOut(k: nat, data: seq<Bytes>, released: seq<Bytes>): (s: set<nat>)
    ensures forall x :: x in s <==> 0 <= x < k && !Out(data, released, x)
  {
    set x | x in Upto(k) && !Out(data, released, x)
  }

  ghost predicate Out(data: seq<Bytes>, released: seq<Bytes>, x: nat) {
    exists t :: 0 <= t < |released| && IsCopy(released[t], data, x)
  }

  lemma OutIsReleased(data: seq<Bytes>, released: seq<Bytes>, indices: seq<nat>, x: nat)
    requires Copies(released, data, indices) && ToldApart(data)
    ensures Out(data, released, x) <==> x in indices
  {
    if x in indices {
      var t :| 0 <= t < |indices| && indices[t] == x;
      assert IsCopy(released[t], data, x);
    }
    if t :| 0 <= t < |released| && IsCopy(released[t], data, x) {
      assert IsCopy(released[t], data, indices[t]);
    }
  }

  lemma NeverOutIs(k: nat, data: seq<Bytes>, released: seq<Bytes>, arrivals: seq<nat>)
    requires Copies(released, data, RO.Run(k, arrivals).released) && ToldApart(data)
    ensures NeverOut(k, data, released) == Analyzer.NeverReleased(k, arrivals)
  {
    forall x: nat | x < k
      ensures x in NeverOut(k, data, released) <==> x in Analyzer.NeverReleased(k, arrivals)
    {
      OutIsReleased(data, released, RO.Run(k, arrivals).released, x);
      assert x in RO.Run(k, arrivals).released <==> RO.Times(k, arrivals, x) > 0;
    }
  }

  /** For any code, any packets of a group and any order and repetition of
      arrivals within the timeout: the analyzer's `lost` is the number of data
      packets of which the decoder releases no copy, and its `recovered` the
      number released though they never arrived. */
  lemma {:induction false} DecoderAgrees(e: Engine, timeout: int, data: seq<Bytes>, arrivals: seq<nat>, nows: seq<int>,
                                         s: Analyzer.Sim, id: nat)
    requires MDS(e) && Stream(e, data, arrivals, nows) && Timely(nows, timeout) && ToldApart(data)
    requires Analyzer.Shaped(e.k, e.n, s) && id in s.groups
    requires RO.SetOf(arrivals) == Analyzer.Flagged(s.groups[id].received, e.n)
    ensures var r := Analyzer.Finalize(e.k, s, id);
      var out := NeverOut(e.k, data, Feed(e, timeout, data, arrivals, nows).1);
      && r.lost - s.lost == |out|
      && r.recovered - s.recovered == |Upto(e.k) - RO.SetOf(arrivals) - out|
      && r.delivered - s.delivered == |Upto(e.k) * RO.SetOf(arrivals)|
  {
    FeedFollows(e, timeout, data, arrivals, nows);
    NeverOutIs(e.k, data, Feed(e, timeout, data, arrivals, nows).1, arrivals);
    Analyzer.VerdictAgrees(e.k, e.n, s, id, arrivals);
  }

  /** The packets of a sender's group are told apart by the index in their headers. */
  lemma {:induction false} SenderTellsApart(s: Setting, a: nat)
    requires Sound(s) && a <= |s.log.complete|
    ensures ToldApart(Data(s, a))
  {
    forall p, x, y | IsCopy(p, Data(s, a), x) && IsCopy(p, Data(s, a), y)
      ensures x == y
    {
      CopyShowsIndex(s, a, p, x);
      CopyShowsIndex(s, a, p, y);
    }
  }

  lemma CopyShowsIndex(s: Setting, a: nat, p: Bytes, x: nat)
    requires Sound(s) && a <= |s.log.complete| && IsCopy(p, Data(s, a), x)
    ensures Deserialize(p).Some? && IndexOf(Deserialize(p).value.fecInfo) == x
  {
    DataShowsIndex(s, a, x);
    assert Data(s, a)[x] <= p;
    HeaderIsPrefix(Data(s, a)[x], p);
  }

  lemma DataShowsIndex(s: Setting, a: nat, x: nat)
    requires Sound(s) && a <= |s.log.complete| && x < |Data(s, a)|
    ensures var d := Data(s, a)[x]; |d| >= HEADER_SIZE && Deserialize(d).Some? && IndexOf(Deserialize(d).value.fecInfo) == x
  {
    FewerThanMade(s, a, x);
    PacketAt(s.config, s.log, a, x);
    WireShowsIndex(s, Start(a, E(s).n) + x);
  }

  lemma FewerThanMade(s: Setting, a: nat, x: nat)
    requires Sound(s) && a <= |s.log.complete| && x < |Data(s, a)|
    ensures x < Made(s.config, s.log, a)
  {
    if a < |s.log.complete| { assert |s.log.complete[a].data| == E(s).k; }
  }

  lemma WireShowsIndex(s: Setting, pos: nat)
    requires Sound(s) && pos < |s.log.wire|
    ensures Genuine(s, pos)
    ensures var d := s.log.wire[pos]; d.index < |Data(s, d.group)| ==>
      && Data(s, d.group)[d.index] == d.bytes && |d.bytes| >= HEADER_SIZE
      && Deserialize(d.bytes).Some? && IndexOf(Deserialize(d.bytes).value.fecInfo) == d.index
  {
    WireDatagram(s, pos);
    var d := s.log.wire[pos];
    if d.index < |Data(s, d.group)| { ShardShowsIndex(E(s), Data(s, d.group), d); }
  }

  lemma ShardShowsIndex(e: Engine, data: seq<Bytes>, d: Datagram)
    requires WellFormed(e) && DatagramOk(e, data, d) && d.index < |data|
    ensures data[d.index] == d.bytes && |d.bytes| >= HEADER_SIZE
    ensures Deserialize(d.bytes).Some? && IndexOf(Deserialize(d.bytes).value.fecInfo) == d.index
  {
  }

  // ---- On a stream that carries parity itself ---------------------------------

  lemma Parted(k: nat, seen: set<nat>)
    ensures |Upto(k) - seen| == k - |Upto(k) * seen|
    ensures Upto(k) - seen == {} <==> Upto(k) <= seen
  {
    Analyzer.SplitSize(Upto(k), seen);
  }

  /** The receive loop tells the analyzer of data only. Of a group of the
      stream's own code it then scores every missing data packet as lost. The
      decoder, given the parity too, agrees exactly if fewer than k packets or
      all the data arrive; otherwise it rebuilds what the analyzer calls lost. */
  lemma {:induction false} OwnStreamDisagrees(e: Engine, timeout: int, data: seq<Bytes>, arrivals: seq<nat>, nows: seq<int>,
                                              s: Analyzer.Sim, id: nat)
    requires MDS(e) && Stream(e, data, arrivals, nows) && Timely(nows, timeout) && ToldApart(data)
    requires Analyzer.Shaped(e.k, e.n, s) && id in s.groups
    requires Analyzer.Flagged(s.groups[id].received, e.n) == RO.SetOf(arrivals) * Upto(e.k)
    ensures var r := Analyzer.Finalize(e.k, s, id); var arrived := RO.SetOf(arrivals);
      var out := NeverOut(e.k, data, Feed(e, timeout, data, arrivals, nows).1);
      && r.recovered == s.recovered
      && r.lost - s.lost == e.k - |Upto(e.k) * arrived|
      && r.lost - s.lost == |out| + (if |arrived| >= e.k then e.k - |Upto(e.k) * arrived| else 0)
      && (r.lost - s.lost == |out| <==> |arrived| < e.k || Upto(e.k) <= arrived)
  {
    var arrived, flags := RO.SetOf(arrivals), s.groups[id].received;
    FeedFollows(e, timeout, data, arrivals, nows);
    NeverOutIs(e.k, data, Feed(e, timeout, data, arrivals, nows).1, arrivals);
    Analyzer.NeverReleasedIs(e.k, arrivals);
    Parted(e.k, arrived);
    FlagsAreData(e.k, e.n, flags, arrived);
  }

  lemma FlagsAreData(k: nat, n: nat, flags: seq<bool>, arrived: set<nat>)
    requires k <= n == |flags| && Analyzer.Flagged(flags, n) == arrived * Upto(k)
    ensures Analyzer.Count(flags, n) == Analyzer.Count(flags, k) == |Upto(k) * arrived|
  {
    Analyzer.DataHeard(flags, k, n);
    assert Upto(k) * Analyzer.Flagged(flags, n) == Analyzer.Flagged(flags, n) == Upto(k) * arrived;
  }

  /** Whatever datagrams of a worker's wire a receiver has read, the simulator
      with the worker's own (k, n) has recovered nothing. */
  lemma {:induction false} OwnCodeNeverRecovers(c: Sender.Config, items: seq<Sender.Item>, ps: seq<nat>,
                                                fa: AnalyzerState.FECAnalyzer, i: nat)
    requires c.engine.Some? && Sender.GoodConfig(c) && NoFailures(c, items) && |SendAll(c, items).wire| <= 0x1_0000_0000
    requires Conservation.OnLog(SendAll(c, items), ps)
    requires fa.Valid() && i < |fa.sims| && fa.sims[i].k == c.engine.value.k && fa.sims[i].n == c.engine.value.n
    requires AnalyzerState.HeardIn(fa.told) == Receiver.Numbers(Conservation.DatagramsAt(SendAll(c, items), ps))
    ensures fa.sims[i].recoveredPackets == 0
  {
    var sim, log := fa.sims[i], SendAll(c, items);
    assert AnalyzerState.FECAnalyzer.Knows(sim, fa.told);
    AnalyzerState.HeardIsTold(sim.log);
    RunFills(c, items);
    forall q | q in Analyzer.Heard(sim.log)
      ensures AnalyzerHistory.DataPlace(sim.k, sim.n, q)
    {
      NumberIsDataPlace(c, log, ps, q);
    }
    AnalyzerHistory.DataOnlyNeverRecovers(sim.k, sim.n, sim.log);
  }

  lemma NumberIsDataPlace(c: Sender.Config, log: Log, ps: seq<nat>, q: nat)
    requires c.engine.Some? && Sender.GoodConfig(c) && LogOk(c, log) && log.failures == 0 && |log.wire| <= 0x1_0000_0000
    requires Conservation.OnLog(log, ps) && q in Receiver.Numbers(Conservation.DatagramsAt(log, ps))
    ensures AnalyzerHistory.DataPlace(c.engine.value.k, c.engine.value.n, q)
  {
    var ds := Conservation.DatagramsAt(log, ps);
    var d :| d in ds && Receiver.Counted(d) && Receiver.SeqOf(d) == q;
    var t :| 0 <= t < |ds| && ds[t] == d;
    CountedIsData(c, log, ps[t]);
  }

  lemma CountedIsData(c: Sender.Config, log: Log, p: nat)
    requires c.engine.Some? && Sender.GoodConfig(c) && LogOk(c, log) && log.failures == 0 && |log.wire| <= 0x1_0000_0000
    requires p < |log.wire| && Receiver.Counted(log.wire[p].bytes)
    ensures AnalyzerHistory.DataPlace(c.engine.value.k, c.engine.value.n, Receiver.SeqOf(log.wire[p].bytes))
  {
    FecLoss.CountedAt(c, log, p);
    NumberAt(c, log, p);
    PlaceIndex(log.wire[p], c.engine.value.n, p);
    assert p % 0x1_0000_0000 == p;
  }

  lemma PlaceIndex(d: Datagram, n: nat, p: nat)
    requires d.index < n && Position(d, n) == p
    ensures p % n == d.index
  {
    PositionIsPlace(d, n);
    ModUnique(p, d.group, d.index, n);
  }
}
