/** The loss counters on an FEC stream: they see data packets only, but parity
    packets consume sequence numbers too. */
module FecLoss {
  import opened Words
  import opened Wrappers
  import opened ReedSolomon
  import opened LossWindow
  import W = Sender
  import SenderLog
  import Receiver

  /** The unwrapped sequence number of the j-th data packet when k of every n packets are data. */
  function DataPos(k: nat, n: nat, j: nat): nat
    requires k > 0
  {
    SenderLog.Start(j / k, n) + j % k
  }

  /** What the counters see of the first m data packets of a lossless stream. */
  function DataStream(k: nat, n: nat, m: nat): (us: seq<int>)
    requires k > 0
    ensures |us| == m
  {
    seq(m, j requires 0 <= j < m => DataPos(k, n, j))
  }

  lemma NextDataPos(k: nat, n: nat, j: nat)
    requires 0 < k <= n
    ensures DataPos(k, n, j + 1) == DataPos(k, n, j) + 1 + if (j + 1) % k == 0 then n - k else 0
    ensures (j + 1) / k == j / k + if (j + 1) % k == 0 then 1 else 0
  {
    var q, r := j / k, j % k;
    assert j + 1 == q * k + r + 1;
    if r + 1 == k {
      assert (q + 1) * k == q * k + k;
      ModUnique(j + 1, q + 1, 0, k);
    } else {
      ModUnique(j + 1, q, r + 1, k);
    }
  }

  lemma StreamFront(k: nat, n: nat, m: nat)
    requires k > 0 && m > 1
    ensures DataStream(k, n, m)[..m - 1] == DataStream(k, n, m - 1)
  {
  }

  lemma {:induction false} StreamInRange(k: nat, n: nat, m: nat)
    requires 0 < k <= n <= 16 && m > 0
    ensures InRange(DataStream(k, n, m)) && Newest(DataStream(k, n, m)) == DataPos(k, n, m - 1)
  {
    if m == 1 {
    } else {
      StreamInRange(k, n, m - 1);
      StreamFront(k, n, m);
      NextDataPos(k, n, m - 2);
    }
  }

  lemma StreamLossStep(k: nat, n: nat, m: nat)
    requires 0 < k <= n <= 16 && m > 1
    ensures InRange(DataStream(k, n, m)) && InRange(DataStream(k, n, m - 1))
    ensures Run(DataStream(k, n, m)).lost == Run(DataStream(k, n, m - 1)).lost + if (m - 1) % k == 0 then n - k else 0
  {
    StreamInRange(k, n, m);
    StreamInRange(k, n, m - 1);
    StreamFront(k, n, m);
    NextDataPos(k, n, m - 2);
    LossStep(DataStream(k, n, m));
  }

  lemma ProductStep(k: nat, d: nat, j: nat)
    requires k > 0
    ensures ((j + 1) / k) * d == (j / k) * d + if (j + 1) % k == 0 then d else 0
  {
    NextDataPos(k, k, j);
    assert (j / k + 1) * d == (j / k) * d + d;
  }

  lemma FirstOfStream(k: nat, n: nat)
    requires k > 0
    ensures InRange(DataStream(k, n, 1)) && Run(DataStream(k, n, 1)).lost == 0 && 0 / k == 0
  {
    OneArrival(DataPos(k, n, 0));
    assert DataStream(k, n, 1) == [DataPos(k, n, 0)];
    ModUnique(0, 0, 0, k);
  }

  /** One report of `d` lost packets each time a new group begins. */
  function Reported(k: nat, d: nat, m: nat): nat
    requires k > 0
  {
    if m <= 1 then 0 else Reported(k, d, m - 1) + if (m - 1) % k == 0 then d else 0
  }

  lemma ReportedIsProduct(k: nat, d: nat, m: nat)
    requires k > 0 && m > 0
    ensures Reported(k, d, m) == ((m - 1) / k) * d
  {
    if m > 1 {
      ReportedIsProduct(k, d, m - 1);
      ProductStep(k, d, m - 2);
    } else {
      ModUnique(0, 0, 0, k);
    }
  }

  lemma StreamReports(k: nat, n: nat, m: nat)
    requires 0 < k <= n <= 16 && m > 0
    ensures InRange(DataStream(k, n, m)) && Run(DataStream(k, n, m)).lost == Reported(k, n - k, m)
  {
    if m > 1 {
      StreamReports(k, n, m - 1);
      StreamLossStep(k, n, m);
    } else {
      FirstOfStream(k, n);
    }
  }

  /** A lossless stream of m data packets is reported as losing n - k packets
      for every completed group that more data follows. */
  lemma {:induction false} LosslessStreamReportsLoss(k: nat, n: nat, m: nat)
    requires 0 < k <= n <= 16 && m > 0
    ensures InRange(DataStream(k, n, m))
    ensures Run(DataStream(k, n, m)).lost == ((m - 1) / k) * (n - k)
  {
    StreamReports(k, n, m);
    ReportedIsProduct(k, n - k, m);
  }

  // ---- The worker's own wire, as the receive loop counts it ----------------

  lemma DataPosAt(k: nat, n: nat, a: nat, i: nat)
    requires i < k
    ensures DataPos(k, n, SenderLog.Start(a, k) + i) == SenderLog.Start(a, n) + i
  {
    SenderLog.StartIsProduct(a, k);
    ModUnique(a * k + i, a, i, k);
  }

  lemma AnyStreamInRange(k: nat, n: nat, m: nat)
    requires 0 < k <= n <= 16
    ensures InRange(DataStream(k, n, m))
  {
    if m > 0 { StreamInRange(k, n, m); }
  }

  /** The sequence numbers that reach the loss counters. */
  function Counts(ds: seq<Bytes>): seq<uint32> {
    if ds == [] then []
    else
      var d := ds[|ds| - 1];
      Counts(ds[..|ds| - 1]) + if Receiver.Counted(d) then [Receiver.SeqOf(d)] else []
  }

  function WrappedAll(us: seq<int>): (r: seq<uint32>)
    ensures |r| == |us|
  {
    seq(|us|, i requires 0 <= i < |us| => Wrapped(us[i]))
  }

  lemma RunSnoc(us: seq<int>)
    requires us != [] && InRange(us)
    ensures InRange(us[..|us| - 1])
    ensures var w, s := Run(us[..|us| - 1]), Wrapped(us[|us| - 1]); Defined(w, s) && Run(us) == Update(w, s)
  {
    if |us| > 1 { DiffIsExact(us[|us| - 1], Newest(us[..|us| - 1])); }
  }

  lemma CountsLast(ds: seq<Bytes>, us: seq<int>)
    requires ds != [] && Counts(ds) == WrappedAll(us)
    ensures var d, front := ds[|ds| - 1], ds[..|ds| - 1];
      if Receiver.Counted(d)
      then us != [] && Counts(front) == WrappedAll(us[..|us| - 1]) && Receiver.SeqOf(d) == Wrapped(us[|us| - 1])
      else Counts(front) == WrappedAll(us)
  {
    var d, front := ds[|ds| - 1], ds[..|ds| - 1];
    if Receiver.Counted(d) {
      assert Counts(ds)[..|Counts(ds)| - 1] == Counts(front);
      assert WrappedAll(us)[..|us| - 1] == WrappedAll(us[..|us| - 1]);
      assert Counts(ds)[|us| - 1] == Receiver.SeqOf(d);
    }
  }

  lemma TallyLast(ds: seq<Bytes>, w: Window)
    requires ds != [] && Receiver.Tally(EMPTY, ds[..|ds| - 1]) == Some(w)
    ensures var d := ds[|ds| - 1];
      if !Receiver.Counted(d) then Receiver.Tally(EMPTY, ds) == Some(w)
      else Defined(w, Receiver.SeqOf(d)) ==> Receiver.Tally(EMPTY, ds) == Some(Update(w, Receiver.SeqOf(d)))
  {
  }

  /** The receiver's statistics are those of the numbers counted. */
  lemma {:induction false} TallyIsRun(ds: seq<Bytes>, us: seq<int>)
    requires InRange(us) && Counts(ds) == WrappedAll(us)
    ensures Receiver.Tally(EMPTY, ds) == Some(Run(us))
  {
    if ds == [] {
      assert us == [];
    } else {
      CountsLast(ds, us);
      var counted := Receiver.Counted(ds[|ds| - 1]);
      if counted { RunSnoc(us); }
      var front := if counted then us[..|us| - 1] else us;
      TallyIsRun(ds[..|ds| - 1], front);
      TallyLast(ds, Run(front));
    }
  }

  /** Data datagrams are counted under their place on the wire, parity is not counted. */
  lemma CountedAt(c: W.Config, log: SenderLog.Log, p: nat)
    requires c.engine.Some? && WellFormed(c.engine.value) && SenderLog.LogOk(c, log) && log.failures == 0 && p < |log.wire|
    ensures var d := log.wire[p];
      && Receiver.Accepted(d.bytes)
      && (Receiver.Counted(d.bytes) <==> d.index < c.engine.value.k)
      && Receiver.SeqOf(d.bytes) == Wrapped(p)
  {
    SenderLog.NumberAt(c, log, p);
    assert SenderLog.WireOk(c.engine.value, log, p);
  }

  /** How many data packets are among the groups before `a` and the first `i` packets of `a`. */
  function DataBefore(k: nat, a: nat, i: nat): nat {
    SenderLog.Start(a, k) + if i < k then i else k
  }

  /** The counted numbers of the first p datagrams are a lossless stream of m, modulo 2^32. */
  ghost predicate Streams(log: SenderLog.Log, k: nat, n: nat, p: nat, m: nat)
    requires k > 0
  {
    p <= |log.wire| && Counts(SenderLog.Untag(log.wire[..p])) == WrappedAll(DataStream(k, n, m))
  }

  lemma StreamsNext(c: W.Config, log: SenderLog.Log, p: nat, m: nat)
    requires c.engine.Some? && W.GoodConfig(c) && SenderLog.LogOk(c, log) && log.failures == 0 && p < |log.wire|
    requires Streams(log, c.engine.value.k, c.engine.value.n, p, m)
    requires log.wire[p].index < c.engine.value.k ==> DataPos(c.engine.value.k, c.engine.value.n, m) == p
    ensures Streams(log, c.engine.value.k, c.engine.value.n, p + 1, if log.wire[p].index < c.engine.value.k then m + 1 else m)
  {
    var k, n := c.engine.value.k, c.engine.value.n;
    CountedAt(c, log, p);
    var before, d := SenderLog.Untag(log.wire[..p]), log.wire[p].bytes;
    assert SenderLog.Untag(log.wire[..p + 1]) == before + [d];
    assert (before + [d])[..p] == before;
    assert WrappedAll(DataStream(k, n, m + 1)) == WrappedAll(DataStream(k, n, m)) + [Wrapped(DataPos(k, n, m))];
  }

  lemma StreamsPacket(c: W.Config, log: SenderLog.Log, a: nat, i: nat)
    requires c.engine.Some? && W.GoodConfig(c) && SenderLog.LogOk(c, log) && log.failures == 0
    requires a <= |log.complete| && i < SenderLog.Made(c, log, a)
    requires Streams(log, c.engine.value.k, c.engine.value.n, SenderLog.Start(a, c.engine.value.n) + i,
                     DataBefore(c.engine.value.k, a, i))
    ensures Streams(log, c.engine.value.k, c.engine.value.n, SenderLog.Start(a, c.engine.value.n) + (i + 1),
                    DataBefore(c.engine.value.k, a, i + 1))
  {
    var k, n := c.engine.value.k, c.engine.value.n;
    SenderLog.PacketAt(c, log, a, i);
    var p, m := SenderLog.Start(a, n) + i, DataBefore(k, a, i);
    if i < k { DataPosAt(k, n, a, i); }
    StreamsNext(c, log, p, m);
    assert p + 1 == SenderLog.Start(a, n) + (i + 1);
    assert DataBefore(k, a, i + 1) == if i < k then m + 1 else m;
  }

  /** After the first `i` packets of group `a` the receiver has counted the
      data of the groups before and the data among the `i`. */
  lemma {:induction false} StreamsPrefix(c: W.Config, log: SenderLog.Log, a: nat, i: nat)
    requires c.engine.Some? && W.GoodConfig(c) && SenderLog.LogOk(c, log) && log.failures == 0
    requires a <= |log.complete| && i <= SenderLog.Made(c, log, a)
    ensures var k, n := c.engine.value.k, c.engine.value.n;
      Streams(log, k, n, SenderLog.Start(a, n) + i, DataBefore(k, a, i))
    decreases a, i
  {
    var k, n := c.engine.value.k, c.engine.value.n;
    if i > 0 {
      StreamsPrefix(c, log, a, i - 1);
      StreamsPacket(c, log, a, i - 1);
    } else if a > 0 {
      StreamsPrefix(c, log, a - 1, n);
      assert SenderLog.Start(a, n) + 0 == SenderLog.Start(a - 1, n) + n;
      assert DataBefore(k, a, 0) == DataBefore(k, a - 1, n);
    } else {
      assert Counts(SenderLog.Untag(log.wire[..0])) == [];
    }
  }

  lemma StreamsWhole(c: W.Config, items: seq<W.Item>, log: SenderLog.Log)
    requires c.engine.Some? && W.GoodConfig(c) && SenderLog.LogOk(c, log) && SenderLog.Fills(c, items, log)
    ensures Counts(SenderLog.Untag(log.wire)) == WrappedAll(DataStream(c.engine.value.k, c.engine.value.n, |items|))
  {
    assert SenderLog.GroupOk(c, SenderLog.GroupAt(log, |log.complete|));
    StreamsPrefix(c, log, |log.complete|, |log.partial.data|);
    assert log.wire[..|log.wire|] == log.wire;
  }

  /** The data datagrams of a run of the worker without failures carry the
      numbers of a lossless stream modulo 2^32, and only they are counted. */
  lemma {:induction false} WireIsDataStream(c: W.Config, items: seq<W.Item>)
    requires c.engine.Some? && W.GoodConfig(c) && SenderLog.NoFailures(c, items)
    ensures Counts(SenderLog.Untag(SenderLog.SendAll(c, items).wire))
      == WrappedAll(DataStream(c.engine.value.k, c.engine.value.n, |items|))
  {
    SenderLog.RunFills(c, items);
    StreamsWhole(c, items, SenderLog.SendAll(c, items));
  }

  /** The statistics after m data packets: n - k lost packets for every completed
      group that more data follows; zero exactly when all data fits one group. */
  predicate ReportsLoss(w: Option<Window>, k: nat, n: nat, m: nat)
    requires k > 0 && m > 0
  {
    && w.Some? && w.value.total == m
    && w.value.lost == ((m - 1) / k) * (n - k)
    && (w.value.lost == 0 <==> m <= k)
  }

  /** What the receiver reports when everything the worker sends arrives in
      order and nothing is lost. */
  lemma {:induction false} WorkerStreamReportsLoss(c: W.Config, items: seq<W.Item>)
    requires c.engine.Some? && W.GoodConfig(c) && SenderLog.NoFailures(c, items) && items != []
    ensures ReportsLoss(Receiver.Tally(EMPTY, SenderLog.Untag(SenderLog.SendAll(c, items).wire)),
                        c.engine.value.k, c.engine.value.n, |items|)
  {
    var k, n, m := c.engine.value.k, c.engine.value.n, |items|;
    WireIsDataStream(c, items);
    WholeReport(SenderLog.Untag(SenderLog.SendAll(c, items).wire), k, n, m);
  }

  lemma WholeReport(ds: seq<Bytes>, k: nat, n: nat, m: nat)
    requires 0 < k < n <= 16 && m > 0 && Counts(ds) == WrappedAll(DataStream(k, n, m))
    ensures ReportsLoss(Receiver.Tally(EMPTY, ds), k, n, m)
  {
    AnyStreamInRange(k, n, m);
    TallyIsRun(ds, DataStream(k, n, m));
    LosslessStreamReportsLoss(k, n, m);
    ReportOf(Run(DataStream(k, n, m)), k, n, m);
  }

  lemma ReportOf(w: Window, k: nat, n: nat, m: nat)
    requires 0 < k < n && m > 0 && w.total == m && w.lost == ((m - 1) / k) * (n - k)
    ensures ReportsLoss(Some(w), k, n, m)
  {
    ZeroIff(k, n - k, m);
  }

  lemma ZeroIff(k: nat, d: nat, m: nat)
    requires k > 0 && d > 0 && m > 0
    ensures ((m - 1) / k) * d == 0 <==> m <= k
  {
    if m <= k {
      ModUnique(m - 1, 0, m - 1, k);
    } else {
      assert (m - 1) / k >= 1;
    }
  }
}
