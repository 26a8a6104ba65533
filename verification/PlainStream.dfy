/** The worker's whole output with FEC off, and what the receiver counts on it. */
module PlainStream {
  import opened Words
  import opened Wrappers
  import opened Header
  import opened Sender
  import opened SenderLog
  import L = LossWindow
  import FecLoss
  import Receiver

  /** Which items are sent: those whose encryption succeeds. */
  function Places(c: Config, items: seq<Item>): seq<nat> {
    if items == [] then []
    else
      var last := |items| - 1;
      Places(c, items[..last]) + if Sealable(c, items[last]) then [last] else []
  }

  /** How many encryptions fail. */
  function Failed(c: Config, items: seq<Item>): nat {
    if items == [] then 0
    else Failed(c, items[..|items| - 1]) + if !Sealable(c, items[|items| - 1]) then 1 else 0
  }

  /** `d` is item `j` on the wire: under its own number, with nothing in the FEC field. */
  ghost predicate PlainOk(c: Config, items: seq<Item>, j: nat, d: Bytes) {
    && j < |items|
    && Deserialize(d) == Some(Header(CURRENT_VERSION, j % WRAP, items[j].time, (|d| - HEADER_SIZE) % 0x1_0000, 0))
    && |d| == HEADER_SIZE + |items[j].payload| + Overhead(c) && Opens(c, d[HEADER_SIZE..], items[j].payload)
  }

  lemma PlacesBelow(c: Config, items: seq<Item>)
    ensures forall p :: 0 <= p < |Places(c, items)| ==> Places(c, items)[p] < |items|
    ensures forall p, q :: 0 <= p < q < |Places(c, items)| ==> Places(c, items)[p] < Places(c, items)[q]
  {
    if items == [] {
    } else {
      PlacesBelow(c, items[..|items| - 1]);
    }
  }

  /** The p-th item sent comes after p items sent and the failures before it. */
  lemma {:induction false} PlaceIsCount(c: Config, items: seq<Item>, p: nat)
    requires p < |Places(c, items)|
    ensures Places(c, items)[p] < |items|
    ensures Places(c, items)[p] == p + Failed(c, items[..Places(c, items)[p]])
    ensures p < |Sealed(c, items)| && Sealed(c, items)[p] == items[Places(c, items)[p]].payload
  {
    var last := |items| - 1;
    var front := items[..last];
    SentAndFailed(c, front);
    if p < |Places(c, front)| {
      PlaceIsCount(c, front, p);
      assert front[..Places(c, items)[p]] == items[..Places(c, items)[p]];
    }
  }

  lemma SentAndFailed(c: Config, items: seq<Item>)
    ensures |Places(c, items)| + Failed(c, items) == |items|
    ensures |Sealed(c, items)| == |Places(c, items)|
  {
    if items == [] {
    } else {
      SentAndFailed(c, items[..|items| - 1]);
    }
  }

  lemma NumberMovesOn(j: nat)
    ensures NextSeq(j % WRAP) == (j + 1) % WRAP
  {
  }

  lemma PlainPacketIs(c: Config, items: seq<Item>, j: nat)
    requires c.engine.None? && GoodConfig(c) && j < |items| && GoodItem(items[j]) && Body(c, items[j]).Some?
    ensures PlainOk(c, items, j, DataPacket(c, State(j % WRAP, 0, []), items[j].time, Body(c, items[j]).value))
  {
    BodyOpens(c, items[j]);
    PacketParts(j % WRAP, items[j].time, 0, Body(c, items[j]).value);
  }

  /** One iteration: the number on the wire is the register's, which moves on
      even if nothing is sent. */
  lemma PlainIteration(c: Config, items: seq<Item>, s: State)
    requires c.engine.None? && GoodConfig(c) && items != [] && GoodItem(items[|items| - 1])
    requires s == State((|items| - 1) % WRAP, 0, [])
    ensures var j := |items| - 1; var (next, out) := SendStep(c, s, items[j]);
      && next == State(|items| % WRAP, 0, [])
      && |out| == (if Body(c, items[j]).Some? then 1 else 0)
      && (out != [] ==> PlainOk(c, items, j, out[0]))
  {
    var j := |items| - 1;
    NumberMovesOn(j);
    if Body(c, items[j]).Some? { PlainPacketIs(c, items, j); }
  }

  lemma StillPlain(c: Config, items: seq<Item>, j: nat, d: Bytes)
    requires items != [] && PlainOk(c, items[..|items| - 1], j, d)
    ensures PlainOk(c, items, j, d)
  {
  }

  ghost predicate AllPlain(c: Config, items: seq<Item>, out: seq<Bytes>) {
    && |out| == |Places(c, items)|
    && forall p :: 0 <= p < |out| ==> PlainOk(c, items, Places(c, items)[p], out[p])
  }

  lemma OutputGrows(c: Config, items: seq<Item>, out: seq<Bytes>, more: seq<Bytes>)
    requires items != [] && AllPlain(c, items[..|items| - 1], out)
    requires |more| == if Body(c, items[|items| - 1]).Some? then 1 else 0
    requires more != [] ==> PlainOk(c, items, |items| - 1, more[0])
    ensures AllPlain(c, items, out + more)
  {
    forall p | 0 <= p < |out + more|
      ensures PlainOk(c, items, Places(c, items)[p], (out + more)[p])
    {
      if p < |out| { StillPlain(c, items, Places(c, items)[p], out[p]); }
    }
  }

  /** Over every run with FEC off: the datagrams are exactly the items whose
      encryption succeeds, in order. Each carries its item's place in the run
      modulo 2^32, that is its own place on the wire plus the encryptions failed
      before it; its FEC field is zero, it is stamped with the clock, and it
      opens to the item's payload. */
  lemma {:induction false} PlainRunIsFramed(c: Config, items: seq<Item>)
    requires c.engine.None? && GoodConfig(c) && StateFits(c, State(0, 0, []))
    requires forall i :: 0 <= i < |items| ==> GoodItem(items[i])
    ensures SendBytes(c, items).0 == State(|items| % WRAP, 0, [])
    ensures AllPlain(c, items, SendBytes(c, items).1)
  {
    if items == [] {
    } else {
      var front, last := items[..|items| - 1], items[|items| - 1];
      PlainRunIsFramed(c, front);
      var (s, out) := SendBytes(c, front);
      PlainIteration(c, items, s);
      OutputGrows(c, items, out, SendStep(c, s, last).1);
    }
  }

  // ---- What the receiver counts ----------------------------------------------

  ghost predicate Rising(us: seq<int>) {
    forall p :: 0 < p < |us| ==> 0 < us[p] - us[p - 1] < L.HALF
  }

  /** Rising numbers are reported as losing exactly what they leave out. */
  lemma {:induction false} RisingLoss(us: seq<int>)
    requires us != [] && Rising(us)
    ensures L.InRange(us) && L.Newest(us) == us[|us| - 1]
    ensures L.Run(us).lost == us[|us| - 1] - us[0] + 1 - |us|
  {
    var front := us[..|us| - 1];
    if |us| == 1 {
      L.OneArrival(us[0]);
      assert us == [us[0]];
    } else {
      assert Rising(front) by { assert forall p :: 0 <= p < |front| ==> front[p] == us[p]; }
      RisingLoss(front);
      L.LossStep(us);
    }
  }

  function Ints(ps: seq<nat>): (us: seq<int>)
    ensures |us| == |ps|
  {
    seq(|ps|, i requires 0 <= i < |ps| => ps[i])
  }

  lemma WrappedSnoc(ps: seq<nat>, i: nat)
    requires i < |ps|
    ensures FecLoss.WrappedAll(Ints(ps[..i + 1])) == FecLoss.WrappedAll(Ints(ps[..i])) + [L.Wrapped(ps[i])]
  {
  }

  lemma {:induction false} PlainCounts(c: Config, items: seq<Item>, out: seq<Bytes>, m: nat)
    requires AllPlain(c, items, out) && m <= |out|
    ensures FecLoss.Counts(out[..m]) == FecLoss.WrappedAll(Ints(Places(c, items)[..m]))
  {
    if m == 0 {
    } else {
      PlainCounts(c, items, out, m - 1);
      assert out[..m][..m - 1] == out[..m - 1];
      assert PlainOk(c, items, Places(c, items)[m - 1], out[m - 1]);
      WrappedSnoc(Places(c, items), m - 1);
    }
  }

  lemma PlainTally(c: Config, items: seq<Item>, out: seq<Bytes>)
    requires AllPlain(c, items, out) && out != [] && Rising(Ints(Places(c, items)))
    ensures var us := Ints(Places(c, items)); var w := Receiver.Tally(L.EMPTY, out);
      w.Some? && w.value.total == |us| && w.value.lost == us[|us| - 1] - us[0] + 1 - |us|
  {
    var us := Ints(Places(c, items));
    PlainCounts(c, items, out, |out|);
    assert out[..|out|] == out && Places(c, items)[..|out|] == Places(c, items);
    RisingLoss(us);
    FecLoss.TallyIsRun(out, us);
  }

  /** Received whole and in order, such a wire is reported as losing exactly the
      encryptions that failed between the first and the last packet sent. */
  lemma {:induction false} PlainStreamReports(c: Config, items: seq<Item>)
    requires c.engine.None? && GoodConfig(c) && StateFits(c, State(0, 0, []))
    requires forall i :: 0 <= i < |items| ==> GoodItem(items[i])
    requires Places(c, items) != [] && Rising(Ints(Places(c, items)))
    ensures var ps := Places(c, items); var w := Receiver.Tally(L.EMPTY, SendBytes(c, items).1);
      && 0 <= ps[0] <= ps[|ps| - 1] < |items|
      && w.Some? && w.value.total == |ps|
      && w.value.lost == Failed(c, items[..ps[|ps| - 1]]) - Failed(c, items[..ps[0]])
  {
    PlainRunIsFramed(c, items);
    PlainTally(c, items, SendBytes(c, items).1);
    PlacesBelow(c, items);
    PlaceIsCount(c, items, 0);
    PlaceIsCount(c, items, |Places(c, items)| - 1);
  }

  lemma {:induction false} AllPlaces(c: Config, items: seq<Item>)
    requires NoFailures(c, items)
    ensures |Places(c, items)| == |items| && Failed(c, items) == 0
    ensures forall p :: 0 <= p < |items| ==> Places(c, items)[p] == p
  {
    if items == [] {
    } else {
      AllPlaces(c, items[..|items| - 1]);
    }
  }

  /** If no encryption fails, no loss is reported. */
  lemma {:induction false} PlainStreamReportsNothing(c: Config, items: seq<Item>)
    requires c.engine.None? && GoodConfig(c) && StateFits(c, State(0, 0, [])) && NoFailures(c, items) && items != []
    ensures var w := Receiver.Tally(L.EMPTY, SendBytes(c, items).1);
      w.Some? && w.value.total == |items| && w.value.lost == 0
  {
    PlainRunIsFramed(c, items);
    AllInTurn(c, items, SendBytes(c, items).1);
  }

  lemma AllInTurn(c: Config, items: seq<Item>, out: seq<Bytes>)
    requires AllPlain(c, items, out) && NoFailures(c, items) && items != []
    ensures var w := Receiver.Tally(L.EMPTY, out); w.Some? && w.value.total == |items| && w.value.lost == 0
  {
    AllPlaces(c, items);
    InTurn(Places(c, items));
    PlainTally(c, items, out);
  }

  lemma InTurn(ps: seq<nat>)
    requires forall p :: 0 <= p < |ps| ==> ps[p] == p
    ensures Rising(Ints(ps)) && forall p :: 0 <= p < |ps| ==> Ints(ps)[p] == p
  {
  }
}
