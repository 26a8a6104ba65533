/** The passive FEC simulator: for candidate parameters (k, n) it scores how
    many data packets would have been delivered, recovered or lost. */
module Analyzer {
  import opened Words
  import RO = ReleaseOrder

  datatype VirtualGroup = VirtualGroup(recvCount: nat, received: seq<bool>, evaluated: bool)

  /** One simulator; `finalised` counts the groups scored so far. */
  datatype Sim = Sim(groups: map<nat, VirtualGroup>, recovered: nat, lost: nat, delivered: nat,
                     lastGroup: nat, finalised: nat)

  const HISTORY := 100
  const START := Sim(map[], 0, 0, 0, 0, 0)

  /** How many of the flags below `m` are set. */
  function Count(flags: seq<bool>, m: nat): (c: nat)
    requires m <= |flags|
    ensures c <= m
  {
    if m == 0 then 0 else Count(flags, m - 1) + if flags[m - 1] then 1 else 0
  }

  /** Score one group: received data is delivered; missing data is recovered if
      k packets of the group arrived at all, and lost otherwise. */
  function Finalize(k: nat, s: Sim, id: nat): Sim
    requires id in s.groups && k <= |s.groups[id].received|
  {
    var g := s.groups[id];
    var got := Count(g.received, k);
    var missing := k - got;
    var enough := g.recvCount >= k;
    Sim(s.groups[id := g.(evaluated := true)],
        s.recovered + (if enough then missing else 0),
        s.lost + (if enough then 0 else missing),
        s.delivered + got, s.lastGroup, s.finalised + 1)
  }

  ghost predicate Shaped(k: nat, n: nat, s: Sim) {
    && 0 < k < n
    && forall id :: id in s.groups ==> |s.groups[id].received| == n && s.groups[id].recvCount == Count(s.groups[id].received, n)
  }

  /** Finalise the groups in `order` one by one; `drop` says whether they are then deleted. */
  function FinalizeEach(k: nat, n: nat, s: Sim, order: seq<nat>, drop: bool): (r: Sim)
    requires Shaped(k, n, s) && RO.Distinct(order) && forall id :: id in order ==> id in s.groups
    ensures Shaped(k, n, r) && r.lastGroup == s.lastGroup
    ensures forall id :: id !in order ==> (id in r.groups <==> id in s.groups)
    ensures forall id :: id in s.groups && id !in order ==> r.groups[id] == s.groups[id]
    ensures drop ==> forall id :: id in order ==> id !in r.groups
    ensures !drop ==> forall id :: id in order ==> id in r.groups && r.groups[id] == s.groups[id].(evaluated := true)
  {
    if order == [] then s
    else
      RO.DistinctSnoc(order);
      var front, id := order[..|order| - 1], order[|order| - 1];
      assert order == front + [id];
      var r := Finalize(k, FinalizeEach(k, n, s, front, drop), id);
      if drop then r.(groups := r.groups - {id}) else r
  }

  lemma FinalizeSnoc(k: nat, n: nat, s: Sim, order: seq<nat>, id: nat, drop: bool)
    requires Shaped(k, n, s) && RO.Distinct(order) && id in s.groups && id !in order
    requires forall i :: i in order ==> i in s.groups
    ensures RO.Distinct(order + [id])
    ensures var r := Finalize(k, FinalizeEach(k, n, s, order, drop), id);
      FinalizeEach(k, n, s, order + [id], drop) == if drop then r.(groups := r.groups - {id}) else r
  {
    assert (order + [id])[..|order|] == order;
  }

  /** `order` is an iteration order of the map over exactly the ids in `ids`. */
  ghost predicate Enumerates(order: seq<nat>, ids: set<nat>) {
    RO.Distinct(order) && forall id :: id in order <==> id in ids
  }

  function Cutoff(current: nat): nat {
    if current > HISTORY then current - HISTORY else 0
  }

  /** The unscored groups among `ids` that are below `cutoff`, or all of them. */
  function Due(s: Sim, ids: set<nat>, cutoff: nat, all: bool): set<nat> {
    set id | id in ids && id in s.groups && !s.groups[id].evaluated && (all || id < cutoff)
  }

  function WithGroup(n: nat, s: Sim, id: nat): Sim {
    if id in s.groups then s
    else s.(groups := s.groups[id := VirtualGroup(0, seq(n, _ => false), false)], lastGroup := Max(id, s.lastGroup))
  }

  /** The group is new and the highest so far, which is when old groups are scored. */
  predicate Advances(s: Sim, id: nat) {
    id !in s.groups && id > s.lastGroup
  }

  /** A set flag is never cleared: a loss mark changes nothing. */
  function Mark(g: VirtualGroup, index: nat, isLost: bool): VirtualGroup
    requires index < |g.received|
  {
    if g.received[index] || isLost then g
    else VirtualGroup(g.recvCount + 1, g.received[index := true], g.evaluated)
  }

  datatype Event = Rec(seqNum: nat, isLost: bool, order: seq<nat>) | Report(order: seq<nat>)

  ghost predicate Enabled(n: nat, s: Sim, e: Event) {
    n > 0 &&
    match e
    case Report(order) => Enumerates(order, Due(s, s.groups.Keys, 0, true))
    case Rec(seqNum, _, order) =>
      var id := seqNum / n;
      var t := WithGroup(n, s, id);
      Enumerates(order, if Advances(s, id) then Due(t, t.groups.Keys, Cutoff(id), false) else {})
  }

  function Apply(k: nat, n: nat, s: Sim, e: Event): (r: Sim)
    requires Shaped(k, n, s) && Enabled(n, s, e)
    ensures Shaped(k, n, r)
  {
    match e
    case Report(order) => FinalizeEach(k, n, s, order, false)
    case Rec(seqNum, isLost, order) =>
      var id, index := seqNum / n, seqNum % n;
      FreshCount(n, n);
      var cleaned := FinalizeEach(k, n, WithGroup(n, s, id), order, true);
      var g := cleaned.groups[id];
      MarkCount(g, index, isLost, n);
      cleaned.(groups := cleaned.groups[id := Mark(g, index, isLost)])
  }

  lemma FreshCount(n: nat, m: nat)
    requires m <= n
    ensures Count(seq(n, _ => false), m) == 0
  {
    if m == 0 {
    } else {
      FreshCount(n, m - 1);
    }
  }

  lemma MarkCount(g: VirtualGroup, index: nat, isLost: bool, m: nat)
    requires index < |g.received| && m <= |g.received|
    ensures Count(Mark(g, index, isLost).received, m)
      == Count(g.received, m) + if index < m && !isLost && !g.received[index] then 1 else 0
  {
    if m == 0 {
    } else {
      MarkCount(g, index, isLost, m - 1);
    }
  }

  // ---- Runs ---------------------------------------------------------------

  /** Each event iterates over the map the run so far has produced. */
  ghost predicate Feasible(k: nat, n: nat, es: seq<Event>)
    requires 0 < k < n
    decreases |es|, 0
  {
    es != [] ==>
      && Feasible(k, n, es[..|es| - 1])
      && Enabled(n, RunEvents(k, n, es[..|es| - 1]), es[|es| - 1])
  }

  function RunEvents(k: nat, n: nat, es: seq<Event>): (s: Sim)
    requires 0 < k < n && Feasible(k, n, es)
    ensures Shaped(k, n, s)
    decreases |es|, 1
  {
    if es == [] then START else Apply(k, n, RunEvents(k, n, es[..|es| - 1]), es[|es| - 1])
  }

  // ---- Accounting ---------------------------------------------------------

  ghost predicate Accounted(k: nat, s: Sim) {
    s.delivered + s.recovered + s.lost == k * s.finalised
  }

  lemma FinalizeAccounts(k: nat, s: Sim, id: nat, drop: bool)
    requires id in s.groups && k <= |s.groups[id].received| && Accounted(k, s)
    ensures var r := Finalize(k, s, id); Accounted(k, if drop then r.(groups := r.groups - {id}) else r)
  {
    Distribute(k, s.finalised);
  }

  lemma Distribute(k: nat, m: nat)
    ensures k * (m + 1) == k * m + k
  {
  }

  lemma FinalizeEachAccounts(k: nat, n: nat, s: Sim, order: seq<nat>, drop: bool)
    requires Shaped(k, n, s) && RO.Distinct(order) && forall id :: id in order ==> id in s.groups
    requires Accounted(k, s)
    ensures Accounted(k, FinalizeEach(k, n, s, order, drop))
  {
    if order == [] {
    } else {
      RO.DistinctSnoc(order);
      var front, id := order[..|order| - 1], order[|order| - 1];
      assert order == front + [id];
      FinalizeEachAccounts(k, n, s, front, drop);
      FinalizeAccounts(k, FinalizeEach(k, n, s, front, drop), id, drop);
    }
  }

  /** Over any run, with reports repeated at will: delivered, recovered and lost
      packets add up to k for every group scored. */
  lemma {:induction false} AccountingHolds(k: nat, n: nat, es: seq<Event>)
    requires 0 < k < n && Feasible(k, n, es)
    ensures Accounted(k, RunEvents(k, n, es))
  {
    if es == [] {
    } else {
      var front := es[..|es| - 1];
      AccountingHolds(k, n, front);
      var s := RunEvents(k, n, front);
      match es[|es| - 1]
      case Report(order) => FinalizeEachAccounts(k, n, s, order, false);
      case Rec(seqNum, _, order) =>
        var g := WithGroup(n, s, seqNum / n);
        FreshCount(n, n);
        assert Accounted(k, g);
        FinalizeEachAccounts(k, n, g, order, true);
    }
  }

  // ---- Reception flags ----------------------------------------------------

  /** The sequence numbers reported as received. */
  function Heard(es: seq<Event>): set<nat> {
    if es == [] then {}
    else
      var e := es[|es| - 1];
      Heard(es[..|es| - 1]) + if e.Rec? && !e.isLost then {e.seqNum} else {}
  }

  /** Not yet old enough to be scored and deleted. */
  predicate InHistory(s: Sim, id: nat) {
    id + HISTORY >= s.lastGroup
  }

  /** In every group of the recent history, flag i says whether sequence number id * n + i was heard. */
  ghost predicate FlagsAgree(n: nat, s: Sim, heard: set<nat>)
    requires n > 0
  {
    forall q: nat :: InHistory(s, q / n) ==>
      (q in heard <==> q / n in s.groups && |s.groups[q / n].received| == n && s.groups[q / n].received[q % n])
  }

  lemma SameSlot(n: nat, a: nat, b: nat)
    requires n > 0 && a / n == b / n && a % n == b % n
    ensures a == b
  {
    assert a == (a / n) * n + a % n && b == (b / n) * n + b % n;
  }

  lemma RecordKeepsFlags(k: nat, n: nat, s: Sim, seqNum: nat, isLost: bool, order: seq<nat>, heard: set<nat>)
    requires Shaped(k, n, s) && Enabled(n, s, Rec(seqNum, isLost, order)) && FlagsAgree(n, s, heard)
    ensures FlagsAgree(n, Apply(k, n, s, Rec(seqNum, isLost, order)), heard + if isLost then {} else {seqNum})
  {
    var r := Apply(k, n, s, Rec(seqNum, isLost, order));
    var heard' := heard + if isLost then {} else {seqNum};
    var id := seqNum / n;
    forall q: nat | InHistory(r, q / n)
      ensures q in heard' <==> q / n in r.groups && |r.groups[q / n].received| == n && r.groups[q / n].received[q % n]
    {
      assert q in heard <==> q / n in s.groups && |s.groups[q / n].received| == n && s.groups[q / n].received[q % n];
      assert q / n !in order;
      if q / n == id && q % n == seqNum % n { SameSlot(n, q, seqNum); }
    }
  }

  /** For a group of the recent history the flags are exactly the sequence
      numbers heard, whatever the order of arrival and however often losses
      were marked. */
  lemma {:induction false} FlagsAreHeard(k: nat, n: nat, es: seq<Event>)
    requires 0 < k < n && Feasible(k, n, es)
    ensures FlagsAgree(n, RunEvents(k, n, es), Heard(es))
  {
    if es == [] {
    } else {
      var front, e := es[..|es| - 1], es[|es| - 1];
      FlagsAreHeard(k, n, front);
      var s := RunEvents(k, n, front);
      if e.Rec? {
        RecordKeepsFlags(k, n, s, e.seqNum, e.isLost, e.order, Heard(front));
      } else {
        assert FlagsAgree(n, Apply(k, n, s, e), Heard(front));
      }
    }
  }

  // ---- Agreement with the decoder -----------------------------------------

  function Flagged(flags: seq<bool>, m: nat): (r: set<nat>)
    requires m <= |flags|
    ensures |r| == Count(flags, m)
    ensures forall i :: i in r <==> 0 <= i < m && flags[i]
  {
    if m == 0 then {} else Flagged(flags, m - 1) + if flags[m - 1] then {m - 1} else {}
  }

  /** The data packets a decoder fed `arrivals` never releases. */
  function NeverReleased(k: nat, arrivals: seq<nat>): set<nat> {
    set x | x in Upto(k) && RO.Times(k, arrivals, x) == 0
  }

  /** Below k receptions the missing data is never released; from k on, all of it is. */
  lemma NeverReleasedIs(k: nat, arrivals: seq<nat>)
    requires k > 0
    ensures NeverReleased(k, arrivals) == if |RO.SetOf(arrivals)| >= k then {} else Upto(k) - RO.SetOf(arrivals)
  {
    forall x | x in Upto(k)
      ensures x in NeverReleased(k, arrivals) <==> x !in RO.SetOf(arrivals) && |RO.SetOf(arrivals)| < k
    {
      RO.EverReleased(k, arrivals, x);
    }
  }

  lemma DataHeard(flags: seq<bool>, k: nat, n: nat)
    requires k <= n == |flags|
    ensures Upto(k) * Flagged(flags, n) == Flagged(flags, k)
  {
  }

  lemma DataMissing(flags: seq<bool>, k: nat, n: nat)
    requires k <= n == |flags|
    ensures |Upto(k) - Flagged(flags, n)| == k - Count(flags, k)
  {
    DataHeard(flags, k, n);
    SplitSize(Upto(k), Flagged(flags, n));
  }

  lemma SplitSize(a: set<nat>, b: set<nat>)
    ensures |a - b| == |a| - |a * b|
  {
    assert a == (a * b) + (a - b);
  }

  /** The simulator's verdict on a group is the real decoder's: for any order
      and repetition of the same receptions, `lost` is the number of data
      packets the decoder never releases, and `recovered` the number it
      releases though they never arrived. */
  lemma {:induction false} VerdictAgrees(k: nat, n: nat, s: Sim, id: nat, arrivals: seq<nat>)
    requires Shaped(k, n, s) && id in s.groups
    requires RO.SetOf(arrivals) == Flagged(s.groups[id].received, n)
    ensures var r := Finalize(k, s, id);
      && r.lost - s.lost == |NeverReleased(k, arrivals)|
      && r.recovered - s.recovered == |Upto(k) - RO.SetOf(arrivals) - NeverReleased(k, arrivals)|
      && r.delivered - s.delivered == |Upto(k) * RO.SetOf(arrivals)|
  {
    NeverReleasedIs(k, arrivals);
    DataHeard(s.groups[id].received, k, n);
    DataMissing(s.groups[id].received, k, n);
    var absent := Upto(k) - RO.SetOf(arrivals);
    assert absent - absent == {} && absent - {} == absent;
  }
}
