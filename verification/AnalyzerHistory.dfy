/** What the simulator remembers of groups outside its recent history, and what
    it never forgets. */
module AnalyzerHistory {
  import opened Words
  import opened Analyzer
  import RO = ReleaseOrder

  /** The numbers of group `id` heard since the group was last made. */
  function HeardSince(k: nat, n: nat, es: seq<Event>, id: nat): set<nat>
    requires 0 < k < n && Feasible(k, n, es)
  {
    if es == [] || id !in RunEvents(k, n, es).groups then {}
    else
      var e := es[|es| - 1];
      HeardSince(k, n, es[..|es| - 1], id) + if e.Rec? && !e.isLost && e.seqNum / n == id then {e.seqNum} else {}
  }

  ghost predicate FlagIs(n: nat, s: Sim, q: nat, heard: bool)
    requires n > 0
  {
    q / n in s.groups ==> |s.groups[q / n].received| == n && s.groups[q / n].received[q % n] == heard
  }

  ghost predicate FlagsSince(k: nat, n: nat, es: seq<Event>)
    requires 0 < k < n && Feasible(k, n, es)
  {
    forall q: nat :: FlagIs(n, RunEvents(k, n, es), q, q in HeardSince(k, n, es, q / n))
  }

  /** What one report does to one flag. */
  lemma RecFlag(k: nat, n: nat, s: Sim, seqNum: nat, isLost: bool, order: seq<nat>, q: nat, heard: bool)
    requires Shaped(k, n, s) && Enabled(n, s, Rec(seqNum, isLost, order))
    requires q / n in s.groups ==> FlagIs(n, s, q, heard)
    requires q / n !in s.groups ==> !heard
    ensures FlagIs(n, Apply(k, n, s, Rec(seqNum, isLost, order)), q, heard || (!isLost && q == seqNum))
  {
    if q / n == seqNum / n && q % n == seqNum % n { SameSlot(n, q, seqNum); }
  }

  /** For every group there is, recent or not, before or after the sequence
      numbers wrap: the flags are exactly the numbers heard since it was made. */
  lemma {:induction false} FlagsAreHeardSince(k: nat, n: nat, es: seq<Event>)
    requires 0 < k < n && Feasible(k, n, es)
    ensures FlagsSince(k, n, es)
  {
    if es == [] {
    } else {
      var front, e := es[..|es| - 1], es[|es| - 1];
      FlagsAreHeardSince(k, n, front);
      forall q: nat
        ensures FlagIs(n, RunEvents(k, n, es), q, q in HeardSince(k, n, es, q / n))
      {
        FlagStep(k, n, es, q);
      }
    }
  }

  lemma FlagStep(k: nat, n: nat, es: seq<Event>, q: nat)
    requires 0 < k < n && Feasible(k, n, es) && es != [] && FlagsSince(k, n, es[..|es| - 1])
    ensures FlagIs(n, RunEvents(k, n, es), q, q in HeardSince(k, n, es, q / n))
  {
    var front, e := es[..|es| - 1], es[|es| - 1];
    var s, heard := RunEvents(k, n, front), q in HeardSince(k, n, front, q / n);
    assert FlagIs(n, s, q, heard);
    if e.Rec? {
      RecFlag(k, n, s, e.seqNum, e.isLost, e.order, q, heard);
    }
  }

  /** Only numbers that were heard count, so nothing is invented. */
  lemma {:induction false} SinceWasHeard(k: nat, n: nat, es: seq<Event>, id: nat)
    requires 0 < k < n && Feasible(k, n, es)
    ensures HeardSince(k, n, es, id) <= Heard(es)
  {
    if es == [] {
    } else {
      SinceWasHeard(k, n, es[..|es| - 1], id);
    }
  }

  // ---- Scored by a report: never deleted -------------------------------------

  predicate Scored(s: Sim, id: nat) {
    id in s.groups && s.groups[id].evaluated
  }

  lemma StepKeepsScored(k: nat, n: nat, s: Sim, e: Event, id: nat)
    requires Shaped(k, n, s) && Enabled(n, s, e) && Scored(s, id)
    ensures Scored(Apply(k, n, s, e), id)
  {
    assert id !in e.order;
  }

  /** A group scored by a report stays in the map for ever: clean-up only looks
      at unscored groups. */
  lemma {:induction false} ScoredIsNeverDeleted(k: nat, n: nat, es: seq<Event>, m: nat, id: nat)
    requires 0 < k < n && Feasible(k, n, es) && m <= |es| && Feasible(k, n, es[..m]) && Scored(RunEvents(k, n, es[..m]), id)
    ensures Scored(RunEvents(k, n, es), id)
  {
    if m == |es| {
      assert es[..m] == es;
    } else {
      var front := es[..|es| - 1];
      assert front[..m] == es[..m];
      ScoredIsNeverDeleted(k, n, front, m, id);
      StepKeepsScored(k, n, RunEvents(k, n, front), es[|es| - 1], id);
    }
  }

  // ---- Told of data only -------------------------------------------------------

  /** No flag of a parity index is set. */
  ghost predicate DataOnly(k: nat, s: Sim) {
    forall id, i :: id in s.groups && k <= i < |s.groups[id].received| ==> !s.groups[id].received[i]
  }

  lemma CountOfData(flags: seq<bool>, k: nat, m: nat)
    requires k <= m <= |flags| && forall i :: k <= i < m ==> !flags[i]
    ensures Count(flags, m) == Count(flags, k)
    decreases m
  {
    if m == k {
    } else {
      CountOfData(flags, k, m - 1);
    }
  }

  lemma {:induction false} FinalizeRecoversNothing(k: nat, n: nat, s: Sim, order: seq<nat>, drop: bool)
    requires Shaped(k, n, s) && DataOnly(k, s) && RO.Distinct(order) && forall id :: id in order ==> id in s.groups
    ensures var r := FinalizeEach(k, n, s, order, drop); r.recovered == s.recovered && DataOnly(k, r)
  {
    if order == [] {
    } else {
      RO.DistinctSnoc(order);
      var front, id := order[..|order| - 1], order[|order| - 1];
      assert order == front + [id];
      FinalizeRecoversNothing(k, n, s, front, drop);
      var t := FinalizeEach(k, n, s, front, drop);
      CountOfData(t.groups[id].received, k, n);
    }
  }

  lemma DataStep(k: nat, n: nat, s: Sim, e: Event)
    requires Shaped(k, n, s) && Enabled(n, s, e) && DataOnly(k, s)
    requires e.Rec? && !e.isLost ==> DataPlace(k, n, e.seqNum)
    ensures Apply(k, n, s, e).recovered == s.recovered && DataOnly(k, Apply(k, n, s, e))
  {
    match e
    case Report(order) => FinalizeRecoversNothing(k, n, s, order, false);
    case Rec(seqNum, isLost, order) =>
      FreshCount(n, n);
      FinalizeRecoversNothing(k, n, WithGroup(n, s, seqNum / n), order, true);
  }

  predicate DataPlace(k: nat, n: nat, q: nat)
    requires n > 0
  {
    q % n < k
  }

  ghost predicate HeardData(k: nat, n: nat, es: seq<Event>)
    requires n > 0
  {
    forall q :: q in Heard(es) ==> DataPlace(k, n, q)
  }

  lemma HeardDataFront(k: nat, n: nat, es: seq<Event>)
    requires n > 0 && es != [] && HeardData(k, n, es)
    ensures HeardData(k, n, es[..|es| - 1])
    ensures var e := es[|es| - 1]; e.Rec? && !e.isLost ==> DataPlace(k, n, e.seqNum)
  {
    var e := es[|es| - 1];
    assert e.Rec? && !e.isLost ==> e.seqNum in Heard(es);
  }

  /** A simulator that hears only numbers of data places (below k in each n)
      never scores a packet as recovered, whatever really was. */
  lemma {:induction false} DataOnlyNeverRecovers(k: nat, n: nat, es: seq<Event>)
    requires 0 < k < n && Feasible(k, n, es) && HeardData(k, n, es)
    ensures RunEvents(k, n, es).recovered == 0 && DataOnly(k, RunEvents(k, n, es))
  {
    if es == [] {
    } else {
      var front, e := es[..|es| - 1], es[|es| - 1];
      HeardDataFront(k, n, es);
      DataOnlyNeverRecovers(k, n, front);
      DataStep(k, n, RunEvents(k, n, front), e);
    }
  }

  // ---- What clean-up removes -------------------------------------------------

  /** When a new highest group is made, a group more than 100 behind it is in
      the map afterwards exactly if it was scored before. */
  lemma {:induction false} CleanUpIff(k: nat, n: nat, s: Sim, seqNum: nat, isLost: bool, order: seq<nat>, id: nat)
    requires Shaped(k, n, s) && Enabled(n, s, Rec(seqNum, isLost, order))
    requires Advances(s, seqNum / n) && id < Cutoff(seqNum / n)
    ensures id in Apply(k, n, s, Rec(seqNum, isLost, order)).groups <==> Scored(s, id)
  {
    var t := WithGroup(n, s, seqNum / n);
    assert id in order <==> id in t.groups && !t.groups[id].evaluated;
  }

  /** The groups scored by reports. */
  function Reported(es: seq<Event>): set<nat> {
    if es == [] then {}
    else
      var e := es[|es| - 1];
      Reported(es[..|es| - 1]) + if e.Report? then set id | id in e.order else {}
  }

  /** What a step adds to the groups that stay scored: those it reports. */
  lemma ScoredStep(k: nat, n: nat, s: Sim, e: Event, id: nat)
    requires Shaped(k, n, s) && Enabled(n, s, e)
    ensures Scored(Apply(k, n, s, e), id) <==> Scored(s, id) || (e.Report? && id in e.order)
  {
    if Scored(s, id) { StepKeepsScored(k, n, s, e, id); }
  }

  /** The scored groups in the map are exactly those a report has scored. */
  lemma {:induction false} ScoredIffReported(k: nat, n: nat, es: seq<Event>, id: nat)
    requires 0 < k < n && Feasible(k, n, es)
    ensures Scored(RunEvents(k, n, es), id) <==> id in Reported(es)
  {
    if es == [] {
    } else {
      var front, e := es[..|es| - 1], es[|es| - 1];
      ScoredIffReported(k, n, front, id);
      ScoredStep(k, n, RunEvents(k, n, front), e, id);
    }
  }

  lemma StepBelowLast(k: nat, n: nat, s: Sim, e: Event)
    requires Shaped(k, n, s) && Enabled(n, s, e) && forall id :: id in s.groups ==> id <= s.lastGroup
    ensures var r := Apply(k, n, s, e); forall id :: id in r.groups ==> id <= r.lastGroup
  {
  }

  lemma {:induction false} BelowLast(k: nat, n: nat, es: seq<Event>)
    requires 0 < k < n && Feasible(k, n, es)
    ensures forall id :: id in RunEvents(k, n, es).groups ==> id <= RunEvents(k, n, es).lastGroup
  {
    if es == [] {
    } else {
      BelowLast(k, n, es[..|es| - 1]);
      StepBelowLast(k, n, RunEvents(k, n, es[..|es| - 1]), es[|es| - 1]);
    }
  }

  /** The last event made a new highest group. */
  ghost predicate EndsInAdvance(k: nat, n: nat, es: seq<Event>)
    requires 0 < k < n && Feasible(k, n, es)
  {
    es != [] && es[|es| - 1].Rec? && Advances(RunEvents(k, n, es[..|es| - 1]), es[|es| - 1].seqNum / n)
  }

  lemma WindowSize(lo: nat, hi: nat)
    requires lo <= hi
    ensures |Upto(hi) - Upto(lo)| == hi - lo
  {
    assert Upto(hi) == Upto(lo) + (Upto(hi) - Upto(lo));
    assert Upto(lo) !! (Upto(hi) - Upto(lo));
  }

  lemma AdvanceSetsLast(k: nat, n: nat, s: Sim, e: Event)
    requires Shaped(k, n, s) && Enabled(n, s, e) && e.Rec? && Advances(s, e.seqNum / n)
    ensures Apply(k, n, s, e).lastGroup == e.seqNum / n
  {
  }

  /** Whenever a new highest group has been made, the map holds what reports
      have scored, and otherwise only groups of the last 101 numbers. */
  lemma {:induction false} AfterAdvance(k: nat, n: nat, es: seq<Event>)
    requires 0 < k < n && Feasible(k, n, es) && EndsInAdvance(k, n, es)
    ensures var s := RunEvents(k, n, es);
      && Reported(es) <= s.groups.Keys
      && (forall id :: id in s.groups && id !in Reported(es) ==> Cutoff(s.lastGroup) <= id <= s.lastGroup)
      && |s.groups| <= HISTORY + 1 + |Reported(es)|
  {
    var front, e, s := es[..|es| - 1], es[|es| - 1], RunEvents(k, n, es);
    var before := RunEvents(k, n, front);
    AdvanceSetsLast(k, n, before, e);
    BelowLast(k, n, es);
    forall id | id in s.groups && id !in Reported(es)
      ensures Cutoff(s.lastGroup) <= id
    {
      ScoredIffReported(k, n, front, id);
      if id < Cutoff(s.lastGroup) { CleanUpIff(k, n, before, e.seqNum, e.isLost, e.order, id); }
    }
    forall id | id in Reported(es)
      ensures id in s.groups
    {
      ScoredIffReported(k, n, es, id);
    }
    MapSize(s, Reported(es));
  }

  lemma MapSize(s: Sim, reported: set<nat>)
    requires forall id :: id in s.groups && id !in reported ==> Cutoff(s.lastGroup) <= id <= s.lastGroup
    ensures |s.groups| <= HISTORY + 1 + |reported|
  {
    var window := Upto(s.lastGroup + 1) - Upto(Cutoff(s.lastGroup));
    WindowSize(Cutoff(s.lastGroup), s.lastGroup + 1);
    SubsetSize(s.groups.Keys, window + reported);
    assert |s.groups| == |s.groups.Keys|;
    assert |window + reported| <= |window| + |reported|;
  }

  /** Without reports clean-up works: at most 101 groups after each advance. */
  lemma {:induction false} UnreportedStaysSmall(k: nat, n: nat, es: seq<Event>)
    requires 0 < k < n && Feasible(k, n, es) && EndsInAdvance(k, n, es)
    requires forall i :: 0 <= i < |es| ==> es[i].Rec?
    ensures |RunEvents(k, n, es).groups| <= HISTORY + 1
  {
    AfterAdvance(k, n, es);
    NothingReported(es);
  }

  lemma NothingReported(es: seq<Event>)
    requires forall i :: 0 <= i < |es| ==> es[i].Rec?
    ensures Reported(es) == {}
  {
    if es == [] {
    } else {
      NothingReported(es[..|es| - 1]);
    }
  }

  /** One packet in each of m groups, with a report after each. */
  function Churn(n: nat, m: nat): seq<Event> {
    if m == 0 then [] else Churn(n, m - 1) + [Rec((m - 1) * n, false, [])] + [Report([m - 1])]
  }

  ghost predicate AllScored(s: Sim, m: nat) {
    && (forall id :: id in s.groups <==> 0 <= id < m)
    && (forall id :: id in s.groups ==> s.groups[id].evaluated)
    && s.lastGroup == if m == 0 then 0 else m - 1
  }

  lemma EventSnoc(k: nat, n: nat, es: seq<Event>, e: Event)
    requires 0 < k < n && Feasible(k, n, es) && Enabled(n, RunEvents(k, n, es), e)
    ensures Feasible(k, n, es + [e]) && RunEvents(k, n, es + [e]) == Apply(k, n, RunEvents(k, n, es), e)
  {
    assert (es + [e])[..|es|] == es;
  }

  lemma ChurnOpens(k: nat, n: nat, s: Sim, g: nat)
    requires Shaped(k, n, s) && AllScored(s, g)
    ensures (g * n) / n == g && Enabled(n, s, Rec(g * n, false, []))
    ensures var r := Apply(k, n, s, Rec(g * n, false, []));
      && (forall id :: id in r.groups <==> 0 <= id <= g) && r.lastGroup == g
      && (forall id :: id in r.groups ==> (r.groups[id].evaluated <==> id != g))
  {
    ModUnique(g * n, g, 0, n);
    var t := WithGroup(n, s, g);
    assert Due(t, t.groups.Keys, Cutoff(g), false) == {};
  }

  lemma ChurnScores(k: nat, n: nat, s: Sim, g: nat)
    requires Shaped(k, n, s) && (forall id :: id in s.groups <==> 0 <= id <= g) && s.lastGroup == g
    requires forall id :: id in s.groups ==> (s.groups[id].evaluated <==> id != g)
    ensures Enabled(n, s, Report([g])) && AllScored(Apply(k, n, s, Report([g])), g + 1)
  {
    assert Due(s, s.groups.Keys, 0, true) == {g};
  }

  lemma ChurnStep(k: nat, n: nat, es: seq<Event>, g: nat)
    requires 0 < k < n && Feasible(k, n, es) && AllScored(RunEvents(k, n, es), g)
    ensures var more := es + [Rec(g * n, false, [])] + [Report([g])];
      Feasible(k, n, more) && AllScored(RunEvents(k, n, more), g + 1)
  {
    var heard := Rec(g * n, false, []);
    ChurnOpens(k, n, RunEvents(k, n, es), g);
    EventSnoc(k, n, es, heard);
    ChurnReport(k, n, es + [heard], g);
  }

  lemma ChurnReport(k: nat, n: nat, es: seq<Event>, g: nat)
    requires 0 < k < n && Feasible(k, n, es)
    requires var s := RunEvents(k, n, es);
      && (forall id :: id in s.groups <==> 0 <= id <= g) && s.lastGroup == g
      && (forall id :: id in s.groups ==> (s.groups[id].evaluated <==> id != g))
    ensures Feasible(k, n, es + [Report([g])]) && AllScored(RunEvents(k, n, es + [Report([g])]), g + 1)
  {
    ChurnScores(k, n, RunEvents(k, n, es), g);
    EventSnoc(k, n, es, Report([g]));
  }

  lemma AllScoredSize(s: Sim, m: nat)
    requires AllScored(s, m)
    ensures |s.groups| == m
  {
    assert s.groups.Keys == Upto(m);
    assert |s.groups| == |s.groups.Keys|;
  }

  /** The map grows by one group for each report made while a new group is
      heard: for every m some run leaves m groups behind, all of them for ever. */
  lemma {:induction false} MapGrowsForEver(k: nat, n: nat, m: nat)
    requires 0 < k < n
    ensures Feasible(k, n, Churn(n, m)) && |RunEvents(k, n, Churn(n, m)).groups| == m
    ensures AllScored(RunEvents(k, n, Churn(n, m)), m)
  {
    if m == 0 {
    } else {
      MapGrowsForEver(k, n, m - 1);
      ChurnStep(k, n, Churn(n, m - 1), m - 1);
    }
    AllScoredSize(RunEvents(k, n, Churn(n, m)), m);
  }
}
