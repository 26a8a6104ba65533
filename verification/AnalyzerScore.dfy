/** What the analyzer marks as lost, and what its simulators make of it in the score. */
module AnalyzerScore {
  import opened Words
  import opened Analyzer
  import opened AnalyzerHistory
  import opened AnalyzerState
  import RO = ReleaseOrder

  // ---- Gaps ------------------------------------------------------------------

  /** Between one number and the next exactly the numbers skipped are told as
      lost, each once and in order, if they are fewer than a thousand; numbers
      are compared after the wrap of the successor, so a number at or below the
      last one, also one behind the wrap, tells of no loss. */
  lemma {:induction false} SkippedIs(hasSeq: bool, last: uint32, s: uint32)
    ensures var next := (last + 1) % WRAP; var lost := Skipped(hasSeq, last, s);
      && (forall q: nat :: Notice(q, true) in lost <==> hasSeq && next <= q < s && s - next < 1000)
      && (forall i :: 0 <= i < |lost| ==> lost[i] == Notice(next + i, true))
  {
    var next := (last + 1) % WRAP;
    if s > next { GapSize(last, s); }
    var lost := Skipped(hasSeq, last, s);
    forall q: nat | hasSeq && next <= q < s && s - next < 1000
      ensures Notice(q, true) in lost
    {
      assert lost[q - next] == Notice(q, true);
    }
  }

  lemma GapSize(last: uint32, s: uint32)
    requires s > (last + 1) % WRAP
    ensures (s - last - 1) % WRAP == s - (last + 1) % WRAP
  {
    if last == WRAP - 1 {
      assert s - last - 1 == s - WRAP;
    }
  }

  /** Away from the wrap: lost are the numbers strictly between, at a distance of
      at most a thousand. */
  lemma SkippedBetween(last: uint32, s: uint32, q: nat)
    requires last < WRAP - 1
    ensures Notice(q, true) in Skipped(true, last, s) <==> last < q < s && s - last <= 1000
  {
    SkippedIs(true, last, s);
    assert (last + 1) % WRAP == last + 1;
  }

  /** Just at the wrap: the numbers from zero up. */
  lemma SkippedAtWrap(s: uint32, q: nat)
    ensures Notice(q, true) in Skipped(true, WRAP - 1, s) <==> q < s < 1000
  {
    SkippedIs(true, WRAP - 1, s);
  }

  // ---- What a script covers ----------------------------------------------------

  function Numbers(told: seq<Notice>): set<nat> {
    set r | r in told :: r.seqNum
  }

  function Highest(given: seq<uint32>): nat
    requires given != []
  {
    if |given| == 1 then given[0] else Max(Highest(given[..|given| - 1]), given[|given| - 1])
  }

  /** No abnormal jump, nothing older than the first, and no wrap. */
  ghost predicate Smooth(given: seq<uint32>) {
    && (forall i :: 0 <= i < |given| ==> given[0] <= given[i] < WRAP - 1)
    && forall i :: 0 < i < |given| ==> given[i] <= given[i - 1] as int + 1000
  }

  lemma HighestBounds(given: seq<uint32>)
    requires given != []
    ensures forall i :: 0 <= i < |given| ==> given[i] <= Highest(given)
  {
    if |given| == 1 {
    } else {
      HighestBounds(given[..|given| - 1]);
    }
  }

  lemma SmoothFront(given: seq<uint32>)
    requires |given| > 1 && Smooth(given)
    ensures var front := given[..|given| - 1]; Smooth(front) && front[0] == given[0]
  {
  }

  lemma NumbersConcat(a: seq<Notice>, b: seq<Notice>)
    ensures Numbers(a + b) == Numbers(a) + Numbers(b)
    ensures HeardIn(a + b) == HeardIn(a) + HeardIn(b)
  {
  }

  lemma SkippedNumbers(last: uint32, s: uint32)
    requires last < WRAP - 1 && s <= last + 1000
    ensures forall q :: q in Numbers(Skipped(true, last, s)) <==> last < q < s
    ensures HeardIn(Skipped(true, last, s)) == {}
  {
    SkippedIs(true, last, s);
    forall q: nat | last < q < s
      ensures q in Numbers(Skipped(true, last, s))
    {
      SkippedBetween(last, s, q);
      assert Notice(q, true) in Skipped(true, last, s);
    }
    forall r | r in Skipped(true, last, s)
      ensures r.isLost && last < r.seqNum < s
    {
      SkippedBetween(last, s, r.seqNum);
    }
  }

  lemma LastTold(given: seq<uint32>)
    requires given != []
    ensures Numbers([Notice(given[|given| - 1], false)]) == {given[|given| - 1] as nat}
    ensures HeardIn([Notice(given[|given| - 1], false)]) == {given[|given| - 1] as nat}
  {
    var r := Notice(given[|given| - 1], false);
    assert r in [r];
  }

  ghost function GivenSet(given: seq<uint32>): set<nat> {
    set s | s in given :: s as nat
  }

  lemma GivenSnoc(given: seq<uint32>)
    requires given != []
    ensures GivenSet(given) == GivenSet(given[..|given| - 1]) + {given[|given| - 1] as nat}
  {
    var front, s := given[..|given| - 1], given[|given| - 1];
    assert given == front + [s];
    assert forall x: uint32 :: x in given <==> x in front || x == s;
    forall q: nat
      ensures q in GivenSet(given) <==> q in GivenSet(front) || q == s
    {
      if q == s { assert s in given; }
    }
  }

  /** Exactly the numbers from `lo` to `hi`. */
  ghost predicate Covers(told: set<nat>, lo: nat, hi: nat) {
    forall q: nat :: q in told <==> lo <= q <= hi
  }

  lemma CoversMore(told: set<nat>, lo: nat, hi: nat, last: nat, s: nat, skipped: set<nat>)
    requires Covers(told, lo, hi) && lo <= last <= hi && lo <= s
    requires forall q: nat :: q in skipped <==> last < q < s
    ensures Covers(told + skipped + {s}, lo, Max(hi, s))
  {
  }

  /** The script grows by the gap and the number itself. */
  lemma ScriptStep(given: seq<uint32>)
    requires |given| > 1 && Smooth(given)
    ensures var front, s := given[..|given| - 1], given[|given| - 1]; var skipped := Skipped(true, front[|front| - 1], s);
      && Numbers(Script(given)) == Numbers(Script(front)) + Numbers(skipped) + {s as nat}
      && HeardIn(Script(given)) == HeardIn(Script(front)) + {s as nat}
      && forall q: nat :: q in Numbers(skipped) <==> front[|front| - 1] < q < s
  {
    var front, s := given[..|given| - 1], given[|given| - 1];
    var skipped := Skipped(true, front[|front| - 1], s);
    assert given[|given| - 2] == front[|front| - 1];
    NumbersConcat(Script(front) + skipped, [Notice(s, false)]);
    NumbersConcat(Script(front), skipped);
    LastTold(given);
    SkippedNumbers(front[|front| - 1], s);
  }

  /** The simulators are told of every number from the first to the highest, and
      of the given ones as heard. */
  lemma {:induction false} ScriptCovers(given: seq<uint32>)
    requires given != [] && Smooth(given)
    ensures Covers(Numbers(Script(given)), given[0], Highest(given))
    ensures HeardIn(Script(given)) == GivenSet(given)
  {
    var front, s := given[..|given| - 1], given[|given| - 1];
    GivenSnoc(given);
    if |given| == 1 {
      FirstScript(given);
    } else {
      SmoothFront(given);
      ScriptCovers(front);
      HighestBounds(front);
      ScriptStep(given);
      CoversMore(Numbers(Script(front)), given[0], Highest(front), front[|front| - 1], s,
                 Numbers(Skipped(true, front[|front| - 1], s)));
    }
  }

  lemma FirstScript(given: seq<uint32>)
    requires |given| == 1
    ensures Numbers(Script(given)) == {given[0] as nat} == HeardIn(Script(given)) && GivenSet(given[..0]) == {}
  {
    assert given[..0] == [] && Script(given[..0]) == [];
    assert Script(given) == [Notice(given[0], false)];
    LastTold(given);
  }

  // ---- Which groups are held -----------------------------------------------------

  /** The numbers told in a log, heard or lost. */
  function ToldIn(es: seq<Event>): set<nat> {
    if es == [] then {}
    else
      var e := es[|es| - 1];
      ToldIn(es[..|es| - 1]) + if e.Rec? then {e.seqNum} else {}
  }

  lemma ToldIsNumbers(es: seq<Event>)
    ensures ToldIn(es) == Numbers(Told(es))
  {
    if es == [] {
    } else {
      var e := es[|es| - 1];
      ToldIsNumbers(es[..|es| - 1]);
      NumbersConcat(Told(es[..|es| - 1]), if e.Rec? then [Notice(e.seqNum, e.isLost)] else []);
      if e.Rec? { assert Notice(e.seqNum, e.isLost) in [Notice(e.seqNum, e.isLost)]; }
    }
  }

  ghost predicate HoldsRecent(n: nat, s: Sim, told: set<nat>)
    requires n > 0
  {
    forall q :: q in told ==> GroupHeld(n, s, q)
  }

  predicate GroupHeld(n: nat, s: Sim, q: nat)
    requires n > 0
  {
    q / n + 100 >= s.lastGroup ==> q / n in s.groups
  }

  lemma HeldStep(k: nat, n: nat, s: Sim, e: Event, q: nat)
    requires Shaped(k, n, s) && Enabled(n, s, e) && (GroupHeld(n, s, q) || (e.Rec? && q == e.seqNum))
    ensures GroupHeld(n, Apply(k, n, s, e), q)
  {
  }

  /** Every number told, as heard or as lost, has its group in the map while the
      group is at most a hundred behind the highest. */
  lemma {:induction false} ToldIsHeld(k: nat, n: nat, es: seq<Event>)
    requires 0 < k < n && Feasible(k, n, es)
    ensures HoldsRecent(n, RunEvents(k, n, es), ToldIn(es))
  {
    if es == [] {
    } else {
      var front, e := es[..|es| - 1], es[|es| - 1];
      ToldIsHeld(k, n, front);
      forall q | q in ToldIn(es)
        ensures GroupHeld(n, RunEvents(k, n, es), q)
      {
        HeldStep(k, n, RunEvents(k, n, front), e, q);
      }
    }
  }

  /** Every group in the map was told of. */
  lemma {:induction false} HeldWasTold(k: nat, n: nat, es: seq<Event>, id: nat)
    requires 0 < k < n && Feasible(k, n, es) && id in RunEvents(k, n, es).groups
    ensures exists q :: q in ToldIn(es) && q / n == id
  {
    var front, e := es[..|es| - 1], es[|es| - 1];
    if id in RunEvents(k, n, front).groups {
      HeldWasTold(k, n, front, id);
      var q :| q in ToldIn(front) && q / n == id;
      assert q in ToldIn(es);
    } else {
      NewIsTold(k, n, RunEvents(k, n, front), e, id);
      assert e.seqNum in ToldIn(es);
    }
  }

  lemma NewIsTold(k: nat, n: nat, s: Sim, e: Event, id: nat)
    requires Shaped(k, n, s) && Enabled(n, s, e) && id !in s.groups && id in Apply(k, n, s, e).groups
    ensures e.Rec? && e.seqNum / n == id
  {
  }

  // ---- Scores as sums over groups ------------------------------------------------

  function SumOver(f: nat -> nat, ids: seq<nat>): nat {
    if ids == [] then 0 else SumOver(f, ids[..|ids| - 1]) + f(ids[|ids| - 1])
  }

  function SumRange(f: nat -> nat, lo: nat, hi: nat): nat
    requires lo <= hi
  {
    if lo == hi then 0 else SumRange(f, lo, hi - 1) + f(hi - 1)
  }

  /** The data of a group that arrived, was rebuilt, or is lost. */
  function ArrivedOf(k: nat, g: VirtualGroup): nat {
    if k <= |g.received| then Count(g.received, k) else 0
  }

  function RebuiltOf(k: nat, g: VirtualGroup): nat {
    if g.recvCount >= k then k - ArrivedOf(k, g) else 0
  }

  function LostOf(k: nat, g: VirtualGroup): nat {
    if g.recvCount >= k then 0 else k - ArrivedOf(k, g)
  }

  /** A measure of the groups in the map, by number. */
  function Each(s: Sim, f: VirtualGroup -> nat): nat -> nat {
    (id: nat) => At(s, f, id)
  }

  function At(s: Sim, f: VirtualGroup -> nat, id: nat): nat {
    if id in s.groups then f(s.groups[id]) else 0
  }

  function Arrived(k: nat): VirtualGroup -> nat {
    (g: VirtualGroup) => ArrivedOf(k, g)
  }

  function Rebuilt(k: nat): VirtualGroup -> nat {
    (g: VirtualGroup) => RebuiltOf(k, g)
  }

  function Missing(k: nat): VirtualGroup -> nat {
    (g: VirtualGroup) => LostOf(k, g)
  }

  /** From `s` to `r` exactly the groups `order` were scored, each once, with
      what arrived, was rebuilt and is lost of them. */
  ghost predicate Scores(k: nat, s: Sim, r: Sim, order: seq<nat>) {
    && r.delivered == s.delivered + SumOver(Each(s, Arrived(k)), order)
    && r.recovered == s.recovered + SumOver(Each(s, Rebuilt(k)), order)
    && r.lost == s.lost + SumOver(Each(s, Missing(k)), order)
    && r.finalised == s.finalised + |order|
  }

  lemma SumSnoc(f: nat -> nat, ids: seq<nat>, id: nat)
    ensures SumOver(f, ids + [id]) == SumOver(f, ids) + f(id)
  {
    assert (ids + [id])[..|ids|] == ids;
  }

  lemma OneScores(k: nat, s: Sim, r: Sim, front: seq<nat>, id: nat, drop: bool)
    requires Scores(k, s, r, front) && id in s.groups && id in r.groups && r.groups[id] == s.groups[id]
    requires k <= |s.groups[id].received|
    ensures var t := Finalize(k, r, id); Scores(k, s, if drop then t.(groups := t.groups - {id}) else t, front + [id])
  {
    SumSnoc(Each(s, Arrived(k)), front, id);
    SumSnoc(Each(s, Rebuilt(k)), front, id);
    SumSnoc(Each(s, Missing(k)), front, id);
  }

  /** Whether they are then deleted or kept, groups are scored one by one. */
  lemma {:induction false} FinalizeEachScores(k: nat, n: nat, s: Sim, order: seq<nat>, drop: bool)
    requires Shaped(k, n, s) && RO.Distinct(order) && forall id :: id in order ==> id in s.groups
    ensures Scores(k, s, FinalizeEach(k, n, s, order, drop), order)
  {
    if order == [] {
    } else {
      RO.DistinctSnoc(order);
      var front, id := order[..|order| - 1], order[|order| - 1];
      assert order == front + [id];
      FinalizeEachScores(k, n, s, front, drop);
      OneScores(k, s, FinalizeEach(k, n, s, front, drop), front, id, drop);
    }
  }

  /** Which groups an event scores: on an advance the unscored ones more than a
      hundred behind, on a report all the unscored ones, otherwise none. */
  ghost predicate ScoredBy(n: nat, s: Sim, e: Event, order: seq<nat>)
    requires n > 0
  {
    && RO.Distinct(order)
    && forall id :: id in order <==>
         && id in s.groups && !s.groups[id].evaluated
         && (e.Report? || (Advances(s, e.seqNum / n) && id + 100 < e.seqNum / n))
  }

  /** Every event scores exactly the groups that are due, each once, with what
      arrived, was rebuilt and is lost of them; clean-up deletes none unscored. */
  lemma {:induction false} EventScores(k: nat, n: nat, s: Sim, e: Event)
    requires Shaped(k, n, s) && Enabled(n, s, e)
    ensures ScoredBy(n, s, e, e.order) && Scores(k, s, Apply(k, n, s, e), e.order)
  {
    DueIs(k, n, s, e);
    match e
    case Report(order) => FinalizeEachScores(k, n, s, order, false);
    case Rec(seqNum, isLost, order) => PacketScores(k, n, s, seqNum, isLost, order);
  }

  lemma DueIs(k: nat, n: nat, s: Sim, e: Event)
    requires Shaped(k, n, s) && Enabled(n, s, e)
    ensures ScoredBy(n, s, e, e.order)
  {
  }

  lemma PacketScores(k: nat, n: nat, s: Sim, seqNum: nat, isLost: bool, order: seq<nat>)
    requires Shaped(k, n, s) && Enabled(n, s, Rec(seqNum, isLost, order)) && forall id :: id in order ==> id in s.groups
    ensures Scores(k, s, Apply(k, n, s, Rec(seqNum, isLost, order)), order)
  {
    var t := WithGroup(n, s, seqNum / n);
    FreshCount(n, n);
    FinalizeEachScores(k, n, t, order, true);
    SameSums(k, s, t, order);
  }

  lemma SameEach(s: Sim, t: Sim, f: VirtualGroup -> nat, order: seq<nat>)
    requires forall id :: id in order ==> id in s.groups && id in t.groups && s.groups[id] == t.groups[id]
    ensures SumOver(Each(s, f), order) == SumOver(Each(t, f), order)
  {
    if order == [] {
    } else {
      SameEach(s, t, f, order[..|order| - 1]);
    }
  }

  lemma SameSums(k: nat, s: Sim, t: Sim, order: seq<nat>)
    requires forall id :: id in order ==> id in s.groups && id in t.groups && s.groups[id] == t.groups[id]
    ensures SumOver(Each(s, Arrived(k)), order) == SumOver(Each(t, Arrived(k)), order)
    ensures SumOver(Each(s, Rebuilt(k)), order) == SumOver(Each(t, Rebuilt(k)), order)
    ensures SumOver(Each(s, Missing(k)), order) == SumOver(Each(t, Missing(k)), order)
  {
    SameEach(s, t, Arrived(k), order);
    SameEach(s, t, Rebuilt(k), order);
    SameEach(s, t, Missing(k), order);
  }

  // ---- The score of a whole session --------------------------------------------

  /** Number `i` of group `g` was heard. */
  predicate Has(n: nat, heard: set<nat>, g: nat, i: nat) {
    g * n + i in heard
  }

  /** How many of the first `m` numbers of group `g` are in the set. */
  function HeardOf(n: nat, heard: set<nat>, g: nat, m: nat): (c: nat)
    ensures c <= m
  {
    if m == 0 then 0 else HeardOf(n, heard, g, m - 1) + if Has(n, heard, g, m - 1) then 1 else 0
  }

  /** The score a group deserves: nothing is lost if k of its n numbers were
      heard, otherwise the data that was not. */
  function DueLoss(k: nat, n: nat, heard: set<nat>, g: nat): nat
    requires k <= n
  {
    if HeardOf(n, heard, g, n) >= k then 0 else k - HeardOf(n, heard, g, k)
  }

  function DueLosses(k: nat, n: nat, heard: set<nat>): nat -> nat
    requires k <= n
  {
    (g: nat) => DueLoss(k, n, heard, g)
  }

  lemma {:induction false} FlagCount(n: nat, s: Sim, heard: set<nat>, g: nat, m: nat)
    requires n > 0 && FlagsAgree(n, s, heard) && InHistory(s, g)
    requires g in s.groups && |s.groups[g].received| == n && m <= n
    ensures Count(s.groups[g].received, m) == HeardOf(n, heard, g, m)
  {
    if m == 0 {
    } else {
      FlagCount(n, s, heard, g, m - 1);
      ModUnique(g * n + (m - 1), g, m - 1, n);
    }
  }

  lemma LossIsDue(k: nat, n: nat, s: Sim, heard: set<nat>, g: nat)
    requires Shaped(k, n, s) && FlagsAgree(n, s, heard) && InHistory(s, g) && g in s.groups
    ensures LostOf(k, s.groups[g]) == DueLoss(k, n, heard, g)
  {
    FlagCount(n, s, heard, g, n);
    FlagCount(n, s, heard, g, k);
  }

  lemma Picked(ids: seq<nat>, id: nat) returns (a: seq<nat>, b: seq<nat>)
    requires RO.Distinct(ids) && id in ids
    ensures ids == a + [id] + b && RO.Distinct(a + b) && forall x :: x in a + b <==> x in ids && x != id
  {
    var t :| 0 <= t < |ids| && ids[t] == id;
    a, b := ids[..t], ids[t + 1..];
    assert ids == a + [id] + b;
  }

  lemma SumConcat(f: nat -> nat, a: seq<nat>, b: seq<nat>)
    ensures SumOver(f, a + b) == SumOver(f, a) + SumOver(f, b)
  {
    if b == [] {
      assert a + b == a;
    } else {
      assert (a + b)[..|a + b| - 1] == a + b[..|b| - 1];
      SumConcat(f, a, b[..|b| - 1]);
    }
  }

  lemma SomeIn(ids: seq<nat>)
    ensures ids == [] || exists x :: x in ids
  {
    if ids != [] { assert ids[0] in ids; }
  }

  /** In whatever order they are visited. */
  lemma {:induction false} SumIsRange(f: nat -> nat, ids: seq<nat>, lo: nat, hi: nat)
    requires lo <= hi && RO.Distinct(ids) && forall x: nat :: x in ids <==> lo <= x < hi
    ensures SumOver(f, ids) == SumRange(f, lo, hi)
    decreases hi - lo
  {
    if lo == hi {
      SomeIn(ids);
    } else {
      var a, b := Picked(ids, hi - 1);
      SumIsRange(f, a + b, lo, hi - 1);
      SumConcat(f, a, b);
      SumConcat(f, a, [hi - 1]);
      SumConcat(f, a + [hi - 1], b);
      assert SumOver(f, [hi - 1]) == SumOver(f, []) + f(hi - 1) by { SumSnoc(f, [], hi - 1); assert [] + [hi - 1] == [hi - 1]; }
    }
  }

  lemma SameRange(f: nat -> nat, g: nat -> nat, lo: nat, hi: nat)
    requires lo <= hi && forall x: nat :: lo <= x < hi ==> f(x) == g(x)
    ensures SumRange(f, lo, hi) == SumRange(g, lo, hi)
    decreases hi - lo
  {
    if lo == hi {
    } else {
      SameRange(f, g, lo, hi - 1);
    }
  }

  /** The group of a number. */
  function Id(n: nat, q: nat): nat
    requires n > 0
  {
    q / n
  }

  /** Packets only, and all their groups within a hundred of the lowest. */
  ghost predicate Recent(n: nat, es: seq<Event>, lo: nat)
    requires n > 0
  {
    && (forall i :: 0 <= i < |es| ==> es[i].Rec?)
    && forall i :: 0 <= i < |es| && es[i].Rec? ==> lo <= Id(n, es[i].seqNum) <= lo + 100
  }

  /** Nothing has been scored yet. */
  ghost predicate Unscored(s: Sim, lo: nat) {
    && s.lost == 0 && s.recovered == 0 && s.delivered == 0 && s.lastGroup <= lo + 100
    && forall id :: id in s.groups ==> !s.groups[id].evaluated && lo <= id
  }

  lemma QuietStep(k: nat, n: nat, s: Sim, e: Event, lo: nat)
    requires Shaped(k, n, s) && Enabled(n, s, e) && e.Rec? && lo <= Id(n, e.seqNum) <= lo + 100 && Unscored(s, lo)
    ensures Unscored(Apply(k, n, s, e), lo)
  {
    EventScores(k, n, s, e);
    SomeIn(e.order);
  }

  lemma {:induction false} QuietRun(k: nat, n: nat, es: seq<Event>, lo: nat)
    requires 0 < k < n && Feasible(k, n, es) && Recent(n, es, lo)
    ensures Unscored(RunEvents(k, n, es), lo)
  {
    if es == [] {
    } else {
      var front, e := es[..|es| - 1], es[|es| - 1];
      assert forall i :: 0 <= i < |front| ==> front[i] == es[i];
      assert es[|es| - 1].Rec?;
      QuietRun(k, n, front, lo);
      QuietStep(k, n, RunEvents(k, n, front), e, lo);
    }
  }

  /** A simulator that was told this script, and nothing else. */
  ghost predicate Follows(k: nat, n: nat, es: seq<Event>, given: seq<uint32>)
    requires 0 < k < n
  {
    && Feasible(k, n, es) && given != [] && Smooth(given)
    && (forall i :: 0 <= i < |es| ==> es[i].Rec?) && Told(es) == Script(given)
    && Id(n, Highest(given)) <= Id(n, given[0]) + 100
  }

  lemma ToldEvent(es: seq<Event>, i: nat)
    requires i < |es| && es[i].Rec?
    ensures es[i].seqNum in ToldIn(es)
  {
    if i == |es| - 1 {
    } else {
      ToldEvent(es[..|es| - 1], i);
    }
  }

  lemma DivBetween(lo: nat, q: nat, hi: nat, n: nat)
    requires n > 0 && lo <= q <= hi
    ensures Id(n, lo) <= Id(n, q) <= Id(n, hi)
  {
    QuotientGrows(lo, q, n);
    QuotientGrows(q, hi, n);
  }

  lemma QuotientGrows(a: nat, b: nat, n: nat)
    requires n > 0 && a <= b
    ensures a / n <= b / n
  {
    assert a == (a / n) * n + a % n && b == (b / n) * n + b % n;
    assert (b / n + 1) * n == (b / n) * n + n;
    if b / n < a / n { MulGrows(b / n + 1, a / n, n); }
  }

  lemma MulGrows(a: nat, b: nat, n: nat)
    requires a <= b
    ensures a * n <= b * n
  {
    assert b * n == a * n + (b - a) * n;
  }

  lemma ScriptIsRecent(k: nat, n: nat, es: seq<Event>, given: seq<uint32>)
    requires 0 < k < n && Follows(k, n, es, given)
    ensures Covers(ToldIn(es), given[0], Highest(given)) && Recent(n, es, Id(n, given[0]))
  {
    ScriptCovers(given);
    ToldIsNumbers(es);
    forall i | 0 <= i < |es| && es[i].Rec?
      ensures Id(n, given[0]) <= Id(n, es[i].seqNum) <= Id(n, given[0]) + 100
    {
      ToldEvent(es, i);
      DivBetween(given[0], es[i].seqNum, Highest(given), n);
    }
  }

  lemma ScriptIsHeard(k: nat, n: nat, es: seq<Event>, given: seq<uint32>)
    requires 0 < k < n && Follows(k, n, es, given)
    ensures Heard(es) == GivenSet(given)
  {
    ScriptCovers(given);
    HeardIsTold(es);
  }

  /** Every group from the first number's to the highest is in the map, and no other. */
  lemma {:induction false} AllGroupsHeld(k: nat, n: nat, es: seq<Event>, given: seq<uint32>)
    requires 0 < k < n && Follows(k, n, es, given)
    ensures Recent(n, es, Id(n, given[0])) && Heard(es) == GivenSet(given)
    ensures forall id: nat :: id in RunEvents(k, n, es).groups <==> Id(n, given[0]) <= id <= Id(n, Highest(given))
  {
    ScriptIsRecent(k, n, es, given);
    ScriptIsHeard(k, n, es, given);
    QuietRun(k, n, es, Id(n, given[0]));
    forall id: nat
      ensures id in RunEvents(k, n, es).groups <==> Id(n, given[0]) <= id <= Id(n, Highest(given))
    {
      GroupHeldIff(k, n, es, given, id);
    }
  }

  lemma GroupHeldIff(k: nat, n: nat, es: seq<Event>, given: seq<uint32>, id: nat)
    requires 0 < k < n && Follows(k, n, es, given) && Covers(ToldIn(es), given[0], Highest(given))
    requires RunEvents(k, n, es).lastGroup <= Id(n, given[0]) + 100
    ensures id in RunEvents(k, n, es).groups <==> Id(n, given[0]) <= id <= Id(n, Highest(given))
  {
    if id in RunEvents(k, n, es).groups {
      HeldWasTold(k, n, es, id);
      var q :| q in ToldIn(es) && q / n == id;
      DivBetween(given[0], q, Highest(given), n);
    }
    if Id(n, given[0]) <= id <= Id(n, Highest(given)) {
      var q := if id == Id(n, given[0]) then given[0] else id * n;
      HighestBounds(given);
      NumberOf(given[0], Highest(given), id, n);
      ToldIsHeld(k, n, es);
      assert q in ToldIn(es);
      assert GroupHeld(n, RunEvents(k, n, es), q);
    }
  }

  lemma NumberOf(lo: nat, hi: nat, id: nat, n: nat)
    requires n > 0 && lo <= hi && Id(n, lo) <= id <= Id(n, hi)
    ensures var q := if id == Id(n, lo) then lo else id * n; lo <= q <= hi && Id(n, q) == id
  {
    if id != lo / n {
      ModUnique(id * n, id, 0, n);
      MulGrows(id, hi / n, n);
      MulGrows(lo / n + 1, id, n);
      assert lo == (lo / n) * n + lo % n && hi == (hi / n) * n + hi % n;
      assert (lo / n + 1) * n == (lo / n) * n + n;
    }
  }

  /** The simulator holds exactly the groups from `lo` to `hi`, none of them scored. */
  ghost predicate Complete(n: nat, s: Sim, heard: set<nat>, lo: nat, hi: nat)
    requires n > 0
  {
    && lo <= hi && Unscored(s, lo) && FlagsAgree(n, s, heard)
    && forall id: nat :: id in s.groups <==> lo <= id <= hi
  }

  lemma OrderIsRange(k: nat, n: nat, s: Sim, heard: set<nat>, order: seq<nat>, lo: nat, hi: nat)
    requires Shaped(k, n, s) && Enabled(n, s, Report(order)) && Complete(n, s, heard, lo, hi)
    ensures RO.Distinct(order) && forall x: nat :: x in order <==> lo <= x < hi + 1
  {
    DueIs(k, n, s, Report(order));
  }

  lemma LossesAreDue(k: nat, n: nat, s: Sim, heard: set<nat>, lo: nat, hi: nat)
    requires Shaped(k, n, s) && Complete(n, s, heard, lo, hi)
    ensures SumRange(Each(s, Missing(k)), lo, hi + 1) == SumRange(DueLosses(k, n, heard), lo, hi + 1)
  {
    forall g: nat | lo <= g < hi + 1
      ensures Each(s, Missing(k))(g) == DueLosses(k, n, heard)(g)
    {
      LossIsDue(k, n, s, heard, g);
    }
    SameRange(Each(s, Missing(k)), DueLosses(k, n, heard), lo, hi + 1);
  }

  /** `lost` is the sum of what each group from `lo` to `hi` deserves. */
  ghost predicate LossIsSum(k: nat, n: nat, s: Sim, heard: set<nat>, lo: nat, hi: nat)
    requires k <= n && lo <= hi
  {
    s.lost == SumRange(DueLosses(k, n, heard), lo, hi + 1)
  }

  /** A report in such a state. */
  lemma ReportLoss(k: nat, n: nat, s: Sim, heard: set<nat>, order: seq<nat>, lo: nat, hi: nat)
    requires Shaped(k, n, s) && Enabled(n, s, Report(order)) && Complete(n, s, heard, lo, hi)
    ensures LossIsSum(k, n, Apply(k, n, s, Report(order)), heard, lo, hi)
  {
    EventScores(k, n, s, Report(order));
    OrderIsRange(k, n, s, heard, order, lo, hi);
    SumIsRange(Each(s, Missing(k)), order, lo, hi + 1);
    LossesAreDue(k, n, s, heard, lo, hi);
  }

  lemma ScriptIsComplete(k: nat, n: nat, es: seq<Event>, given: seq<uint32>)
    requires 0 < k < n && Follows(k, n, es, given)
    ensures Complete(n, RunEvents(k, n, es), GivenSet(given), Id(n, given[0]), Id(n, Highest(given)))
  {
    HighestBounds(given);
    QuotientGrows(given[0], Highest(given), n);
    AllGroupsHeld(k, n, es, given);
    QuietRun(k, n, es, Id(n, given[0]));
    FlagsAreHeard(k, n, es);
  }

  /** The score of a session: if the numbers given jump by at most a thousand,
      do not wrap, and span at most a hundred groups, then a report scores every
      group from the first number to the highest, whether anything of it arrived
      or not: `lost` is the sum of the data that neither arrived nor can be rebuilt. */
  lemma {:induction false} ReportScoresEveryGroup(k: nat, n: nat, es: seq<Event>, given: seq<uint32>, order: seq<nat>)
    requires 0 < k < n && Follows(k, n, es, given) && Enabled(n, RunEvents(k, n, es), Report(order))
    ensures Id(n, given[0]) <= Id(n, Highest(given))
    ensures LossIsSum(k, n, Apply(k, n, RunEvents(k, n, es), Report(order)), GivenSet(given),
                      Id(n, given[0]), Id(n, Highest(given)))
  {
    ScriptIsComplete(k, n, es, given);
    ReportLoss(k, n, RunEvents(k, n, es), GivenSet(given), order, Id(n, given[0]), Id(n, Highest(given)));
  }

  /** A group of which nothing arrived counts k lost packets. */
  lemma {:induction false} SilentGroupIsLost(k: nat, n: nat, heard: set<nat>, g: nat)
    requires 0 < k <= n && forall i :: 0 <= i < n ==> !Has(n, heard, g, i)
    ensures DueLoss(k, n, heard, g) == k
  {
    NothingHeard(n, heard, g, n);
    NothingHeard(n, heard, g, k);
  }

  lemma NothingHeard(n: nat, heard: set<nat>, g: nat, m: nat)
    requires m <= n && forall i :: 0 <= i < n ==> !Has(n, heard, g, i)
    ensures HeardOf(n, heard, g, m) == 0
  {
    if m == 0 {
    } else {
      NothingHeard(n, heard, g, m - 1);
    }
  }

  /** The simulators of an analyzer object, before its first report. */
  lemma ObjectFollows(fa: FECAnalyzer, i: nat)
    requires fa.Valid() && i < |fa.sims| && fa.given != [] && Smooth(fa.given)
    requires forall t :: 0 <= t < |fa.sims[i].log| ==> fa.sims[i].log[t].Rec?
    requires Id(fa.sims[i].n, Highest(fa.given)) <= Id(fa.sims[i].n, fa.given[0]) + 100
    ensures 0 < fa.sims[i].k < fa.sims[i].n && Follows(fa.sims[i].k, fa.sims[i].n, fa.sims[i].log, fa.given)
    ensures RunEvents(fa.sims[i].k, fa.sims[i].n, fa.sims[i].log) == fa.sims[i].Value()
  {
    assert FECAnalyzer.Knows(fa.sims[i], fa.told);
  }
}
