/** The simulators and the analyzer as objects updated in place. */
module AnalyzerState {
  import opened Words
  import opened Analyzer
  import AnalyzerHistory
  import RO = ReleaseOrder

  class VirtualFEC {
    const k: nat
    const n: nat
    var groups: map<nat, VirtualGroup>
    var recoveredPackets: nat
    var lostPackets: nat
    var deliveredPackets: nat
    var lastGroupID: nat

    /** How many groups were scored, and every event so far. */
    ghost var finalised: nat
    ghost var log: seq<Event>

    ghost predicate Valid()
      reads this
    {
      0 < k < n && Feasible(k, n, log) && Value() == RunEvents(k, n, log)
    }

    ghost function Value(): Sim
      reads this
    {
      Sim(groups, recoveredPackets, lostPackets, deliveredPackets, lastGroupID, finalised)
    }

    constructor (k: nat, n: nat)
      requires 0 < k < n
      ensures Valid() && this.k == k && this.n == n && log == [] && Told(log) == []
    {
      this.k, this.n := k, n;
      groups, recoveredPackets, lostPackets, deliveredPackets, lastGroupID := map[], 0, 0, 0, 0;
      finalised, log := 0, [];
    }

    ghost method Append(e: Event)
      requires 0 < k < n && Feasible(k, n, log) && Enabled(n, RunEvents(k, n, log), e)
      requires Value() == Apply(k, n, RunEvents(k, n, log), e)
      modifies `log
      ensures Valid() && log == old(log) + [e]
      ensures Told(log) == Told(old(log)) + if e.Rec? then [Notice(e.seqNum, e.isLost)] else []
    {
      assert (log + [e])[..|log|] == log;
      log := log + [e];
    }

    /** Score one group: one pass over its data flags. */
    method FinalizeGroup(id: nat)
      requires id in groups && k <= |groups[id].received|
      modifies this
      ensures Value() == Finalize(k, old(Value()), id) && log == old(log)
    {
      var g := groups[id];
      groups := groups[id := g.(evaluated := true)];
      var groupDelivered, groupLost, i := 0, 0, 0;
      while i < k
        invariant i <= k && groupDelivered == Count(g.received, i) && groupLost == i - groupDelivered
      {
        if g.received[i] {
          groupDelivered := groupDelivered + 1;
        } else {
          groupLost := groupLost + 1;
        }
        i := i + 1;
      }
      deliveredPackets := deliveredPackets + groupDelivered;
      if groupLost > 0 {
        if g.recvCount >= k {
          recoveredPackets := recoveredPackets + groupLost;
        } else {
          lostPackets := lostPackets + groupLost;
        }
      }
      finalised := finalised + 1;
    }

    /** Score, and if asked delete, the unscored groups below `cutoff` (or all), in the map's own order. */
    method FinalizeDue(cutoff: nat, all: bool, drop: bool) returns (ghost order: seq<nat>)
      requires Shaped(k, n, Value())
      modifies this
      ensures Enumerates(order, Due(old(Value()), old(groups.Keys), cutoff, all))
      ensures Value() == FinalizeEach(k, n, old(Value()), order, drop) && log == old(log)
    {
      ghost var start := Value();
      order := [];
      var todo := groups.Keys;
      while todo != {}
        invariant todo <= start.groups.Keys && log == old(log)
        invariant Enumerates(order, Due(start, start.groups.Keys - todo, cutoff, all))
        invariant Value() == FinalizeEach(k, n, start, order, drop)
        decreases todo
      {
        var id :| id in todo;
        order := Visit(id, start, order, start.groups.Keys - todo, cutoff, all, drop);
        Without(start.groups.Keys, todo, id);
        todo := todo - {id};
      }
      assert start.groups.Keys - {} == start.groups.Keys;
    }

    static lemma Without(all: set<nat>, todo: set<nat>, id: nat)
      requires todo <= all && id in todo
      ensures all - (todo - {id}) == all - todo + {id}
    {
    }

    /** One step of the iteration over the map. */
    method Visit(id: nat, ghost start: Sim, ghost order: seq<nat>, ghost seen: set<nat>, cutoff: nat, all: bool, drop: bool)
      returns (ghost order': seq<nat>)
      requires Shaped(k, n, start) && Enumerates(order, Due(start, seen, cutoff, all))
      requires id in start.groups && id !in seen && Value() == FinalizeEach(k, n, start, order, drop)
      modifies this
      ensures Enumerates(order', Due(start, seen + {id}, cutoff, all))
      ensures Value() == FinalizeEach(k, n, start, order', drop) && log == old(log)
    {
      DueStep(start, seen, id, cutoff, all);
      order' := order;
      assert groups[id] == start.groups[id];
      if !groups[id].evaluated && (all || id < cutoff) {
        ScoreOne(id, start, order, drop);
        order' := order + [id];
        EnumerateSnoc(order, Due(start, seen, cutoff, all), id);
      }
    }

    static lemma EnumerateSnoc(order: seq<nat>, ids: set<nat>, id: nat)
      requires Enumerates(order, ids) && id !in ids
      ensures Enumerates(order + [id], ids + {id})
    {
    }

    method ScoreOne(id: nat, ghost start: Sim, ghost order: seq<nat>, drop: bool)
      requires Shaped(k, n, start) && RO.Distinct(order) && id in start.groups && id !in order
      requires forall i :: i in order ==> i in start.groups
      requires Value() == FinalizeEach(k, n, start, order, drop)
      modifies this
      ensures RO.Distinct(order + [id]) && log == old(log)
      ensures Value() == FinalizeEach(k, n, start, order + [id], drop)
    {
      FinalizeSnoc(k, n, start, order, id, drop);
      FinalizeGroup(id);
      if drop {
        groups := groups - {id};
      }
    }

    static lemma DueStep(s: Sim, ids: set<nat>, id: nat, cutoff: nat, all: bool)
      requires id in s.groups && id !in ids
      ensures Due(s, ids + {id}, cutoff, all)
        == Due(s, ids, cutoff, all) + if !s.groups[id].evaluated && (all || id < cutoff) then {id} else {}
    {
    }

    /** The group of a sequence number, made if it is new; a new highest group scores the expired ones. */
    method Open(groupID: nat) returns (ghost order: seq<nat>)
      requires Shaped(k, n, Value())
      modifies this
      ensures var t := WithGroup(n, old(Value()), groupID);
        && Enumerates(order, if Advances(old(Value()), groupID) then Due(t, t.groups.Keys, Cutoff(groupID), false) else {})
        && Shaped(k, n, t) && (forall id :: id in order ==> id in t.groups)
        && Value() == FinalizeEach(k, n, t, order, true)
      ensures log == old(log)
    {
      order := [];
      FreshCount(n, n);
      if groupID !in groups {
        groups := groups[groupID := VirtualGroup(0, seq(n, _ => false), false)];
        if groupID > lastGroupID {
          lastGroupID := groupID;
          order := FinalizeDue(Cutoff(groupID), false, true);
        }
      }
    }

    method MarkSlot(groupID: nat, index: nat, isLost: bool)
      requires groupID in groups && index < |groups[groupID].received|
      modifies `groups
      ensures groups == old(groups)[groupID := Mark(old(groups)[groupID], index, isLost)]
    {
      var g := groups[groupID];
      if !g.received[index] && !isLost {
        groups := groups[groupID := VirtualGroup(g.recvCount + 1, g.received[index := true], g.evaluated)];
      } else {
        assert groups == groups[groupID := g];
      }
    }

    method RecordPacket(seqNum: uint32, isLost: bool)
      requires Valid()
      modifies this
      ensures Valid() && |log| == |old(log)| + 1 && log[..|old(log)|] == old(log)
      ensures var e := log[|old(log)|]; e.Rec? && e.seqNum == seqNum && e.isLost == isLost
      ensures Told(log) == Told(old(log)) + [Notice(seqNum, isLost)]
    {
      var groupID, index := seqNum / n, seqNum % n;
      ghost var order := Open(groupID);
      MarkSlot(groupID, index, isLost);
      Append(Rec(seqNum, isLost, order));
    }

    /** Score everything not yet scored; the groups stay in the map. */
    method FinalizeAll()
      requires Valid()
      modifies this
      ensures Valid() && |log| == |old(log)| + 1 && log[..|old(log)|] == old(log) && log[|old(log)|].Report?
    {
      ghost var order := FinalizeDue(0, true, false);
      Append(Report(order));
    }
  }

  // ---- The analyzer: one script of reports, told to every simulator --------

  /** A sequence number reported as received, or marked as lost. */
  datatype Notice = Notice(seqNum: nat, isLost: bool)

  /** What a log tells, without the reports on scores. */
  ghost function Told(log: seq<Event>): seq<Notice> {
    if log == [] then []
    else
      var e := log[|log| - 1];
      Told(log[..|log| - 1]) + if e.Rec? then [Notice(e.seqNum, e.isLost)] else []
  }

  function HeardIn(told: seq<Notice>): set<nat> {
    set r | r in told && !r.isLost :: r.seqNum
  }

  lemma HeardIsTold(log: seq<Event>)
    ensures Heard(log) == HeardIn(Told(log))
  {
    if log == [] {
    } else {
      HeardIsTold(log[..|log| - 1]);
    }
  }

  const MAX_GAP := 1000

  /** The numbers skipped between the last report and this one, unless the jump
      is abnormal; all arithmetic wraps at 32 bits. */
  function Skipped(hasSeq: bool, lastSeq: uint32, seqNum: uint32): seq<Notice> {
    var next := (lastSeq + 1) % WRAP;
    if hasSeq && seqNum > next && (seqNum - lastSeq - 1) % WRAP < MAX_GAP
    then seq(seqNum - next, i requires 0 <= i < seqNum - next => Notice(next + i, true))
    else []
  }

  /** What the analyzer tells when it is given these sequence numbers. */
  function Script(given: seq<uint32>): seq<Notice> {
    if given == [] then []
    else
      var front, s := given[..|given| - 1], given[|given| - 1];
      Script(front) + Skipped(front != [], if front == [] then 0 else front[|front| - 1], s) + [Notice(s, false)]
  }

  lemma ScriptSnoc(given: seq<uint32>, s: uint32)
    ensures Script(given + [s]) ==
      Script(given) + Skipped(given != [], if given == [] then 0 else given[|given| - 1], s) + [Notice(s, false)]
  {
    assert (given + [s])[..|given|] == given;
  }

  lemma NextScript(given: seq<uint32>, hasSeq: bool, lastSeq: uint32, s: uint32)
    requires (hasSeq <==> given != []) && (hasSeq ==> lastSeq == given[|given| - 1])
    ensures Script(given + [s]) == Script(given) + Skipped(hasSeq, lastSeq, s) + [Notice(s, false)]
    ensures !hasSeq ==> Skipped(hasSeq, lastSeq, s) == []
  {
    ScriptSnoc(given, s);
  }

  class FECAnalyzer {
    const enabled: bool
    var sims: seq<VirtualFEC>
    var lastSeq: uint32
    var hasSeq: bool

    /** The sequence numbers given, and the script every simulator was told. */
    ghost var given: seq<uint32>
    ghost var told: seq<Notice>

    ghost predicate Valid()
      reads this, sims
    {
      Ready() && Follows(given, told, hasSeq, lastSeq)
    }

    /** The script is the one for the numbers given. */
    static ghost predicate Follows(given: seq<uint32>, told: seq<Notice>, hasSeq: bool, lastSeq: uint32) {
      && told == Script(given)
      && (hasSeq <==> given != [])
      && (given != [] ==> lastSeq == given[|given| - 1])
    }

    static lemma FollowsNext(given: seq<uint32>, told: seq<Notice>, hasSeq: bool, lastSeq: uint32, s: uint32)
      requires Follows(given, told, hasSeq, lastSeq)
      ensures Follows(given + [s], told + (if hasSeq then Skipped(true, lastSeq, s) else []) + [Notice(s, false)], true, s)
      ensures !hasSeq ==> Skipped(hasSeq, lastSeq, s) == []
    {
      NextScript(given, hasSeq, lastSeq, s);
    }

    /** Every simulator knows the script. */
    ghost predicate Ready()
      reads this, sims
    {
      Separate() && AllKnow(0, |sims|, told)
    }

    static ghost predicate Knows(sim: VirtualFEC, told: seq<Notice>)
      reads sim
    {
      sim.Valid() && Told(sim.log) == told
    }

    constructor (enabled: bool)
      ensures Valid() && this.enabled == enabled && given == [] && told == [] && !hasSeq
      ensures fresh(sims)
      ensures if enabled then |sims| == 4 && sims[0].k == 8 && sims[0].n == 9 && sims[1].k == 8 && sims[1].n == 10
                && sims[2].k == 16 && sims[2].n == 20 && sims[3].k == 4 && sims[3].n == 6
              else sims == []
    {
      this.enabled := enabled;
      lastSeq, hasSeq, given, told := 0, false, [], [];
      if enabled {
        var made := Simulators();
        sims := made;
      } else {
        sims := [];
      }
    }

    static method Simulators() returns (sims: seq<VirtualFEC>)
      ensures fresh(sims) && (forall i, j :: 0 <= i < j < |sims| ==> sims[i] != sims[j])
      ensures forall i :: 0 <= i < |sims| ==> Knows(sims[i], [])
      ensures |sims| == 4 && sims[0].k == 8 && sims[0].n == 9 && sims[1].k == 8 && sims[1].n == 10
                && sims[2].k == 16 && sims[2].n == 20 && sims[3].k == 4 && sims[3].n == 6
    {
      var a := new VirtualFEC(8, 9);
      var b := new VirtualFEC(8, 10);
      var c := new VirtualFEC(16, 20);
      var d := new VirtualFEC(4, 6);
      sims := [a, b, c, d];
    }

    ghost predicate AllKnow(lo: nat, hi: nat, t: seq<Notice>)
      requires lo <= hi <= |sims|
      reads this, sims
    {
      forall i :: lo <= i < hi ==> Knows(sims[i], t)
    }

    ghost predicate Separate()
      reads this
    {
      forall i, j :: 0 <= i < j < |sims| ==> sims[i] != sims[j]
    }

    method TellOne(i: nat, seqNum: uint32, isLost: bool, ghost t: seq<Notice>)
      requires i < |sims| && Separate() && AllKnow(0, i, t + [Notice(seqNum, isLost)]) && AllKnow(i, |sims|, t)
      modifies sims[i]
      ensures AllKnow(0, i + 1, t + [Notice(seqNum, isLost)]) && AllKnow(i + 1, |sims|, t)
    {
      assert Knows(sims[i], t);
      sims[i].RecordPacket(seqNum, isLost);
      assert Knows(sims[i], t + [Notice(seqNum, isLost)]);
      assert forall j :: 0 <= j < |sims| && j != i ==> sims[j] != sims[i];
    }

    /** Report one sequence number to every simulator. */
    method Tell(seqNum: uint32, isLost: bool)
      requires Ready()
      modifies sims, `told
      ensures Ready() && told == old(told) + [Notice(seqNum, isLost)]
    {
      var i := 0;
      while i < |sims|
        invariant i <= |sims| && told == old(told) && Separate()
        invariant AllKnow(0, i, told + [Notice(seqNum, isLost)]) && AllKnow(i, |sims|, told)
      {
        TellOne(i, seqNum, isLost, told);
        i := i + 1;
      }
      told := told + [Notice(seqNum, isLost)];
    }

    /** Mark the numbers skipped before `seqNum` as lost, unless the jump is abnormal. */
    method TellGap(seqNum: uint32)
      requires Ready() && hasSeq
      modifies sims, `told
      ensures Ready() && told == old(told) + Skipped(true, lastSeq, seqNum)
    {
      ghost var skipped := Skipped(true, lastSeq, seqNum);
      if seqNum > (lastSeq + 1) % WRAP {
        var lostCount := (seqNum - lastSeq - 1) % WRAP;
        if lostCount < MAX_GAP {
          var s := (lastSeq + 1) % WRAP;
          ghost var m := 0;
          while s < seqNum
            invariant Ready() && 0 <= m <= |skipped| && s == (lastSeq + 1) % WRAP + m && told == old(told) + skipped[..m]
          {
            Tell(s, true);
            s, m := s + 1, m + 1;
          }
        }
      }
    }

    /** The gap, then the number itself. */
    method TellGiven(seqNum: uint32)
      requires Ready()
      modifies sims, `told
      ensures Ready()
      ensures told == old(told) + (if hasSeq then Skipped(true, lastSeq, seqNum) else []) + [Notice(seqNum, false)]
    {
      if hasSeq { TellGap(seqNum); }
      Tell(seqNum, false);
    }

    /** What the simulators are told when `seqNum` is received: the numbers skipped
        since the last one, as lost, then `seqNum` itself. */
    ghost function News(seqNum: uint32): (news: seq<Notice>)
      reads this
      ensures enabled ==> news != [] && news[|news| - 1] == Notice(seqNum, false)
      ensures forall t :: 0 <= t < |news| - 1 ==> news[t].isLost
    {
      if enabled then Skipped(hasSeq, lastSeq, seqNum) + [Notice(seqNum, false)] else []
    }

    method RecordPacket(seqNum: uint32)
      requires Valid()
      modifies this, sims
      ensures Valid() && sims == old(sims)
      ensures given == if enabled then old(given) + [seqNum] else old(given)
      ensures told == old(told) + old(News(seqNum)) && (enabled ==> hasSeq && lastSeq == seqNum)
    {
      if !enabled {
        return;
      }
      FollowsNext(given, told, hasSeq, lastSeq, seqNum);
      TellGiven(seqNum);
      lastSeq, hasSeq, given := seqNum, true, given + [seqNum];
    }
  }

  /** In every simulator, the flags of a group of the recent history are the
      sequence numbers the analyzer was given as received, independent of their
      order and of how often gaps were marked; those of any other group are the
      numbers given since the group was made. */
  lemma AnalyzerFlags(fa: FECAnalyzer, i: nat)
    requires fa.Valid() && i < |fa.sims|
    ensures FlagsAgree(fa.sims[i].n, fa.sims[i].Value(), HeardIn(fa.told))
    ensures Told(fa.sims[i].log) == fa.told && AnalyzerHistory.FlagsSince(fa.sims[i].k, fa.sims[i].n, fa.sims[i].log)
    ensures Accounted(fa.sims[i].k, fa.sims[i].Value())
  {
    var sim := fa.sims[i];
    assert FECAnalyzer.Knows(sim, fa.told);
    FlagsAreHeard(sim.k, sim.n, sim.log);
    AnalyzerHistory.FlagsAreHeardSince(sim.k, sim.n, sim.log);
    AccountingHolds(sim.k, sim.n, sim.log);
    HeardIsTold(sim.log);
  }
}
