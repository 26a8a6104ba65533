/** The receiver's FEC manager: group states kept in a map and updated in place,
    each operation proved to be the value-level `Step` on its own entry. */
module FecManager {
  import opened Words
  import opened Wrappers
  import opened ReedSolomon
  import opened FecGroup

  type Table = map<uint16, Group>

  function Lookup(t: Table, num: uint16): Option<Group> {
    if num in t then Some(t[num]) else None
  }

  function Put(t: Table, num: uint16, og: Option<Group>): Table {
    if og.Some? then t[num := og.value] else t - {num}
  }

  /** The groups that are not too old. */
  function Purge(t: Table, timeout: int, now: int): Table {
    map num | num in t && !Stale(t[num], timeout, now) :: t[num]
  }

  lemma PutTwice(t: Table, num: uint16, g: Group, og: Option<Group>)
    ensures Put(t[num := g], num, og) == Put(t, num, og)
    ensures (t - {num})[num := g] == t[num := g]
    ensures num in t ==> t[num := t[num]] == t
  {
  }

  ghost predicate TableShape(e: Engine, t: Table) {
    forall num :: num in t ==> Shape(e, t[num])
  }

  ghost predicate TableConsistent(e: Engine, t: Table) {
    forall num :: num in t ==> Consistent(e, t[num])
  }

  /** `AddPacket` on the whole table. */
  function Add(e: Engine, timeout: int, t: Table, pkt: Bytes, isFEC: bool, num: uint16, index: int, now: int)
    : (r: (Table, Outcome))
    requires WellFormed(e) && TableShape(e, t)
  {
    var out := Step(e, timeout, Lookup(t, num), pkt, isFEC, index, now);
    (Put(t, num, out.group), out)
  }

  /** The group-table invariant is kept by every packet whatever its origin,
      and no packet touches the entry of another group number. */
  lemma {:induction false} AddKeepsTable(e: Engine, timeout: int, t: Table, pkt: Bytes, isFEC: bool, num: uint16,
                                         index: int, now: int)
    requires WellFormed(e) && TableConsistent(e, t)
    ensures TableShape(e, t)
    ensures var after := Add(e, timeout, t, pkt, isFEC, num, index, now).0;
      && TableConsistent(e, after)
      && forall other: uint16 :: other != num ==> Lookup(after, other) == Lookup(t, other)
  {
    StepKeepsConsistent(e, timeout, Lookup(t, num), pkt, isFEC, index, now);
  }

  lemma PurgeKeepsTable(e: Engine, timeout: int, t: Table, now: int)
    requires TableConsistent(e, t)
    ensures TableConsistent(e, Purge(t, timeout, now))
  {
  }

  /** Among the visited groups, exactly the stale ones were dropped. */
  ghost predicate OnlyStale(t: Table, timeout: int, now: int, visited: set<uint16>, dropped: set<uint16>) {
    && dropped <= visited <= t.Keys
    && forall num :: num in visited ==> (num in dropped <==> Stale(t[num], timeout, now))
  }

  lemma OnlyStaleStep(t: Table, timeout: int, now: int, todo: set<uint16>, dropped: set<uint16>, num: uint16)
    requires num in todo && todo <= t.Keys && OnlyStale(t, timeout, now, t.Keys - todo, dropped)
    ensures OnlyStale(t, timeout, now, t.Keys - (todo - {num}), dropped + if Stale(t[num], timeout, now) then {num} else {})
    ensures t - dropped - {num} == t - (dropped + {num})
  {
  }

  lemma PurgeIs(t: Table, timeout: int, now: int, dropped: set<uint16>)
    requires OnlyStale(t, timeout, now, t.Keys, dropped)
    ensures t - dropped == Purge(t, timeout, now)
  {
  }

  const DEFAULT_TIMEOUT := 2_000_000_000

  class GroupState {
    const groupNum: uint16
    const k: nat
    const n: nat
    var packets: seq<Bytes>
    var received: seq<bool>
    var sent: seq<bool>
    var recvCount: nat
    var maxLen: nat
    const createdAt: int

    constructor (num: uint16, e: Engine, now: int)
      ensures groupNum == num && k == e.k && n == e.n
      ensures Value() == Fresh(e, now)
    {
      groupNum, k, n := num, e.k, e.n;
      packets, received, sent := seq(e.n, _ => []), seq(e.n, _ => false), seq(e.k, _ => false);
      recvCount, maxLen, createdAt := 0, 0, now;
    }

    function Value(): Group
      reads this
    {
      Group(packets, received, sent, recvCount, maxLen, createdAt)
    }

    /** Is some data packet still unreleased? */
    method HasMissingData() returns (missing: bool)
      requires |sent| == k
      ensures missing <==> !AllSent(Value())
    {
      var i := 0;
      missing := false;
      while i < k
        invariant i <= k
        invariant forall j :: 0 <= j < i ==> sent[j]
      {
        if !sent[i] {
          missing := true;
          break;
        }
        i := i + 1;
      }
    }

    /** Bring every shorter received packet to the longest length seen. */
    method AlignPackets()
      requires |packets| == |received| == n
      modifies `packets
      ensures Value() == Align(old(Value()))
    {
      var i := 0;
      while i < n
        invariant i <= n && |packets| == n
        invariant forall j :: 0 <= j < i ==> packets[j] == PadShard(old(packets)[j], received[j], maxLen)
        invariant forall j :: i <= j < n ==> packets[j] == old(packets)[j]
      {
        if received[i] && |packets[i]| < maxLen {
          packets := packets[i := Pad(packets[i], maxLen)];
        }
        i := i + 1;
      }
      assert packets == Align(old(Value())).packets;
    }

    /** Append the reconstructed data packets that were never released, and mark them. */
    method CollectUnsent(released: seq<Bytes>) returns (r: seq<Bytes>)
      requires |sent| == k <= |packets|
      modifies `sent
      ensures r == released + Unsent(packets, old(sent), 0)
      ensures |sent| == k && AllSent(Value())
    {
      var i := 0;
      r := released;
      while i < k
        invariant i <= k == |sent|
        invariant r + Unsent(packets, old(sent), i) == released + Unsent(packets, old(sent), 0)
        invariant forall j :: 0 <= j < i ==> sent[j]
        invariant forall j :: i <= j < k ==> sent[j] == old(sent)[j]
      {
        if !sent[i] {
          assert r + ([packets[i]] + Unsent(packets, old(sent), i + 1)) == (r + [packets[i]]) + Unsent(packets, old(sent), i + 1);
          r := r + [packets[i]];
          sent := sent[i := true];
        }
        i := i + 1;
      }
    }

    /** Buffer a packet whose index checks passed. */
    method BufferPacket(pkt: Bytes, isFEC: bool, index: nat)
      requires |packets| == |received| == n && |sent| == k
      requires index < n && isFEC == (index >= k)
      modifies this
      ensures Value() == Buffer(old(Value()), pkt, isFEC, index)
    {
      packets := packets[index := pkt];
      received := received[index := true];
      recvCount := recvCount + 1;
      if |pkt| > maxLen {
        maxLen := |pkt|;
      }
      if !isFEC && index < k {
        sent := sent[index := true];
      }
    }

    /** Decode if k packets are here and data is missing; `done` says that all data is released. */
    method Deliver(e: Engine, passed: seq<Bytes>) returns (toRelease: seq<Bytes>, error: Error, done: bool)
      requires WellFormed(e) && k == e.k && n == e.n && Shape(e, Value())
      modifies this
      ensures var out := Settle(e, old(Value()), passed);
        && toRelease == out.release && error == out.error
        && (done <==> out.group.None?)
        && (!done ==> Value() == out.group.value)
    {
      toRelease := passed;
      var missing := HasMissingData();
      if recvCount >= k && missing {
        AlignPackets();
        var rebuilt := Reconstruct(e, packets);
        if rebuilt.None? {
          return toRelease, ReconstructFailed, false;
        }
        packets := rebuilt.value;
        toRelease := CollectUnsent(toRelease);
      }
      missing := HasMissingData();
      return toRelease, NoError, !missing;
    }
  }

  class FECManager {
    var groups: map<uint16, GroupState>
    const enabled: bool
    const decoder: Option<Engine>
    const groupTimeout: int

    /** The value of every stored group. */
    ghost var table: Table

    ghost predicate Valid()
      reads this, groups.Values
    {
      enabled ==>
        && decoder.Some? && WellFormed(decoder.value)
        && TableShape(decoder.value, table)
        && groups.Keys == table.Keys
        && (forall num :: num in groups ==> Entry(groups[num], num))
    }

    ghost predicate Entry(g: GroupState, num: uint16)
      requires num in table && decoder.Some?
      reads this, g
    {
      && g.groupNum == num && g.k == decoder.value.k && g.n == decoder.value.n
      && g.Value() == table[num]
    }

    /** `engine` is what the coding library returned for (k, n - k); it may have refused. */
    constructor (enabled: bool, k: int, n: int, groupTimeout: int, engine: Option<Engine>)
      requires engine.Some? ==> WellFormed(engine.value) && engine.value.k == k && engine.value.n == n
      ensures Valid() && table == map[] && groups == map[]
      ensures this.enabled == (enabled && k > 0 && n > k && engine.Some?)
      ensures decoder == engine
      ensures this.groupTimeout == if groupTimeout <= 0 then DEFAULT_TIMEOUT else groupTimeout
    {
      this.groupTimeout := if groupTimeout <= 0 then DEFAULT_TIMEOUT else groupTimeout;
      this.enabled := enabled && k > 0 && n > k && engine.Some?;
      decoder := engine;
      groups := map[];
      table := map[];
    }

    method DropIfStale(num: uint16, now: int)
      requires Valid() && enabled && num in groups
      modifies this
      ensures Valid()
      ensures if Stale(old(table)[num], groupTimeout, now)
        then table == old(table) - {num} && groups == old(groups) - {num}
        else table == old(table) && groups == old(groups)
    {
      if now - groups[num].createdAt > groupTimeout {
        groups, table := groups - {num}, table - {num};
      }
    }

    method Create(groupNum: uint16, now: int)
      requires Valid() && enabled && groupNum !in groups
      modifies this
      ensures Valid() && groupNum in groups && fresh(groups[groupNum]) && groups == old(groups)[groupNum := groups[groupNum]]
      ensures table == old(table)[groupNum := Fresh(decoder.value, now)]
    {
      var g := new GroupState(groupNum, decoder.value, now);
      groups, table := groups[groupNum := g], table[groupNum := g.Value()];
    }

    /** The state of the packet's group, made afresh if there is none or only a stale one. */
    method Locate(groupNum: uint16, now: int) returns (g: GroupState)
      requires Valid() && enabled
      modifies this
      ensures Valid() && fresh(groups.Values - old(groups.Values))
      ensures table == old(table)[groupNum := Current(decoder.value, groupTimeout, Lookup(old(table), groupNum), now)]
      ensures groupNum in groups && groups[groupNum] == g
    {
      PutTwice(table, groupNum, Current(decoder.value, groupTimeout, Lookup(table, groupNum), now), None);
      if groupNum in groups {
        DropIfStale(groupNum, now);
      }
      if groupNum !in groups {
        Create(groupNum, now);
      }
      g := groups[groupNum];
    }

    method AddPacket(pkt: Bytes, isFEC: bool, groupNum: uint16, index: int, now: int)
      returns (toRelease: seq<Bytes>, error: Error)
      requires Valid()
      modifies this, groups.Values
      ensures Valid() && fresh(groups.Values - old(groups.Values))
      ensures !enabled ==> toRelease == [pkt] && error == NoError && table == old(table)
      ensures enabled ==>
        var (after, out) := Add(decoder.value, groupTimeout, old(table), pkt, isFEC, groupNum, index, now);
        table == after && toRelease == out.release && error == out.error
    {
      if !enabled {
        return [pkt], NoError;
      }
      var e := decoder.value;
      var g := Locate(groupNum, now);
      if index < 0 || index >= e.n {
        return [], BadIndex;
      }
      if isFEC && index < e.k {
        return [], ParityIndexTooLow;
      }
      if !isFEC && index >= e.k {
        return [], DataIndexTooHigh;
      }
      if g.received[index] {
        return [], NoError;
      }
      PutTwice(old(table), groupNum, g.Value(), Step(e, groupTimeout, Lookup(old(table), groupNum), pkt, isFEC, index, now).group);
      toRelease, error := Accept(g, pkt, isFEC, index);
    }

    /** The part of `AddPacket` behind the index checks: `g` is the packet's group. */
    method Accept(g: GroupState, pkt: Bytes, isFEC: bool, index: nat) returns (toRelease: seq<Bytes>, error: Error)
      requires Valid() && enabled && g.groupNum in groups && groups[g.groupNum] == g
      requires index < g.n && isFEC == (index >= g.k) && !g.received[index]
      modifies this, g
      ensures Valid() && (groups == old(groups) || groups == old(groups) - {g.groupNum})
      ensures var out := Settle(decoder.value, Buffer(old(table[g.groupNum]), pkt, isFEC, index), if isFEC then [] else [pkt]);
        table == Put(old(table), g.groupNum, out.group) && toRelease == out.release && error == out.error
    {
      assert forall num :: num in groups && num != g.groupNum ==> groups[num] != g;
      g.BufferPacket(pkt, isFEC, index);
      var done;
      toRelease, error, done := g.Deliver(decoder.value, if isFEC then [] else [pkt]);
      Finish(g, done);
    }

    /** Forget a finished group; otherwise note its new value. */
    method Finish(g: GroupState, done: bool)
      requires enabled && decoder.Some? && WellFormed(decoder.value) && TableShape(decoder.value, table)
      requires groups.Keys == table.Keys && g.groupNum in groups && groups[g.groupNum] == g
      requires forall num :: num in groups && num != g.groupNum ==> Entry(groups[num], num)
      requires g.k == decoder.value.k && g.n == decoder.value.n && (!done ==> Shape(decoder.value, g.Value()))
      modifies this
      ensures Valid()
      ensures if done then table == old(table) - {g.groupNum} && groups == old(groups) - {g.groupNum}
        else table == old(table)[g.groupNum := g.Value()] && groups == old(groups)
    {
      if done {
        groups, table := groups - {g.groupNum}, table - {g.groupNum};
      } else {
        table := table[g.groupNum := g.Value()];
      }
    }

    /** Drop every group older than the timeout. */
    method CleanUpTimeouts(now: int)
      requires Valid()
      modifies this
      ensures Valid() && groups.Values <= old(groups.Values)
      ensures table == if enabled then Purge(old(table), groupTimeout, now) else old(table)
    {
      if !enabled {
        return;
      }
      var todo := groups.Keys;
      ghost var dropped := {};
      while todo != {}
        invariant Valid() && groups == old(groups) - dropped && table == old(table) - dropped
        invariant todo !! dropped && todo <= old(table.Keys)
        invariant OnlyStale(old(table), groupTimeout, now, old(table.Keys) - todo, dropped)
        decreases todo
      {
        var num :| num in todo;
        OnlyStaleStep(old(table), groupTimeout, now, todo, dropped, num);
        todo := todo - {num};
        DropIfStale(num, now);
        if num !in table { dropped := dropped + {num}; }
      }
      PurgeIs(old(table), groupTimeout, now, dropped);
    }
  }
}
