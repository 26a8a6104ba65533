/** What happens when a group number comes round again: which packets are decoded
    with which, over every run, told by the events alone. */
module Wraparound {
  import opened Words
  import opened Wrappers
  import opened ReedSolomon
  import opened FecGroup
  import opened FecSource
  import opened FecManager
  import opened SenderLog
  import opened Receiver
  import opened EndToEnd
  import opened Conservation
  import RO = ReleaseOrder
  import W = Sender

  // ---- A slot whose packets may come from different groups -------------------

  /** For each index received, the data of the group its packet came from. */
  type Source = map<nat, seq<Bytes>>

  ghost predicate Sources(e: Engine, src: Source) {
    forall j :: j in src ==> IsGroup(e, src[j]) && Available(e, src[j], j)
  }

  function Packets(e: Engine, src: Source): (r: seq<Bytes>)
    requires WellFormed(e) && Sources(e, src)
    ensures |r| == e.n
  {
    seq(e.n, j requires 0 <= j < e.n => if j in src then Shard(e, src[j], j) else [])
  }

  /** The group state holds exactly these packets. */
  ghost predicate HoldsFrom(e: Engine, src: Source, g: Group)
    requires WellFormed(e)
  {
    Shape(e, g) && Sources(e, src) && Seen(g) == src.Keys && g.packets == Packets(e, src)
  }

  /** What the engine is given: the packets padded to the longest, whatever their groups. */
  function Mixture(e: Engine, src: Source): (r: seq<Bytes>)
    requires WellFormed(e) && Sources(e, src)
  {
    var p := Packets(e, src);
    seq(e.n, j requires 0 <= j < e.n => PadShard(p[j], j in src, Longest(p)))
  }

  /** What is released of the engine's answer: the data not yet passed on. */
  function Rebuilt(e: Engine, src: Source): seq<Bytes>
    requires WellFormed(e) && Sources(e, src)
  {
    Unsent(e.rebuild(Mixture(e, src)), seq(e.k, j requires 0 <= j < e.k => j in src), 0)
  }

  /** A packet of index `i` is decoded with those received: it is new among
      them, it makes k, and data is missing. */
  predicate Decodes(k: nat, seen: set<nat>, i: nat) {
    i !in seen && |seen| + 1 >= k && !(Upto(k) <= seen + {i})
  }

  lemma ShardNotEmpty(e: Engine, data: seq<Bytes>, i: nat)
    requires WellFormed(e) && IsGroup(e, data) && Available(e, data, i)
    ensures i < e.n && Shard(e, data, i) != []
  {
    if i >= |data| { GroupLongest(e, data); }
  }

  lemma UnsentIsSome(shards: seq<Bytes>, sent: seq<bool>, j: nat)
    requires |sent| <= |shards| && exists x :: j <= x < |sent| && !sent[x]
    ensures Unsent(shards, sent, j) != []
    decreases |sent| - j
  {
    if !sent[j] {
    } else {
      UnsentIsSome(shards, sent, j + 1);
    }
  }

  lemma PacketsGrow(e: Engine, src: Source, data: seq<Bytes>, i: nat)
    requires WellFormed(e) && Sources(e, src) && IsGroup(e, data) && Available(e, data, i) && i < e.n
    ensures Sources(e, src[i := data])
    ensures Packets(e, src[i := data]) == Packets(e, src)[i := Shard(e, data, i)]
  {
  }

  lemma BufferSeen(e: Engine, g: Group, pkt: Bytes, i: nat)
    requires Consistent(e, g) && i < e.n && i !in Seen(g) && pkt != []
    ensures Shape(e, g) && !g.received[i]
    ensures var b := Buffer(g, pkt, i >= e.k, i); Buffered(e, b) && Seen(b) == Seen(g) + {i} && b.maxLen > 0
  {
    BufferKeeps(e, g, pkt, i);
  }

  lemma BufferHolds(e: Engine, src: Source, g: Group, data: seq<Bytes>, i: nat)
    requires WellFormed(e) && Consistent(e, g) && HoldsFrom(e, src, g)
    requires IsGroup(e, data) && Available(e, data, i) && i < e.n && i !in src
    ensures var b := Buffer(g, Shard(e, data, i), i >= e.k, i);
      Buffered(e, b) && HoldsFrom(e, src[i := data], b) && b.maxLen > 0
  {
    ShardNotEmpty(e, data, i);
    BufferSeen(e, g, Shard(e, data, i), i);
    PacketsGrow(e, src, data, i);
    assert src[i := data].Keys == src.Keys + {i};
  }

  lemma AlignIsMixture(e: Engine, src: Source, b: Group)
    requires WellFormed(e) && Buffered(e, b) && HoldsFrom(e, src, b)
    ensures Align(b).packets == Mixture(e, src)
  {
    var a, m := Align(b).packets, Mixture(e, src);
    forall j | 0 <= j < e.n
      ensures a[j] == m[j]
    {
      assert b.received[j] <==> j in Seen(b);
    }
  }

  lemma SentIsHeld(e: Engine, src: Source, b: Group)
    requires WellFormed(e) && Buffered(e, b) && HoldsFrom(e, src, b)
    ensures b.sent == seq(e.k, j requires 0 <= j < e.k => j in src)
    ensures AllSent(b) <==> Upto(e.k) <= src.Keys
  {
    AllSentIff(e, b);
    forall j | 0 <= j < e.k
      ensures b.sent[j] <==> j in src
    {
      assert b.received[j] <==> j in Seen(b);
    }
  }

  lemma RebuiltIsSome(e: Engine, src: Source)
    requires WellFormed(e) && Sources(e, src) && !(Upto(e.k) <= src.Keys)
    ensures Rebuilt(e, src) != []
  {
    var sent := seq(e.k, j requires 0 <= j < e.k => j in src);
    var x :| x in Upto(e.k) && x !in src.Keys;
    assert !sent[x];
    UnsentIsSome(e.rebuild(Mixture(e, src)), sent, 0);
  }

  lemma SettleHeld(e: Engine, src: Source, b: Group, passed: seq<Bytes>)
    requires WellFormed(e) && Buffered(e, b) && HoldsFrom(e, src, b) && b.maxLen > 0
    ensures Settle(e, b, passed) ==
      if Upto(e.k) <= src.Keys then Outcome(None, passed, NoError)
      else if |src.Keys| < e.k then Outcome(Some(b), passed, NoError)
      else Outcome(None, passed + Rebuilt(e, src), NoError)
  {
    SentIsHeld(e, src, b);
    AlignIsMixture(e, src, b);
    if b.recvCount >= e.k { AlignedReconstruct(e, b); }
  }

  /** Settling a slot whose newest index is `i`. */
  lemma SettleNewest(e: Engine, seen: set<nat>, i: nat, grown: Source, b: Group, passed: seq<Bytes>)
    requires WellFormed(e) && Buffered(e, b) && HoldsFrom(e, grown, b) && b.maxLen > 0
    requires i !in seen && grown.Keys == seen + {i}
    ensures var out := Settle(e, b, passed);
      && out.error == NoError
      && out.release == passed + (if Decodes(e.k, seen, i) then Rebuilt(e, grown) else [])
      && out.group == if |seen| + 1 >= e.k then None else Some(b)
    ensures Decodes(e.k, seen, i) ==> Rebuilt(e, grown) != []
  {
    assert |grown.Keys| == |seen| + 1;
    SettleHeld(e, grown, b, passed);
    TooFewForAll(e.k, grown.Keys);
    if !(Upto(e.k) <= grown.Keys) { RebuiltIsSome(e, grown); }
    assert passed + [] == passed;
  }

  /** What a new index makes of the slot. */
  lemma SlotTakes(e: Engine, src: Source, g: Group, data: seq<Bytes>, i: nat, passed: seq<Bytes>)
    requires WellFormed(e) && Consistent(e, g) && HoldsFrom(e, src, g)
    requires IsGroup(e, data) && Available(e, data, i) && i < e.n && i !in src
    ensures Sources(e, src[i := data])
    ensures var out := Settle(e, Buffer(g, Shard(e, data, i), i >= e.k, i), passed);
      && out.error == NoError
      && out.release == passed + (if Decodes(e.k, src.Keys, i) then Rebuilt(e, src[i := data]) else [])
      && (|src.Keys| + 1 >= e.k ==> out.group.None?)
      && (|src.Keys| + 1 < e.k ==> out.group.Some? && HoldsFrom(e, src[i := data], out.group.value)
                                   && out.group.value.createdAt == g.createdAt)
    ensures Decodes(e.k, src.Keys, i) ==> Rebuilt(e, src[i := data]) != []
  {
    BufferHolds(e, src, g, data, i);
    assert src[i := data].Keys == src.Keys + {i};
    SettleNewest(e, src.Keys, i, src[i := data], Buffer(g, Shard(e, data, i), i >= e.k, i), passed);
  }

  /** One sender packet put into a slot that may hold packets of any groups.
      Exactly if it decodes, more than the packet is released, and that is
      rebuilt from all the slot holds. An index already taken swallows the
      packet. Otherwise the packet joins the slot, unless all data is now out. */
  lemma {:induction false} SlotIff(e: Engine, timeout: int, og: Option<Group>, src: Source, data: seq<Bytes>, i: nat, now: int)
    requires WellFormed(e) && IsGroup(e, data) && Available(e, data, i) && (og.Some? ==> Shape(e, og.value))
    requires var g := Current(e, timeout, og, now); Consistent(e, g) && HoldsFrom(e, src, g)
    ensures i < e.n && Sources(e, src[i := data])
    ensures var g := Current(e, timeout, og, now);
      var pkt := Shard(e, data, i); var passed := if i < e.k then [pkt] else [];
      var out := Step(e, timeout, og, pkt, i >= e.k, i, now);
      && out.error == NoError
      && (i in src ==> out == Outcome(Some(g), [], NoError))
      && (i !in src ==> out.release == passed + if Decodes(e.k, src.Keys, i) then Rebuilt(e, src[i := data]) else [])
      && (|out.release| > |passed| <==> Decodes(e.k, src.Keys, i))
      && (i !in src && |src.Keys| + 1 >= e.k ==> out.group.None?)
      && (i !in src && |src.Keys| + 1 < e.k ==>
            out.group.Some? && HoldsFrom(e, src[i := data], out.group.value) && out.group.value.createdAt == g.createdAt)
  {
    var g := Current(e, timeout, og, now);
    ShardNotEmpty(e, data, i);
    PacketsGrow(e, src, data, i);
    assert g.received[i] <==> i in Seen(g);
    if i !in src {
      SlotTakes(e, src, g, data, i, if i < e.k then [Shard(e, data, i)] else []);
    }
  }

  lemma TooFewForAll(k: nat, keys: set<nat>)
    ensures |keys| < k ==> !(Upto(k) <= keys)
  {
    if Upto(k) <= keys { SubsetSize(Upto(k), keys); }
  }

  // ---- The account of every slot, from the events alone ----------------------

  /** Which group each index held came from, and when the slot was begun. */
  datatype Slot = Slot(held: map<nat, nat>, since: int)

  type Account = map<uint16, Slot>

  /** The slot a packet arriving now finds: a stale one is replaced. */
  function Found(timeout: int, os: Option<Slot>, now: int): Slot {
    if os.Some? && now - os.value.since <= timeout then os.value else Slot(map[], now)
  }

  /** The slot after packet `i` of group `a`; with the k-th index it is given up. */
  function Filled(k: nat, sl: Slot, i: nat, a: nat): Option<Slot> {
    if i in sl.held then Some(sl)
    else if |sl.held.Keys| + 1 >= k then None
    else Some(Slot(sl.held[i := a], sl.since))
  }

  function SlotOf(acc: Account, num: uint16): Option<Slot> {
    if num in acc then Some(acc[num]) else None
  }

  function AccountStep(s: Setting, acc: Account, ev: Event): Account
    requires s.config.engine.Some? && (ev.Arrive? ==> ev.pos < |s.log.wire|)
  {
    match ev
    case Tick(now) => Unexpired(acc, s.timeout, now)
    case Arrive(pos, now) =>
      var d := s.log.wire[pos];
      var filled := Filled(E(s).k, Found(s.timeout, SlotOf(acc, d.group % 2048), now), d.index, d.group);
      if filled.Some? then acc[d.group % 2048 := filled.value] else acc - {d.group % 2048}
  }

  function AccountAfter(s: Setting, evs: seq<Event>): Account
    requires s.config.engine.Some? && OnWire(s, evs)
  {
    if evs == [] then map[] else AccountStep(s, AccountAfter(s, evs[..|evs| - 1]), evs[|evs| - 1])
  }

  /** The groups named are in the log, and have made the packets held of them. */
  ghost predicate Known(s: Setting, held: map<nat, nat>)
    requires Coded(s)
  {
    forall j :: j in held ==>
      held[j] <= |s.log.complete| && IsGroup(E(s), Data(s, held[j])) && Available(E(s), Data(s, held[j]), j)
  }

  function SourceOf(s: Setting, held: map<nat, nat>): (src: Source)
    requires Coded(s) && Known(s, held)
    ensures src.Keys == held.Keys && Sources(E(s), src)
  {
    map j | j in held :: Data(s, held[j])
  }

  ghost predicate Matches(s: Setting, g: Group, sl: Slot)
    requires Coded(s)
  {
    Known(s, sl.held) && HoldsFrom(E(s), SourceOf(s, sl.held), g) && g.createdAt == sl.since
  }

  /** The table is what the account says. */
  ghost predicate Follows(s: Setting, t: Table, acc: Account)
    requires Coded(s)
  {
    TableConsistent(E(s), t) && t.Keys == acc.Keys && forall num :: num in t ==> Matches(s, t[num], acc[num])
  }

  lemma FreshMatches(s: Setting, now: int)
    requires Coded(s)
    ensures Consistent(E(s), Fresh(E(s), now)) && Matches(s, Fresh(E(s), now), Slot(map[], now))
  {
    FreshConsistent(E(s), now);
    assert Fresh(E(s), now).packets == Packets(E(s), SourceOf(s, map[]));
  }

  /** The state and the slot a packet finds. */
  lemma FoundMatches(s: Setting, t: Table, acc: Account, num: uint16, now: int)
    requires Coded(s) && Follows(s, t, acc)
    ensures var g := Current(E(s), s.timeout, Lookup(t, num), now);
      Consistent(E(s), g) && Matches(s, g, Found(s.timeout, SlotOf(acc, num), now))
  {
    if num in t && !Stale(t[num], s.timeout, now) {
      assert Matches(s, t[num], acc[num]);
      assert Found(s.timeout, SlotOf(acc, num), now) == acc[num];
    } else {
      FreshMatches(s, now);
      assert num in t ==> Matches(s, t[num], acc[num]);
      assert Found(s.timeout, SlotOf(acc, num), now) == Slot(map[], now);
    }
  }

  lemma SourceGrows(s: Setting, held: map<nat, nat>, i: nat, a: nat)
    requires Coded(s) && Known(s, held) && a <= |s.log.complete| && IsGroup(E(s), Data(s, a)) && Available(E(s), Data(s, a), i)
    ensures Known(s, held[i := a]) && SourceOf(s, held[i := a]) == SourceOf(s, held)[i := Data(s, a)]
  {
  }

  /** One packet of group `a`: the decoder's step and the slot's agree. */
  lemma StepFollows(s: Setting, og: Option<Group>, sl: Slot, a: nat, i: nat, now: int)
    requires Coded(s) && (og.Some? ==> Shape(E(s), og.value))
    requires a <= |s.log.complete| && IsGroup(E(s), Data(s, a)) && Available(E(s), Data(s, a), i)
    requires var g := Current(E(s), s.timeout, og, now); Consistent(E(s), g) && Matches(s, g, sl)
    ensures var out := Step(E(s), s.timeout, og, Shard(E(s), Data(s, a), i), i >= E(s).k, i, now);
      var filled := Filled(E(s).k, sl, i, a);
      (out.group.Some? <==> filled.Some?) && (out.group.Some? ==> Matches(s, out.group.value, filled.value))
  {
    SourceGrows(s, sl.held, i, a);
    SlotIff(E(s), s.timeout, og, SourceOf(s, sl.held), Data(s, a), i, now);
  }

  /** What an arrival does to the table is what it does to the account. */
  lemma ArrivalFollows(s: Setting, t: Table, acc: Account, pos: nat, now: int)
    requires Coded(s) && Follows(s, t, acc) && pos < |s.log.wire| && Genuine(s, pos) && TableShape(E(s), t)
    requires DatagramOk(E(s), Data(s, s.log.wire[pos].group), s.log.wire[pos])
    ensures Follows(s, React(s, t, Arrive(pos, now)).0, AccountStep(s, acc, Arrive(pos, now)))
  {
    var d := s.log.wire[pos];
    var num: uint16 := d.group % 2048;
    var sl := Found(s.timeout, SlotOf(acc, num), now);
    var pkt := Shard(E(s), Data(s, d.group), d.index);
    ReactIsAdd(s, t, pos, now);
    FoundMatches(s, t, acc, num, now);
    StepFollows(s, Lookup(t, num), sl, d.group, d.index, now);
    AddKeepsTable(E(s), s.timeout, t, pkt, d.index >= E(s).k, num, d.index, now);
    var out := Step(E(s), s.timeout, Lookup(t, num), pkt, d.index >= E(s).k, d.index, now);
    PutFollows(s, t, acc, num, out.group, Filled(E(s).k, sl, d.index, d.group));
  }

  lemma PutFollows(s: Setting, t: Table, acc: Account, num: uint16, og: Option<Group>, os: Option<Slot>)
    requires Coded(s) && Follows(s, t, acc) && TableConsistent(E(s), Put(t, num, og))
    requires (og.Some? <==> os.Some?) && (og.Some? ==> Matches(s, og.value, os.value))
    ensures Follows(s, Put(t, num, og), if os.Some? then acc[num := os.value] else acc - {num})
  {
    PutEntries(t, num, og);
    PutEntries(acc, num, os);
  }

  lemma PutEntries<V>(m: map<uint16, V>, num: uint16, v: Option<V>)
    ensures var r := if v.Some? then m[num := v.value] else m - {num};
      && r.Keys == (if v.Some? then m.Keys + {num} else m.Keys - {num})
      && (v.Some? ==> r[num] == v.value)
      && forall x :: x in r && x != num ==> x in m && r[x] == m[x]
  {
  }

  /** Over every run of events, spaced or not, ordered or not: the receiver's
      table holds exactly the packets the account names, from the groups it names. */
  lemma {:induction false} TableFollows(s: Setting, evs: seq<Event>)
    requires Sound(s) && OnWire(s, evs)
    ensures Follows(s, TableAfter(s, evs), AccountAfter(s, evs))
  {
    if evs == [] {
    } else {
      var front, ev := evs[..|evs| - 1], evs[|evs| - 1];
      TableFollows(s, front);
      EventFollows(s, TableAfter(s, front), AccountAfter(s, front), ev);
    }
  }

  lemma EventFollows(s: Setting, t: Table, acc: Account, ev: Event)
    requires Sound(s) && Follows(s, t, acc) && (ev.Arrive? ==> ev.pos < |s.log.wire|)
    ensures TableShape(E(s), t) && Follows(s, React(s, t, ev).0, AccountStep(s, acc, ev))
  {
    if ev.Arrive? {
      WireDatagram(s, ev.pos);
      ArrivalFollows(s, t, acc, ev.pos, ev.now);
    } else {
      TickFollows(s, t, acc, ev.now);
    }
  }

  lemma TickFollows(s: Setting, t: Table, acc: Account, now: int)
    requires Coded(s) && Follows(s, t, acc)
    ensures Follows(s, Purge(t, s.timeout, now), AccountStep(s, acc, Tick(now)))
  {
    PurgeKeepsTable(E(s), s.timeout, t, now);
    SinceIsCreated(s, t, acc);
    TickEntries(t, acc, s.timeout, now);
  }

  lemma SinceIsCreated(s: Setting, t: Table, acc: Account)
    requires Coded(s) && Follows(s, t, acc)
    ensures forall num :: num in t ==> num in acc && t[num].createdAt == acc[num].since
  {
    forall num | num in t
      ensures num in acc && t[num].createdAt == acc[num].since
    {
      assert Matches(s, t[num], acc[num]);
    }
  }

  function Unexpired(acc: Account, timeout: int, now: int): Account {
    map num | num in acc && now - acc[num].since <= timeout :: acc[num]
  }

  lemma TickEntries(t: Table, acc: Account, timeout: int, now: int)
    requires t.Keys == acc.Keys && forall num :: num in t ==> t[num].createdAt == acc[num].since
    ensures var t', acc' := Purge(t, timeout, now), Unexpired(acc, timeout, now);
      t'.Keys == acc'.Keys && forall num :: num in t' ==> num in t && t'[num] == t[num] && acc'[num] == acc[num]
  {
  }

  // ---- Which packets are decoded with which ----------------------------------

  /** The slot that packet `pos` finds after the events `front`. */
  function SlotFound(s: Setting, front: seq<Event>, pos: nat, now: int): Slot
    requires s.config.engine.Some? && OnWire(s, front) && pos < |s.log.wire|
  {
    Found(s.timeout, SlotOf(AccountAfter(s, front), s.log.wire[pos].group % 2048), now)
  }

  /** The groups whose packets the engine is given when packet `pos` arrives. */
  function DecodedGroups(s: Setting, front: seq<Event>, pos: nat, now: int): set<nat>
    requires s.config.engine.Some? && OnWire(s, front) && pos < |s.log.wire|
  {
    var d := s.log.wire[pos];
    var held := SlotFound(s, front, pos, now).held;
    if Decodes(E(s).k, held.Keys, d.index) then held.Values + {d.group} else {}
  }

  /** The decoder's outcome for packet `pos`. */
  function OutcomeOf(s: Setting, front: seq<Event>, pos: nat, now: int): Outcome
    requires Coded(s) && OnWire(s, front) && pos < |s.log.wire| && Genuine(s, pos)
  {
    var d := s.log.wire[pos];
    Step(E(s), s.timeout, Lookup(TableAfter(s, front), d.group % 2048), Shard(E(s), Data(s, d.group), d.index),
         d.index >= E(s).k, d.index, now)
  }

  /** What packet `i` of group `a` makes a slot release that holds these packets. */
  ghost predicate SlotReleases(s: Setting, held: map<nat, nat>, a: nat, i: nat, decoded: bool, release: seq<Bytes>)
    requires Coded(s) && a <= |s.log.complete| && IsGroup(E(s), Data(s, a)) && Available(E(s), Data(s, a), i)
    requires Known(s, held[i := a])
  {
    var passed := if i < E(s).k then [Shard(E(s), Data(s, a), i)] else [];
    && (|release| > |passed| <==> decoded)
    && (i in held ==> release == [])
    && (i !in held && !decoded ==> release == passed)
    && (decoded ==> release == passed + Rebuilt(E(s), SourceOf(s, held[i := a])))
  }

  /** Every arrival of every run, told by the events: exactly if it decodes,
      more than the packet is released, rebuilt from precisely the packets the
      slot holds, of whatever groups; an index already taken swallows the packet. */
  lemma {:induction false} ArrivalDecodes(s: Setting, front: seq<Event>, pos: nat, now: int)
    requires Sound(s) && OnWire(s, front) && pos < |s.log.wire|
    ensures Genuine(s, pos) && Known(s, SlotFound(s, front, pos, now).held[s.log.wire[pos].index := s.log.wire[pos].group])
    ensures var d := s.log.wire[pos]; var out := OutcomeOf(s, front, pos, now);
      && SlotReleases(s, SlotFound(s, front, pos, now).held, d.group, d.index, DecodedGroups(s, front, pos, now) != {}, out.release)
      && React(s, TableAfter(s, front), Arrive(pos, now)).1 == EmitAll(s.config.aead, out.release)
  {
    var d, t := s.log.wire[pos], TableAfter(s, front);
    WireDatagram(s, pos);
    TableFollows(s, front);
    ReactIsAdd(s, t, pos, now);
    SlotAt(s, t, AccountAfter(s, front), d.group, d.index, now);
  }

  lemma SlotAt(s: Setting, t: Table, acc: Account, a: nat, i: nat, now: int)
    requires Coded(s) && Follows(s, t, acc) && TableShape(E(s), t)
    requires a <= |s.log.complete| && IsGroup(E(s), Data(s, a)) && Available(E(s), Data(s, a), i)
    ensures var held := Found(s.timeout, SlotOf(acc, a % 2048), now).held;
      && Known(s, held[i := a])
      && SlotReleases(s, held, a, i, Decodes(E(s).k, held.Keys, i),
           Step(E(s), s.timeout, Lookup(t, a % 2048), Shard(E(s), Data(s, a), i), i >= E(s).k, i, now).release)
  {
    FoundMatches(s, t, acc, a % 2048, now);
    StepDecodes(s, Lookup(t, a % 2048), Found(s.timeout, SlotOf(acc, a % 2048), now), a, i, now);
  }

  lemma StepDecodes(s: Setting, og: Option<Group>, sl: Slot, a: nat, i: nat, now: int)
    requires Coded(s) && (og.Some? ==> Shape(E(s), og.value))
    requires a <= |s.log.complete| && IsGroup(E(s), Data(s, a)) && Available(E(s), Data(s, a), i)
    requires var g := Current(E(s), s.timeout, og, now); Consistent(E(s), g) && Matches(s, g, sl)
    ensures Known(s, sl.held[i := a])
    ensures SlotReleases(s, sl.held, a, i, Decodes(E(s).k, sl.held.Keys, i),
      Step(E(s), s.timeout, og, Shard(E(s), Data(s, a), i), i >= E(s).k, i, now).release)
  {
    SourceGrows(s, sl.held, i, a);
    SlotIff(E(s), s.timeout, og, SourceOf(s, sl.held), Data(s, a), i, now);
  }

  /** The arrival is decoded with packets of another group. */
  predicate Crosses(s: Setting, front: seq<Event>, pos: nat, now: int)
    requires s.config.engine.Some? && OnWire(s, front) && pos < |s.log.wire|
  {
    var d := s.log.wire[pos];
    var held := SlotFound(s, front, pos, now).held;
    Decodes(E(s).k, held.Keys, d.index) && exists j :: j in held && held[j] != d.group
  }

  /** A packet is decoded with one of another group exactly when its slot is not
      stale, its index is new there, it makes k with data missing, and some
      index held came from another group. */
  lemma {:induction false} CrossesIff(s: Setting, front: seq<Event>, pos: nat, now: int)
    requires Sound(s) && OnWire(s, front) && pos < |s.log.wire|
    ensures var a := s.log.wire[pos].group; var i := s.log.wire[pos].index; var acc := AccountAfter(s, front);
      (exists b :: b in DecodedGroups(s, front, pos, now) && b != a) <==>
        && a % 2048 in acc && now - acc[a % 2048].since <= s.timeout
        && i !in acc[a % 2048].held && |acc[a % 2048].held.Keys| + 1 >= E(s).k
        && !(Upto(E(s).k) <= acc[a % 2048].held.Keys + {i})
        && exists j :: j in acc[a % 2048].held && acc[a % 2048].held[j] != a
    ensures Crosses(s, front, pos, now) <==>
      exists b :: b in DecodedGroups(s, front, pos, now) && b != s.log.wire[pos].group
  {
    var a := s.log.wire[pos].group;
    var held := SlotFound(s, front, pos, now).held;
    if j :| j in held && held[j] != a {
      assert held[j] in held.Values;
    }
  }

  lemma AllOwnHoldsOnly(s: Setting, held: map<nat, nat>, a: nat, g: Group)
    requires Coded(s) && Known(s, held) && HoldsFrom(E(s), SourceOf(s, held), g)
    requires a <= |s.log.complete| && IsGroup(E(s), Data(s, a)) && forall j :: j in held ==> held[j] == a
    ensures HoldsOnly(E(s), Data(s, a), g)
  {
    forall j | j in Seen(g)
      ensures Available(E(s), Data(s, a), j) && g.packets[j] == Shard(E(s), Data(s, a), j)
    {
      assert j in held && held[j] == a;
    }
  }

  /** A packet decoded with its own group only. */
  lemma OwnDecodeCopies(s: Setting, og: Option<Group>, held: map<nat, nat>, a: nat, i: nat, now: int)
    requires Coded(s) && (og.Some? ==> Shape(E(s), og.value)) && Known(s, held)
    requires a <= |s.log.complete| && IsGroup(E(s), Data(s, a)) && Available(E(s), Data(s, a), i)
    requires var g := Current(E(s), s.timeout, og, now); Consistent(E(s), g) && HoldsFrom(E(s), SourceOf(s, held), g)
    requires forall j :: j in held ==> held[j] == a
    ensures Copies(Step(E(s), s.timeout, og, Shard(E(s), Data(s, a), i), i >= E(s).k, i, now).release, Data(s, a),
                   RO.Releases(E(s).k, Seen(Current(E(s), s.timeout, og, now)), i))
  {
    AllOwnHoldsOnly(s, held, a, Current(E(s), s.timeout, og, now));
    StepRefines(E(s), s.timeout, og, Data(s, a), i, now);
  }

  lemma PassedCopies(e: Engine, data: seq<Bytes>, i: nat) returns (indices: seq<nat>)
    requires WellFormed(e) && IsGroup(e, data) && Available(e, data, i)
    ensures Copies(if i < e.k then [Shard(e, data, i)] else [], data, indices)
  {
    indices := if i < e.k then [i] else [];
    if i < e.k { assert IsCopy(data[i], data, i); }
  }

  /** What an uncrossed packet releases are copies of its own group's data. */
  lemma UncrossedCopies(s: Setting, front: seq<Event>, pos: nat, now: int) returns (indices: seq<nat>)
    requires Sound(s) && OnWire(s, front) && pos < |s.log.wire| && !Crosses(s, front, pos, now)
    ensures Genuine(s, pos)
    ensures Copies(OutcomeOf(s, front, pos, now).release, Data(s, s.log.wire[pos].group), indices)
  {
    var d, t, sl := s.log.wire[pos], TableAfter(s, front), SlotFound(s, front, pos, now);
    ArrivalDecodes(s, front, pos, now);
    if DecodedGroups(s, front, pos, now) != {} {
      TableFollows(s, front);
      FoundMatches(s, t, AccountAfter(s, front), d.group % 2048, now);
      OwnDecodeCopies(s, Lookup(t, d.group % 2048), sl.held, d.group, d.index, now);
      indices := RO.Releases(E(s).k, Seen(Current(E(s), s.timeout, Lookup(t, d.group % 2048), now)), d.index);
    } else if d.index in sl.held {
      indices := [];
    } else {
      indices := PassedCopies(E(s), Data(s, d.group), d.index);
    }
  }

  /** Whatever an uncrossed packet makes the receiver emit is a payload of its own group. */
  lemma {:induction false} UncrossedIsOwn(s: Setting, front: seq<Event>, pos: nat, now: int, p: Bytes)
    requires Sound(s) && OnWire(s, front) && pos < |s.log.wire| && !Crosses(s, front, pos, now)
    requires forall a :: 0 <= a <= |s.log.complete| ==> Untruncated(GroupAt(s.log, a))
    requires p in React(s, TableAfter(s, front), Arrive(pos, now)).1
    ensures s.log.wire[pos].group <= |s.log.complete| && p in GroupAt(s.log, s.log.wire[pos].group).payloads
  {
    var a := s.log.wire[pos].group;
    ArrivalDecodes(s, front, pos, now);
    var indices := UncrossedCopies(s, front, pos, now);
    assert GroupOk(s.config, GroupAt(s.log, a));
    EmitCopies(s.config, GroupAt(s.log, a), OutcomeOf(s, front, pos, now).release, indices);
    DeliverContains(GroupAt(s.log, a).payloads, indices, p);
  }

  /** No arrival of the run is decoded with packets of another group. */
  ghost predicate NeverCrosses(s: Setting, evs: seq<Event>)
    requires s.config.engine.Some? && OnWire(s, evs)
  {
    forall m :: 0 <= m < |evs| && evs[m].Arrive? ==> !CrossesAt(s, evs, m)
  }

  predicate CrossesAt(s: Setting, evs: seq<Event>, m: nat)
    requires s.config.engine.Some? && OnWire(s, evs) && m < |evs| && evs[m].Arrive?
  {
    Crosses(s, evs[..m], evs[m].pos, evs[m].now)
  }

  lemma UncrossedEvent(c: W.Config, items: seq<W.Item>, timeout: int, evs: seq<Event>, p: Bytes)
    requires GoodRun(c, items) && evs != []
    requires var s := Setting(c, SendAll(c, items), timeout);
      OnWire(s, evs) && NeverCrosses(s, evs) && p in Emitted(s, evs)
    ensures exists i :: 0 <= i < |items| && items[i].payload == p
  {
    var s := Setting(c, SendAll(c, items), timeout);
    var front, ev := evs[..|evs| - 1], evs[|evs| - 1];
    GoodRunIsSound(c, items, timeout);
    assert !CrossesAt(s, evs, |evs| - 1);
    WireDatagram(s, ev.pos);
    UncrossedIsOwn(s, front, ev.pos, ev.now, p);
    LogIsDequeued(c, items);
    LoggedContains(s.log, GroupOfEvent(s, ev), p);
    var i := SealedFrom(c, items, p);
  }

  lemma NeverCrossesFront(s: Setting, evs: seq<Event>)
    requires s.config.engine.Some? && OnWire(s, evs) && evs != [] && NeverCrosses(s, evs)
    ensures OnWire(s, evs[..|evs| - 1]) && NeverCrosses(s, evs[..|evs| - 1])
  {
    var front := evs[..|evs| - 1];
    forall m | 0 <= m < |front| && front[m].Arrive?
      ensures !CrossesAt(s, front, m)
    {
      assert front[..m] == evs[..m] && front[m] == evs[m];
      assert !CrossesAt(s, evs, m);
    }
  }

  /** Soundness without any spacing: in a run in which no arrival is decoded with
      packets of another group, everything emitted is a payload the worker dequeued. */
  lemma {:induction false} UncrossedRunIsSound(c: W.Config, items: seq<W.Item>, timeout: int, evs: seq<Event>, p: Bytes)
    requires GoodRun(c, items)
    requires var s := Setting(c, SendAll(c, items), timeout);
      OnWire(s, evs) && NeverCrosses(s, evs) && p in EmittedAll(s, evs)
    ensures exists i :: 0 <= i < |items| && items[i].payload == p
  {
    var s := Setting(c, SendAll(c, items), timeout);
    if evs == [] {
    } else if p in Emitted(s, evs) {
      UncrossedEvent(c, items, timeout, evs, p);
    } else {
      NeverCrossesFront(s, evs);
      UncrossedRunIsSound(c, items, timeout, evs[..|evs| - 1], p);
    }
  }

  // ---- Spaced runs never cross -----------------------------------------------

  /** Index `j` of the slot came with event `i`, not before the slot was begun. */
  ghost predicate CameWith(s: Setting, evs: seq<Event>, num: nat, sl: Slot, j: nat, i: nat)
    requires OnWire(s, evs)
  {
    && j in sl.held && i < |evs| && evs[i].Arrive?
    && GroupOfEvent(s, evs[i]) == sl.held[j] && sl.held[j] % 2048 == num && evs[i].now >= sl.since
  }

  ghost predicate Dated(s: Setting, evs: seq<Event>, num: nat, sl: Slot)
    requires OnWire(s, evs)
  {
    sl.held.Keys != {} && forall j :: j in sl.held ==> exists i: nat :: CameWith(s, evs, num, sl, j, i)
  }

  lemma DatedLater(s: Setting, evs: seq<Event>, ev: Event, num: nat, sl: Slot)
    requires OnWire(s, evs) && OnWire(s, evs + [ev]) && Dated(s, evs, num, sl)
    ensures Dated(s, evs + [ev], num, sl)
  {
    forall j | j in sl.held
      ensures exists i: nat :: CameWith(s, evs + [ev], num, sl, j, i)
    {
      var i: nat :| CameWith(s, evs, num, sl, j, i);
      assert (evs + [ev])[i] == evs[i];
      assert CameWith(s, evs + [ev], num, sl, j, i);
    }
  }

  lemma FilledIsDated(s: Setting, front: seq<Event>, pos: nat, now: int, sl: Slot)
    requires s.config.engine.Some? && Ordered(front + [Arrive(pos, now)]) && OnWire(s, front) && pos < |s.log.wire|
    requires OnWire(s, front + [Arrive(pos, now)])
    requires Dated(s, front, s.log.wire[pos].group % 2048, sl) || sl == Slot(map[], now)
    ensures var d := s.log.wire[pos]; var filled := Filled(E(s).k, sl, d.index, d.group);
      filled.Some? ==> Dated(s, front + [Arrive(pos, now)], d.group % 2048, filled.value)
  {
    var d, evs := s.log.wire[pos], front + [Arrive(pos, now)];
    var filled := Filled(E(s).k, sl, d.index, d.group);
    if sl != Slot(map[], now) { DatedLater(s, front, Arrive(pos, now), d.group % 2048, sl); }
    if filled.Some? && d.index !in sl.held {
      SinceIsPast(s, front, pos, now, sl);
      forall j | j in filled.value.held
        ensures exists i: nat :: CameWith(s, evs, d.group % 2048, filled.value, j, i)
      {
        if j == d.index {
          assert evs[|front|] == Arrive(pos, now);
          assert CameWith(s, evs, d.group % 2048, filled.value, j, |front|);
        } else {
          var i: nat :| CameWith(s, evs, d.group % 2048, sl, j, i);
          assert CameWith(s, evs, d.group % 2048, filled.value, j, i);
        }
      }
      assert d.index in filled.value.held.Keys;
    }
  }

  lemma SinceIsPast(s: Setting, front: seq<Event>, pos: nat, now: int, sl: Slot)
    requires Ordered(front + [Arrive(pos, now)]) && OnWire(s, front) && pos < |s.log.wire|
    requires Dated(s, front, s.log.wire[pos].group % 2048, sl) || sl == Slot(map[], now)
    ensures sl.since <= now
  {
    if sl != Slot(map[], now) {
      var j :| j in sl.held;
      var i: nat :| CameWith(s, front, s.log.wire[pos].group % 2048, sl, j, i);
      var evs := front + [Arrive(pos, now)];
      assert evs[i] == front[i] && evs[|front|] == Arrive(pos, now);
    }
  }

  ghost predicate AllDated(s: Setting, evs: seq<Event>, acc: Account)
    requires OnWire(s, evs)
  {
    forall num :: num in acc ==> Dated(s, evs, num, acc[num])
  }

  lemma {:induction false} AccountIsDated(s: Setting, evs: seq<Event>)
    requires s.config.engine.Some? && OnWire(s, evs) && Ordered(evs)
    ensures AllDated(s, evs, AccountAfter(s, evs))
  {
    if evs == [] {
    } else {
      var front, ev := evs[..|evs| - 1], evs[|evs| - 1];
      assert evs == front + [ev];
      assert forall i :: 0 <= i < |front| ==> front[i] == evs[i];
      AccountIsDated(s, front);
      DatedStep(s, front, ev, AccountAfter(s, front));
    }
  }

  lemma DatedStep(s: Setting, front: seq<Event>, ev: Event, acc: Account)
    requires s.config.engine.Some? && OnWire(s, front) && OnWire(s, front + [ev]) && Ordered(front + [ev])
    requires AllDated(s, front, acc) && (ev.Arrive? ==> ev.pos < |s.log.wire|)
    ensures AllDated(s, front + [ev], AccountStep(s, acc, ev))
  {
    var acc' := AccountStep(s, acc, ev);
    if ev.Arrive? {
      var num := s.log.wire[ev.pos].group % 2048;
      FilledIsDated(s, front, ev.pos, ev.now, Found(s.timeout, SlotOf(acc, num), ev.now));
    }
    forall m | m in acc'
      ensures Dated(s, front + [ev], m, acc'[m])
    {
      if m in acc && acc'[m] == acc[m] { DatedLater(s, front, ev, m, acc[m]); }
    }
  }

  /** While groups with one number arrive more than the timeout apart, no arrival
      is decoded with packets of another group. */
  lemma {:induction false} SpacedNeverCrosses(s: Setting, evs: seq<Event>)
    requires s.config.engine.Some? && Channel(s, evs)
    ensures NeverCrosses(s, evs)
  {
    forall m | 0 <= m < |evs| && evs[m].Arrive?
      ensures !CrossesAt(s, evs, m)
    {
      SpacedNotCrossed(s, evs, m);
    }
  }

  lemma PrefixOrdered(s: Setting, evs: seq<Event>, m: nat)
    requires OnWire(s, evs) && Ordered(evs) && m <= |evs|
    ensures OnWire(s, evs[..m]) && Ordered(evs[..m])
  {
  }

  lemma SlotIsOwn(s: Setting, evs: seq<Event>, m: nat, sl: Slot)
    requires Channel(s, evs) && m < |evs| && evs[m].Arrive? && OnWire(s, evs[..m])
    requires Dated(s, evs[..m], GroupOfEvent(s, evs[m]) % 2048, sl) && evs[m].now - sl.since <= s.timeout
    ensures forall j :: j in sl.held ==> sl.held[j] == GroupOfEvent(s, evs[m])
  {
    forall j | j in sl.held
      ensures sl.held[j] == GroupOfEvent(s, evs[m])
    {
      var i: nat :| CameWith(s, evs[..m], GroupOfEvent(s, evs[m]) % 2048, sl, j, i);
      EarlierIsOwn(s, evs, m, sl, j, i);
    }
  }

  lemma SpacedNotCrossed(s: Setting, evs: seq<Event>, m: nat)
    requires s.config.engine.Some? && Channel(s, evs) && m < |evs| && evs[m].Arrive?
    ensures !CrossesAt(s, evs, m)
  {
    PrefixOrdered(s, evs, m);
    AccountIsDated(s, evs[..m]);
    var os := SlotOf(AccountAfter(s, evs[..m]), GroupOfEvent(s, evs[m]) % 2048);
    if os.Some? && evs[m].now - os.value.since <= s.timeout { SlotIsOwn(s, evs, m, os.value); }
  }

  lemma EarlierIsOwn(s: Setting, evs: seq<Event>, m: nat, sl: Slot, j: nat, i: nat)
    requires Channel(s, evs) && m < |evs| && evs[m].Arrive? && OnWire(s, evs[..m])
    requires evs[m].now - sl.since <= s.timeout && CameWith(s, evs[..m], GroupOfEvent(s, evs[m]) % 2048, sl, j, i)
    ensures sl.held[j] == GroupOfEvent(s, evs[m])
  {
    assert evs[..m][i] == evs[i];
  }
}
