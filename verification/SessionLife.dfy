/** The life of a session over whole runs: where it is made, what keeps it, who
    can end it. */
module SessionLife {
  import opened Words
  import opened Wrappers
  import C = Control
  import opened Sessions
  import opened Handler
  import opened Protocol

  // ---- When a session was last heard -------------------------------------------

  /** The right answer to a challenge, with a place for its session. */
  predicate Answers(c: Config, s: State, ev: Event)
    requires Enabled(s, ev)
  {
    && ev.Packet? && c.encryption && ev.from in s.pending
    && var p := s.pending[ev.from];
       && ev.now - p.createdAt <= 60_000_000_000
       && Proving(c, s, ev) == Some(c.mac(p.randA, c.derive(p.randA)))
       && (|s.table| < c.maxSessions || Addr(ev.from.ip, p.dataPort) in s.table)
  }

  /** The packet is a registration without encryption that counts. */
  predicate Registers(c: Config, s: State, ev: Event)
    requires Enabled(s, ev)
  {
    ev.Packet? && !c.encryption && Registering(c, s, ev).Some? && !TooSoon(s, ev)
  }

  predicate IsKeepAlive(c: Config, s: State, ev: Event)
    requires Enabled(s, ev)
  {
    ev.Packet? && Reading(c, s, ev).Some? && Reading(c, s, ev).value.kind == C.KEEP_ALIVE
  }

  predicate IsLeave(c: Config, s: State, ev: Event)
    requires Enabled(s, ev)
  {
    ev.Packet? && Reading(c, s, ev).Some? && Reading(c, s, ev).value.kind == C.LEAVE
  }

  /** The packet establishes the session at `a`, registers it again or keeps it alive. */
  predicate Hears(c: Config, s: State, ev: Event, a: Addr)
    requires Enabled(s, ev)
  {
    || (Registers(c, s, ev) &&
        if ev.second.Some? then ev.third == Some(a) else a == Addr(ev.from.ip, Registering(c, s, ev).value.dataPort))
    || (IsKeepAlive(c, s, ev) && ev.second == Some(a))
    || (Answers(c, s, ev) && a == Addr(ev.from.ip, s.pending[ev.from].dataPort))
  }

  /** The time of the last packet that made the receiver at `a` heard. */
  function LastHeard(c: Config, evs: seq<Event>, a: Addr): int
    requires Feasible(c, evs)
  {
    if evs == [] then 0
    else
      var front, ev := evs[..|evs| - 1], evs[|evs| - 1];
      if Hears(c, Run(c, front), ev, a) then ev.now else LastHeard(c, front, a)
  }

  /** What a step leaves of the entry at `a`: nothing, the same, the same heard
      now, or a new one. */
  ghost predicate EntryStep(c: Config, s: State, ev: Event, a: Addr)
    requires Enabled(s, ev)
  {
    var t := React(c, s, ev).0.table;
    a in t ==> if Hears(c, s, ev, a) then t[a].lastActive == ev.now else a in s.table && t[a] == s.table[a]
  }

  lemma RegisterEntry(c: Config, s: State, ev: Event, a: Addr)
    requires Enabled(s, ev) && |s.table| <= c.maxSessions && ev.Packet? && Registering(c, s, ev).Some?
    ensures EntryStep(c, s, ev, a)
  {
    if TooSoon(s, ev) {
      EarlyIsIgnored(c, s, ev);
    } else if c.encryption {
      RegistrationKeepsTable(c, s, ev);
    } else {
      PlainRegisterEntry(c, s, ev, a);
    }
  }

  lemma PlainRegisterEntry(c: Config, s: State, ev: Event, a: Addr)
    requires Enabled(s, ev) && |s.table| <= c.maxSessions && Registers(c, s, ev)
    ensures EntryStep(c, s, ev, a)
  {
    PlainRegistration(c, s, ev);
  }

  /** The table with the session of the receiver that answers. */
  function WithAnswerer(c: Config, s: State, ev: Event): Table
    requires ev.Packet? && ev.from in s.pending
  {
    var p := s.pending[ev.from];
    s.table[Addr(ev.from.ip, p.dataPort) := Info(Some(ev.from), c.derive(p.randA), ev.now)]
  }

  /** A response either establishes its session or leaves the table alone. */
  lemma AnswerTable(c: Config, s: State, ev: Event)
    requires Enabled(s, ev) && GoodConfig(c) && |s.table| <= c.maxSessions && ev.Packet? && Proving(c, s, ev).Some?
    ensures var (s', out) := React(c, s, ev); Accepts(out) == Answers(c, s, ev)
    ensures React(c, s, ev).0.table == if Answers(c, s, ev) then WithAnswerer(c, s, ev) else s.table
  {
    Answer(c, s, ev);
  }

  lemma AnswerEntry(c: Config, s: State, ev: Event, a: Addr)
    requires Enabled(s, ev) && GoodConfig(c) && |s.table| <= c.maxSessions && ev.Packet? && Proving(c, s, ev).Some?
    ensures EntryStep(c, s, ev, a)
  {
    AnswerTable(c, s, ev);
  }

  lemma PacketEntry(c: Config, s: State, ev: Event, a: Addr)
    requires Enabled(s, ev) && GoodConfig(c) && |s.table| <= c.maxSessions && ev.Packet?
    ensures EntryStep(c, s, ev, a)
  {
    if Reading(c, s, ev).None? {
      UnreadIsIgnored(c, s, ev);
    } else if Registering(c, s, ev).Some? {
      RegisterEntry(c, s, ev, a);
    } else if Proving(c, s, ev).Some? {
      AnswerEntry(c, s, ev, a);
    } else if IsKeepAlive(c, s, ev) {
      KeptAlive(c, s, ev);
    } else if IsLeave(c, s, ev) {
      Left(c, s, ev);
    } else {
      NothingElse(c, s, ev);
    }
  }

  lemma NothingElse(c: Config, s: State, ev: Event)
    requires Enabled(s, ev) && ev.Packet? && Reading(c, s, ev).Some?
    requires Registering(c, s, ev).None? && Proving(c, s, ev).None? && !IsKeepAlive(c, s, ev) && !IsLeave(c, s, ev)
    ensures React(c, s, ev) == (Tidied(s, ev.now), [])
  {
    var kind := Reading(c, s, ev).value.kind;
    if kind == C.REGISTER || kind == C.AUTH_RESPONSE {
      MalformedIsIgnored(c, s, ev);
    } else {
      OtherKindsAreIgnored(c, s, ev);
    }
  }

  lemma AnyEntry(c: Config, s: State, ev: Event, a: Addr)
    requires Enabled(s, ev) && GoodConfig(c) && |s.table| <= c.maxSessions
    ensures EntryStep(c, s, ev, a)
  {
    match ev
    case Tick(now) => Ticked(c, s, now, a);
    case Packet(_, _, _, _, _, _, _) => PacketEntry(c, s, ev, a);
  }

  /** Over every run a session's last activity is the time of the last packet of
      its receiver that established it, registered again or kept it alive. */
  lemma {:induction false} ActiveIsLastHeard(c: Config, evs: seq<Event>, a: Addr)
    requires GoodConfig(c) && Feasible(c, evs) && a in Run(c, evs).table
    ensures Run(c, evs).table[a].lastActive == LastHeard(c, evs, a)
  {
    var front, ev := evs[..|evs| - 1], evs[|evs| - 1];
    TableIsBounded(c, front);
    AnyEntry(c, Run(c, front), ev, a);
    if !Hears(c, Run(c, front), ev, a) { ActiveIsLastHeard(c, front, a); }
  }

  /** A tick leaves a session exactly if it was heard within the timeout. */
  lemma {:induction false} TickKeepsIff(c: Config, evs: seq<Event>, now: int, a: Addr)
    requires GoodConfig(c) && Feasible(c, evs)
    ensures Feasible(c, evs + [Tick(now)])
    ensures a in Run(c, evs + [Tick(now)]).table <==>
      a in Run(c, evs).table && now - LastHeard(c, evs, a) <= c.timeout
  {
    assert (evs + [Tick(now)])[..|evs|] == evs;
    Ticked(c, Run(c, evs), now, a);
    if a in Run(c, evs).table { ActiveIsLastHeard(c, evs, a); }
  }

  // ---- Who can touch a session that has a key ------------------------------------

  /** No other session has the control address of the one at `a`. */
  predicate Unshared(t: Table, a: Addr)
    requires a in t
  {
    forall b :: b in t && t[b].control == t[a].control ==> b == a
  }

  /** The packet is from the session's receiver and opens under its key. */
  predicate Opens(c: Config, t: Table, ev: Event, a: Addr)
    requires a in t
  {
    ev.Packet? && t[a].control == Some(ev.from) && c.decrypt(ev.bytes, t[a].key).Some?
  }

  predicate Unchanged(t: Table, t': Table, a: Addr)
    requires a in t
  {
    a in t' && t'[a] == t[a]
  }

  lemma FoundIsOwn(t: Table, control: Addr, pick: Option<Addr>, a: Addr)
    requires a in t && Picks(t, control, pick)
    ensures pick == Some(a) ==> t[a].control == Some(control)
    ensures t[a].control == Some(control) && Unshared(t, a) ==> pick == Some(a)
  {
    if t[a].control == Some(control) { assert a in Matching(t, control); }
  }

  /** A stranger's packet. */
  lemma StrangerLeavesAlone(c: Config, s: State, ev: Event, a: Addr)
    requires Enabled(s, ev) && GoodConfig(c) && c.encryption && |s.table| <= c.maxSessions && ev.Packet?
    requires a in s.table && s.table[a].control != Some(ev.from)
    ensures Unchanged(s.table, React(c, s, ev).0.table, a)
      || (Answers(c, s, ev) && Addr(ev.from.ip, s.pending[ev.from].dataPort) == a)
  {
    FoundIsOwn(s.table, ev.from, ev.second, a);
    if Reading(c, s, ev).None? {
      UnreadIsIgnored(c, s, ev);
    } else if Registering(c, s, ev).Some? {
      if TooSoon(s, ev) { EarlyIsIgnored(c, s, ev); } else { KeyedRegistration(c, s, ev); }
    } else if Proving(c, s, ev).Some? {
      Answer(c, s, ev);
    } else if IsKeepAlive(c, s, ev) {
      KeptAlive(c, s, ev);
    } else if IsLeave(c, s, ev) {
      Left(c, s, ev);
    } else {
      NothingElse(c, s, ev);
    }
  }

  /** With encryption, over every run: apart from ticks, a keyed session that
      shares its control address with no other is refreshed, replaced or removed
      only by a packet from that address which opens under its key, or by
      another control address of the same host that rightly answers a challenge
      for the same data address. */
  lemma {:induction false} OnlyTheKeyHolder(c: Config, evs: seq<Event>, ev: Event, a: Addr)
    requires GoodConfig(c) && c.encryption && Feasible(c, evs) && Feasible(c, evs + [ev]) && ev.Packet?
    requires var t := Run(c, evs).table; a in t && t[a].key != [] && Unshared(t, a)
    ensures var s := Run(c, evs);
      && Enabled(s, ev)
      && (|| Unchanged(s.table, Run(c, evs + [ev]).table, a)
          || Opens(c, s.table, ev, a)
          || (s.table[a].control != Some(ev.from) && Answers(c, s, ev)
              && Addr(ev.from.ip, s.pending[ev.from].dataPort) == a))
  {
    assert (evs + [ev])[..|evs|] == evs;
    var s := Run(c, evs);
    TableIsBounded(c, evs);
    if s.table[a].control == Some(ev.from) {
      FoundIsOwn(s.table, ev.from, ev.first, a);
      if c.decrypt(ev.bytes, s.table[a].key).None? { UnopenedIsIgnored(c, s, ev); }
    } else {
      StrangerLeavesAlone(c, s, ev, a);
    }
  }

  // ---- Where a session is made ----------------------------------------------------

  /** Step `j` of the run carries the registration `r`. */
  ghost predicate RegisteredAt(c: Config, evs: seq<Event>, j: nat, r: C.Register) {
    && j < |evs| && evs[j].Packet? && Feasible(c, evs[..j]) && Enabled(Run(c, evs[..j]), evs[j])
    && Registering(c, Run(c, evs[..j]), evs[j]) == Some(r)
  }

  lemma RegisteredLater(c: Config, front: seq<Event>, evs: seq<Event>, j: nat, r: C.Register)
    requires front <= evs && RegisteredAt(c, front, j, r)
    ensures RegisteredAt(c, evs, j, r)
  {
    assert front[..j] == evs[..j];
  }

  lemma PlainEntry(c: Config, s: State, ev: Event, a: Addr)
    requires Enabled(s, ev) && !c.encryption && GoodConfig(c) && |s.table| <= c.maxSessions && a in React(c, s, ev).0.table
    ensures var t := React(c, s, ev).0.table;
      || (a in s.table && t[a].control == s.table[a].control && t[a].key == s.table[a].key)
      || (Registers(c, s, ev) && a == Addr(ev.from.ip, Registering(c, s, ev).value.dataPort)
          && t[a] == Info(Some(ev.from), [], ev.now))
  {
    if ev.Tick? {
      Ticked(c, s, ev.now, a);
    } else if Reading(c, s, ev).None? {
      UnreadIsIgnored(c, s, ev);
    } else if Registering(c, s, ev).Some? {
      if TooSoon(s, ev) { EarlyIsIgnored(c, s, ev); } else { PlainRegistration(c, s, ev); }
    } else if Proving(c, s, ev).Some? {
      Answer(c, s, ev);
    } else if IsKeepAlive(c, s, ev) {
      KeptAlive(c, s, ev);
    } else if IsLeave(c, s, ev) {
      Left(c, s, ev);
    } else {
      NothingElse(c, s, ev);
    }
  }

  /** Without encryption, every session ever in the table lies at the IP address
      and the declared data port of a registration of the run, has that packet's
      control address, and no key. */
  lemma {:induction false} TableFromRegistrations(c: Config, evs: seq<Event>, a: Addr) returns (j: nat, r: C.Register)
    requires GoodConfig(c) && Feasible(c, evs) && !c.encryption && a in Run(c, evs).table
    ensures RegisteredAt(c, evs, j, r) && a == Addr(evs[j].from.ip, r.dataPort)
    ensures Run(c, evs).table[a].control == Some(evs[j].from) && Run(c, evs).table[a].key == []
  {
    var front, ev := evs[..|evs| - 1], evs[|evs| - 1];
    var s := Run(c, front);
    TableIsBounded(c, front);
    PlainEntry(c, s, ev, a);
    if a in s.table && Run(c, evs).table[a].control == s.table[a].control && Run(c, evs).table[a].key == s.table[a].key {
      j, r := TableFromRegistrations(c, front, a);
      RegisteredLater(c, front, evs, j, r);
    } else {
      j, r := |evs| - 1, Registering(c, s, ev).value;
    }
  }

  /** What is pending for `a` after the step: what a challenge sent to `a` was drawn
      for, with the registration's data port and address, or else what was before. */
  ghost predicate PendingIs(c: Config, s: State, ev: Event, a: Addr)
    requires Enabled(s, ev) && a in React(c, s, ev).0.pending
  {
    var (s', out) := React(c, s, ev);
    if |out| == 1 && out[0].Challenge? && out[0].to == a then
      ev.Packet? && ev.from == a && Registering(c, s, ev).Some?
      && s'.pending[a].dataPort == Registering(c, s, ev).value.dataPort && s'.pending[a].ip == Registering(c, s, ev).value.ip
    else a in s.pending && s'.pending[a] == s.pending[a]
  }

  lemma PendingEntry(c: Config, s: State, ev: Event, a: Addr)
    requires Enabled(s, ev) && GoodConfig(c) && |s.table| <= c.maxSessions && a in React(c, s, ev).0.pending
    ensures PendingIs(c, s, ev, a)
  {
    if ev.Packet? && Reading(c, s, ev).Some? && Registering(c, s, ev).Some? {
      PendingRegistering(c, s, ev, a);
    } else {
      PendingKept(c, s, ev, a);
    }
  }

  lemma PendingRegistering(c: Config, s: State, ev: Event, a: Addr)
    requires Enabled(s, ev) && GoodConfig(c) && |s.table| <= c.maxSessions && a in React(c, s, ev).0.pending
    requires ev.Packet? && Reading(c, s, ev).Some? && Registering(c, s, ev).Some?
    ensures PendingIs(c, s, ev, a)
  {
    if TooSoon(s, ev) {
      EarlyIsIgnored(c, s, ev);
    } else if c.encryption {
      KeyedRegistration(c, s, ev);
    } else {
      PlainRegistration(c, s, ev);
    }
  }

  lemma PendingKept(c: Config, s: State, ev: Event, a: Addr)
    requires Enabled(s, ev) && GoodConfig(c) && |s.table| <= c.maxSessions && a in React(c, s, ev).0.pending
    requires ev.Packet? && Reading(c, s, ev).Some? ==> Registering(c, s, ev).None?
    ensures PendingIs(c, s, ev, a)
  {
    if ev.Tick? {
      Ticked(c, s, ev.now, a);
    } else if Reading(c, s, ev).None? {
      UnreadIsIgnored(c, s, ev);
    } else if Proving(c, s, ev).Some? {
      Answer(c, s, ev);
    } else if IsKeepAlive(c, s, ev) {
      KeptAlive(c, s, ev);
    } else if IsLeave(c, s, ev) {
      Left(c, s, ev);
    } else {
      NothingElse(c, s, ev);
    }
  }

  /** A pending challenge keeps the data port and the address declared in the
      registration that it answers. */
  lemma {:induction false} PendingFromRegistration(c: Config, evs: seq<Event>, a: Addr) returns (r: C.Register)
    requires GoodConfig(c) && Feasible(c, evs) && a in Run(c, evs).pending
    ensures Origin(c, evs, a).Some? && RegisteredAt(c, evs, Origin(c, evs, a).value, r)
    ensures Run(c, evs).pending[a].dataPort == r.dataPort && Run(c, evs).pending[a].ip == r.ip
  {
    var front, ev := evs[..|evs| - 1], evs[|evs| - 1];
    var s := Run(c, front);
    TableIsBounded(c, front);
    PendingEntry(c, s, ev, a);
    if Issues(c, evs, a) {
      r := Registering(c, s, ev).value;
    } else {
      r := PendingFromRegistration(c, front, a);
      RegisteredLater(c, front, evs, Origin(c, front, a).value, r);
    }
  }

  /** The session the last step established. */
  lemma JustMade(c: Config, evs: seq<Event>, a: Addr) returns (i: nat, r: C.Register)
    requires GoodConfig(c) && Feasible(c, evs) && evs != [] && Establishes(c, evs) && evs[|evs| - 1].Packet?
    requires var s := Run(c, evs[..|evs| - 1]); var from := evs[|evs| - 1].from;
      from in s.pending && a == Addr(from.ip, s.pending[from].dataPort)
    ensures RegisteredAt(c, evs, i, r) && i < |evs| - 1 && evs[i].from == evs[|evs| - 1].from
    ensures a == Addr(evs[|evs| - 1].from.ip, r.dataPort)
    ensures Origin(c, evs[..|evs| - 1], evs[|evs| - 1].from) == Some(i)
  {
    var front, ev := evs[..|evs| - 1], evs[|evs| - 1];
    r := PendingFromRegistration(c, front, ev.from);
    PendingHasOrigin(c, front, ev.from);
    i := Origin(c, front, ev.from).value;
    RegisteredLater(c, front, evs, i, r);
    assert front[i] == evs[i];
  }

  lemma RegistrationKeepsTable(c: Config, s: State, ev: Event)
    requires Enabled(s, ev) && c.encryption && ev.Packet? && Registering(c, s, ev).Some?
    ensures React(c, s, ev).0.table == s.table
  {
    if TooSoon(s, ev) { EarlyIsIgnored(c, s, ev); } else { KeyedRegistration(c, s, ev); }
  }

  lemma KeyedEntry(c: Config, s: State, ev: Event, a: Addr)
    requires Enabled(s, ev) && c.encryption && GoodConfig(c) && |s.table| <= c.maxSessions && a in React(c, s, ev).0.table
    ensures var (s', out) := React(c, s, ev);
      || (a in s.table && s'.table[a].control == s.table[a].control && s'.table[a].key == s.table[a].key)
      || (ev.Packet? && Accepts(out) && ev.from in s.pending && a == Addr(ev.from.ip, s.pending[ev.from].dataPort)
          && s'.table[a].control == Some(ev.from))
  {
    if ev.Tick? {
      Ticked(c, s, ev.now, a);
    } else if Reading(c, s, ev).None? {
      UnreadIsIgnored(c, s, ev);
    } else if Registering(c, s, ev).Some? {
      RegistrationKeepsTable(c, s, ev);
    } else if Proving(c, s, ev).Some? {
      AnswerTable(c, s, ev);
    } else if IsKeepAlive(c, s, ev) {
      KeptAlive(c, s, ev);
    } else if IsLeave(c, s, ev) {
      Left(c, s, ev);
    } else {
      NothingElse(c, s, ev);
    }
  }

  /** With encryption too: every session lies at the IP address of the receiver
      that answered and the data port it declared in the registration whose
      challenge it answered. */
  lemma {:induction false} TableAtDeclaredPort(c: Config, evs: seq<Event>, a: Addr) returns (j: nat, i: nat, r: C.Register)
    requires GoodConfig(c) && Feasible(c, evs) && c.encryption && a in Run(c, evs).table
    ensures EstablishesAt(c, evs, j) && i < j && evs[j].Packet? && RegisteredAt(c, evs, i, r) && evs[i].from == evs[j].from
    ensures a == Addr(evs[j].from.ip, r.dataPort) && Run(c, evs).table[a].control == Some(evs[j].from)
    ensures Feasible(c, evs[..j]) && Origin(c, evs[..j], evs[j].from) == Some(i)
  {
    var front, ev := evs[..|evs| - 1], evs[|evs| - 1];
    var s := Run(c, front);
    TableIsBounded(c, front);
    KeyedEntry(c, s, ev, a);
    assert evs[..|evs|] == evs;
    if a in s.table && Run(c, evs).table[a].control == s.table[a].control && Run(c, evs).table[a].key == s.table[a].key {
      j, i, r := TableAtDeclaredPort(c, front, a);
      RegisteredLater(c, front, evs, i, r);
      assert front[..j + 1] == evs[..j + 1] && front[..j] == evs[..j];
    } else {
      j := |evs| - 1;
      i, r := JustMade(c, evs, a);
    }
  }
}
