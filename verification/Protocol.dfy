/** What every control packet does, in the protocol's own terms, and what that
    means for a session over whole runs. */
module Protocol {
  import opened Words
  import opened Wrappers
  import C = Control
  import opened Sessions
  import opened Handler

  // ---- Reading a packet ------------------------------------------------------

  /** The control packet behind the bytes: a sender with a keyed session is only
      understood in packets that open under its key. */
  function Reading(c: Config, s: State, ev: Event): Option<C.Packet>
    requires ev.Packet? && Enabled(s, ev)
  {
    if c.encryption && ev.first.Some? && s.table[ev.first.value].key != [] then
      match c.decrypt(ev.bytes, s.table[ev.first.value].key)
      case None => None
      case Some(plain) => Parsed(plain)
    else Parsed(ev.bytes)
  }

  function Parsed(bytes: Bytes): Option<C.Packet> {
    match C.ParsePacket(bytes)
    case Ok(p) => Some(p)
    case Err(_) => None
  }

  /** The state once challenges older than a minute are forgotten. */
  function Tidied(s: State, now: int): State {
    s.(pending := map a | a in s.pending && now - s.pending[a].createdAt <= 60_000_000_000 :: s.pending[a])
  }

  /** A packet that cannot be read changes nothing and is not answered. */
  lemma {:induction false} UnreadIsIgnored(c: Config, s: State, ev: Event)
    requires ev.Packet? && Enabled(s, ev)
    ensures Reading(c, s, ev).None? ==> React(c, s, ev) == (Tidied(s, ev.now), [])
    ensures Reading(c, s, ev).Some? ==> React(c, s, ev) == Dispatch(c, Tidied(s, ev.now), ev, Reading(c, s, ev).value)
  {
    assert Recent(s.pending, ev.now) == Tidied(s, ev.now).pending;
  }

  /** In particular one that does not open under the key of its sender's session. */
  lemma UnopenedIsIgnored(c: Config, s: State, ev: Event)
    requires ev.Packet? && Enabled(s, ev) && c.encryption
    requires ev.first.Some? && s.table[ev.first.value].key != [] && c.decrypt(ev.bytes, s.table[ev.first.value].key).None?
    ensures React(c, s, ev) == (Tidied(s, ev.now), [])
  {
    UnreadIsIgnored(c, s, ev);
  }

  /** Kinds a sender does not expect change nothing either. */
  lemma OtherKindsAreIgnored(c: Config, s: State, ev: Event)
    requires ev.Packet? && Enabled(s, ev) && Reading(c, s, ev).Some?
    requires Reading(c, s, ev).value.kind !in {C.REGISTER, C.AUTH_RESPONSE, C.KEEP_ALIVE, C.LEAVE}
    ensures React(c, s, ev) == (Tidied(s, ev.now), [])
  {
    UnreadIsIgnored(c, s, ev);
  }

  // ---- Registration ----------------------------------------------------------

  /** The registration the packet carries, if it is one that decodes. */
  function Registering(c: Config, s: State, ev: Event): Option<C.Register>
    requires ev.Packet? && Enabled(s, ev)
  {
    match Reading(c, s, ev)
    case None => None
    case Some(p) =>
      if p.kind != C.REGISTER then None
      else match C.DecodeRegisterPayload(p.payload) case Ok(r) => Some(r) case Err(_) => None
  }

  /** Less than a second after the last registration from this IP address. */
  predicate TooSoon(s: State, ev: Event)
    requires ev.Packet?
  {
    ev.from.ip in s.lastRegister && ev.now - s.lastRegister[ev.from.ip] < 1_000_000_000
  }

  function Noted(s: State, ev: Event): State
    requires ev.Packet?
  {
    Tidied(s, ev.now).(lastRegister := s.lastRegister[ev.from.ip := ev.now])
  }

  /** One registration a second from an IP address; earlier ones do nothing. */
  lemma EarlyIsIgnored(c: Config, s: State, ev: Event)
    requires ev.Packet? && Enabled(s, ev) && Registering(c, s, ev).Some? && TooSoon(s, ev)
    ensures React(c, s, ev) == (Tidied(s, ev.now), [])
  {
    UnreadIsIgnored(c, s, ev);
  }

  function Acknowledged(c: Config, ev: Event, ok: bool): seq<Reply>
    requires ev.Packet?
  {
    [RegisterAck(ev.from, ok, c.k % 256, c.n % 256)]
  }

  /** Without encryption: a receiver that has a session keeps it and is heard
      again; otherwise it gets one at its own IP address and the data port it
      declared, without a key, unless the table is full and does not know that
      address, in which case nothing changes. */
  lemma {:induction false} PlainRegistration(c: Config, s: State, ev: Event)
    requires ev.Packet? && Enabled(s, ev) && !c.encryption && |s.table| <= c.maxSessions
    requires Registering(c, s, ev).Some? && !TooSoon(s, ev)
    ensures var (s', out) := React(c, s, ev); var a := Addr(ev.from.ip, Registering(c, s, ev).value.dataPort);
      if ev.second.Some? then
        out == Acknowledged(c, ev, true) && ev.third.Some?
        && s' == Noted(s, ev).(table := s.table[ev.third.value := s.table[ev.third.value].(lastActive := ev.now)])
      else if |s.table| < c.maxSessions || a in s.table then
        out == Acknowledged(c, ev, true) && s' == Noted(s, ev).(table := s.table[a := Info(Some(ev.from), [], ev.now)])
      else
        out == Acknowledged(c, ev, false) && s' == Noted(s, ev)
  {
    UnreadIsIgnored(c, s, ev);
    AddedIs(s.table, c.maxSessions, Addr(ev.from.ip, Registering(c, s, ev).value.dataPort), Some(ev.from), [], ev.now);
  }

  /** A session is added when there is room or its address is known, replacing
      what was there; otherwise the table stays as it is. */
  lemma AddedIs(t: Table, max: nat, a: Addr, control: Option<Addr>, key: Bytes, now: int)
    requires |t| <= max && (|key| == 0 || |key| == 16 || |key| == 24 || |key| == 32)
    ensures Added(t, max, false, a, control, key, now) ==
      if |t| < max || a in t then (t[a := Info(control, key, now)], true) else (t, false)
  {
    RemoveSize(t, a);
    assert (t - {a})[a := Info(control, key, now)] == t[a := Info(control, key, now)];
    if a !in t { AbsentStays(t, a); }
  }

  /** A stopped manager takes nobody; a key that is not an AES key is refused after
      the old session is gone. */
  lemma AddedNever(t: Table, max: nat, a: Addr, control: Option<Addr>, key: Bytes, now: int)
    ensures Added(t, max, true, a, control, key, now) == (t, false)
    ensures |key| !in {0, 16, 24, 32} ==> Added(t, max, false, a, control, key, now) == (t - {a}, false)
  {
  }

  /** Is a challenge younger than a minute pending for the IP address? */
  predicate Awaited(s: State, ev: Event)
    requires ev.Packet?
  {
    exists a :: a in s.pending && ev.now - s.pending[a].createdAt <= 60_000_000_000 && s.pending[a].controlIP == ev.from.ip
  }

  /** With encryption: an IP address that waits for no answer is challenged, with
      the randomness drawn, and the data port it declared is kept for later; one
      that does is not. The table is not touched. */
  lemma {:induction false} KeyedRegistration(c: Config, s: State, ev: Event)
    requires ev.Packet? && Enabled(s, ev) && c.encryption && Registering(c, s, ev).Some? && !TooSoon(s, ev)
    ensures var (s', out) := React(c, s, ev); var r := Registering(c, s, ev).value;
      if Awaited(s, ev) || ev.random.None? then out == [] && s' == Noted(s, ev)
      else
        && out == [Challenge(ev.from, ev.random.value, Stamp(ev.now))]
        && s' == Noted(s, ev).(pending :=
             Tidied(s, ev.now).pending[ev.from := Pending(ev.random.value, r.dataPort, r.ip, ev.now, ev.from.ip)])
  {
    UnreadIsIgnored(c, s, ev);
    var p := Tidied(s, ev.now).pending;
    assert Busy(p, ev.from.ip) <==> Awaited(s, ev) by {
      if Awaited(s, ev) {
        var a :| a in s.pending && ev.now - s.pending[a].createdAt <= 60_000_000_000 && s.pending[a].controlIP == ev.from.ip;
        assert a in p && p[a].controlIP == ev.from.ip;
      }
    }
  }

  /** A clock reading that fits is stamped as it is. */
  lemma StampIsReading(now: int)
    requires 0 <= now < 0x8000_0000_0000_0000
    ensures Stamp(now) == now
  {
  }

  // ---- Answering a challenge --------------------------------------------------

  /** The proof the packet carries, if it is a response that decodes. */
  function Proving(c: Config, s: State, ev: Event): Option<Bytes>
    requires ev.Packet? && Enabled(s, ev)
  {
    match Reading(c, s, ev)
    case None => None
    case Some(p) =>
      if p.kind != C.AUTH_RESPONSE then None
      else match C.DecodeAuthResponsePayload(p.payload) case Ok(r) => Some(r.0) case Err(_) => None
  }

  /** A response is heard only with encryption and while a challenge is pending.
      It uses the challenge up, right or wrong. The right proof gets a session
      at the data address registered, under the key derived, if there is room
      or the address is known; otherwise, like a wrong proof, a refusal. */
  lemma {:induction false} Answer(c: Config, s: State, ev: Event)
    requires ev.Packet? && Enabled(s, ev) && GoodConfig(c) && |s.table| <= c.maxSessions && Proving(c, s, ev).Some?
    ensures var (s', out) := React(c, s, ev); var s0 := Tidied(s, ev.now);
      if !c.encryption || ev.from !in s0.pending then (s', out) == (s0, [])
      else
        var p := s.pending[ev.from]; var key := c.derive(p.randA); var a := Addr(ev.from.ip, p.dataPort);
        var used := s0.(pending := s0.pending - {ev.from});
        if c.mac(p.randA, key) != Proving(c, s, ev).value then
          (s', out) == (used, [AuthResult(ev.from, false, 0, 0, 0)])
        else if |s.table| < c.maxSessions || a in s.table then
          && s' == used.(table := s.table[a := Info(Some(ev.from), key, ev.now)])
          && out == [AuthResult(ev.from, true, Stamp(ev.now), c.k % 256, c.n % 256)]
        else (s', out) == (used, [AuthResult(ev.from, false, Stamp(ev.now), c.k % 256, c.n % 256)])
  {
    UnreadIsIgnored(c, s, ev);
    if ev.from in Tidied(s, ev.now).pending {
      var p := s.pending[ev.from];
      AddedIs(s.table, c.maxSessions, Addr(ev.from.ip, p.dataPort), Some(ev.from), c.derive(p.randA), ev.now);
    }
  }

  /** A registration or a response that does not decode does nothing. */
  lemma MalformedIsIgnored(c: Config, s: State, ev: Event)
    requires ev.Packet? && Enabled(s, ev) && Reading(c, s, ev).Some?
    requires var kind := Reading(c, s, ev).value.kind;
      (kind == C.REGISTER && Registering(c, s, ev).None?) || (kind == C.AUTH_RESPONSE && Proving(c, s, ev).None?)
    ensures React(c, s, ev) == (Tidied(s, ev.now), [])
  {
    UnreadIsIgnored(c, s, ev);
  }

  // ---- Keep-alive, leave, tick -------------------------------------------------

  /** A keep-alive makes the session found heard at the packet's time, whatever
      is found else stays, and it is answered without encryption or, sealed, to
      a session with a key. */
  lemma {:induction false} KeptAlive(c: Config, s: State, ev: Event)
    requires ev.Packet? && Enabled(s, ev) && Reading(c, s, ev).Some? && Reading(c, s, ev).value.kind == C.KEEP_ALIVE
    ensures var (s', out) := React(c, s, ev); var s0 := Tidied(s, ev.now);
      && s' == (if ev.second.Some?
                then s0.(table := s.table[ev.second.value := s.table[ev.second.value].(lastActive := ev.now)]) else s0)
      && out == if !c.encryption then [Alive(ev.from, [])]
                else if ev.third.Some? && s.table[ev.third.value].key != []
                then [Alive(ev.from, s.table[ev.third.value].key)] else []
  {
    UnreadIsIgnored(c, s, ev);
  }

  /** A leave removes the session found and nothing else, without an answer. */
  lemma {:induction false} Left(c: Config, s: State, ev: Event)
    requires ev.Packet? && Enabled(s, ev) && Reading(c, s, ev).Some? && Reading(c, s, ev).value.kind == C.LEAVE
    ensures var s0 := Tidied(s, ev.now);
      React(c, s, ev) == (s0.(table := if ev.second.Some? then s.table - {ev.second.value} else s.table), [])
  {
    UnreadIsIgnored(c, s, ev);
  }

  /** A tick removes exactly the sessions not heard for longer than the timeout. */
  lemma {:induction false} Ticked(c: Config, s: State, now: int, a: Addr)
    ensures var (s', out) := React(c, s, Tick(now));
      && out == [] && s'.pending == s.pending && s'.lastRegister == s.lastRegister
      && (a in s'.table <==> a in s.table && now - s.table[a].lastActive <= c.timeout)
      && (a in s'.table ==> s'.table[a] == s.table[a])
  {
  }
}
