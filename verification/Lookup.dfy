/** Looking a session up by its control address when encryption is on: exactly
    when that stops being unambiguous. */
module Lookup {
  import opened Words
  import opened Wrappers
  import C = Control
  import opened Sessions
  import opened Handler

  /** The data address an accepted response from `from` gets. */
  function DataAddr(s: State, from: Addr): Addr
    requires from in s.pending
  {
    Addr(from.ip, s.pending[from].dataPort)
  }

  /** `from` has a session under a data address other than `a`. */
  predicate ServedElsewhere(t: Table, from: Addr, a: Addr) {
    exists b :: b in t && b != a && t[b].control == Some(from)
  }

  lemma OthersStay(c: Config, s: State, ev: Event)
    requires Enabled(s, ev) && c.encryption && OneToOne(s.table) && !Accepts(React(c, s, ev).1)
    ensures OneToOne(React(c, s, ev).0.table)
  {
    var t := React(c, s, ev).0.table;
    forall a | a in t
      ensures Kept(s.table, t, a)
    {
      TableStep(c, s, ev, a);
    }
  }

  lemma StepUnambiguous(c: Config, s: State, ev: Event)
    requires Enabled(s, ev) && c.encryption && OneToOne(s.table)
    ensures OneToOne(React(c, s, ev).0.table) <==>
      !(Accepts(React(c, s, ev).1) && ev.Packet? && ev.from in s.pending
        && ServedElsewhere(s.table, ev.from, DataAddr(s, ev.from)))
  {
    if Accepts(React(c, s, ev).1) {
      EstablishStep(c, s, ev);
      var t, a := React(c, s, ev).0.table, DataAddr(s, ev.from);
      if b :| b in s.table && b != a && s.table[b].control == Some(ev.from) {
        assert t[a].control == t[b].control;
      }
    } else {
      OthersStay(c, s, ev);
    }
  }

  /** With encryption on, a step keeps lookups unambiguous unless its packet is
      the right response from a control address that has a session under another
      data address than the one it registered. */
  lemma {:induction false} StepUnambiguousIff(c: Config, s: State, ev: Event)
    requires GoodConfig(c) && Enabled(s, ev) && c.encryption && OneToOne(s.table) && |s.table| <= c.maxSessions
    ensures OneToOne(React(c, s, ev).0.table) <==>
      !(RightResponse(c, s, ev) && ServedElsewhere(s.table, ev.from, DataAddr(s, ev.from)))
  {
    AcceptsIff(c, s, ev);
    StepUnambiguous(c, s, ev);
  }

  /** The same over runs. */
  lemma {:induction false} LookupKeptIff(c: Config, evs: seq<Event>)
    requires GoodConfig(c) && Feasible(c, evs) && evs != [] && c.encryption && OneToOne(Run(c, evs[..|evs| - 1]).table)
    ensures var s, ev := Run(c, evs[..|evs| - 1]), evs[|evs| - 1];
      OneToOne(Run(c, evs).table) <==>
        !(RightResponse(c, s, ev) && ServedElsewhere(s.table, ev.from, DataAddr(s, ev.from)))
  {
    TableIsBounded(c, evs[..|evs| - 1]);
    StepUnambiguousIff(c, Run(c, evs[..|evs| - 1]), evs[|evs| - 1]);
  }

  // ---- A receiver that registers again with another data port ---------------

  function RegisterPacket(port: uint16): Bytes {
    C.Image(C.REGISTER, C.RegisterImage(C.Register(port, [], [])))
  }

  function ResponsePacket(c: Config, randA: Bytes): Bytes {
    C.Image(C.AUTH_RESPONSE, C.ResponseImage(c.mac(randA, c.derive(randA)), 0, 0))
  }

  lemma RegisterParses(port: uint16)
    ensures C.ParsePacket(RegisterPacket(port)) == C.Ok(C.Packet(C.REGISTER, C.RegisterImage(C.Register(port, [], []))))
    ensures C.DecodeRegisterPayload(C.RegisterImage(C.Register(port, [], []))) == C.Ok(C.Register(port, [], []))
  {
    C.ParseBuiltIff(C.REGISTER, C.RegisterImage(C.Register(port, [], [])));
    C.RegisterRoundTripIff(C.Register(port, [], []));
  }

  /** A registration when nothing is pending and the rate limit allows it. */
  lemma RegisterStep(c: Config, s: State, ev: Event, port: uint16)
    requires c.encryption && Reads(c, s, ev, RegisterPacket(port)) && s.pending == map[] && ev.random.Some?
    requires ev.from.ip in s.lastRegister ==> ev.now - s.lastRegister[ev.from.ip] >= SECOND
    ensures React(c, s, ev).0 == State(map[ev.from := Pending(ev.random.value, port, [], ev.now, ev.from.ip)],
                                       s.lastRegister[ev.from.ip := ev.now], s.table)
  {
    RegisterParses(port);
    ReactIsDispatch(c, s, ev, RegisterPacket(port), C.Packet(C.REGISTER, C.RegisterImage(C.Register(port, [], []))));
    assert Recent(s.pending, ev.now) == map[];
  }

  /** The right response to the pending challenge, with room in the table. */
  lemma ResponseStep(c: Config, s: State, ev: Event, p: Pending)
    requires c.encryption && GoodConfig(c) && Reads(c, s, ev, ResponsePacket(c, p.randA)) && s.pending == map[ev.from := p]
    requires ev.now - p.createdAt <= MINUTE && |c.mac(p.randA, c.derive(p.randA))| == 32 && |s.table| < c.maxSessions
    ensures React(c, s, ev).0 == State(map[], s.lastRegister,
      s.table[Addr(ev.from.ip, p.dataPort) := SessionOf(c, ev.from, p, ev.now)])
  {
    var proof := c.mac(p.randA, c.derive(p.randA));
    ResponseParses(proof, 0, 0);
    ReactIsDispatch(c, s, ev, ResponsePacket(c, p.randA), C.Packet(C.AUTH_RESPONSE, C.ResponseImage(proof, 0, 0)));
    assert Recent(s.pending, ev.now) == s.pending;
    RightAnswer(c, s, ev.from, ev.now, p);
  }

  lemma RightAnswer(c: Config, s: State, from: Addr, now: int, p: Pending)
    requires GoodConfig(c) && s.pending == map[from := p] && |s.table| < c.maxSessions
    ensures OnResponse(c, s, from, now, c.mac(p.randA, c.derive(p.randA))).0 ==
      State(map[], s.lastRegister, s.table[Addr(from.ip, p.dataPort) := SessionOf(c, from, p, now)])
  {
    var proof := c.mac(p.randA, c.derive(p.randA));
    AnswerStep(c, s, from, now, proof);
    ResponseEstablishes(c, s, from, now, proof);
    assert s.pending - {from} == map[];
  }

  /** Register, respond, and a second later both again, now sealed with the
      session key and with another data port. */
  function Again(c: Config, from: Addr, port1: uint16, port2: uint16, r1: Bytes, r2: Bytes, nonce: Bytes): seq<Event> {
    var key, a := c.derive(r1), Some(Addr(from.ip, port1));
    [Packet(from, RegisterPacket(port1), 0, Some(r1), None, None, None),
     Packet(from, ResponsePacket(c, r1), 0, None, None, None, None),
     Packet(from, c.seal(RegisterPacket(port2), key, nonce), SECOND, Some(r2), a, a, a),
     Packet(from, c.seal(ResponsePacket(c, r2), key, nonce), SECOND, None, a, a, a)]
  }

  lemma RunSnoc(c: Config, evs: seq<Event>, ev: Event)
    requires Feasible(c, evs) && Enabled(Run(c, evs), ev)
    ensures Feasible(c, evs + [ev]) && Run(c, evs + [ev]) == React(c, Run(c, evs), ev).0
  {
    assert (evs + [ev])[..|evs|] == evs;
  }

  lemma OnlyMatch(a: Addr, i: Info, control: Addr)
    requires i.control == Some(control)
    ensures Matching(map[a := i], control) == {a}
  {
  }

  lemma FirstHalf(c: Config, from: Addr, port1: uint16, port2: uint16, r1: Bytes, r2: Bytes, nonce: Bytes)
    requires GoodConfig(c) && c.encryption && c.maxSessions >= 2 && |c.mac(r1, c.derive(r1))| == 32
    ensures var evs := Again(c, from, port1, port2, r1, r2, nonce)[..2];
      Feasible(c, evs) && Run(c, evs) ==
        State(map[], map[from.ip := 0], map[Addr(from.ip, port1) := Info(Some(from), c.derive(r1), 0)])
  {
    var all := Again(c, from, port1, port2, r1, r2, nonce);
    assert all[..1] == [] + [all[0]] && all[..2] == all[..1] + [all[1]];
    RegisterStep(c, START, all[0], port1);
    RunSnoc(c, [], all[0]);
    ResponseStep(c, Run(c, all[..1]), all[1], Pending(r1, port1, [], 0, from.ip));
    RunSnoc(c, all[..1], all[1]);
  }

  /** A receiver that authenticates twice from one control address with two data
      ports has two sessions there, and which one a lookup finds is map order. */
  lemma {:induction false} EncryptedLookupIsAmbiguous(c: Config, from: Addr, port1: uint16, port2: uint16,
                                                      r1: Bytes, r2: Bytes, nonce: Bytes)
    requires GoodConfig(c) && c.encryption && c.maxSessions >= 2 && port1 != port2
    requires |c.mac(r1, c.derive(r1))| == 32 && |c.mac(r2, c.derive(r2))| == 32
    ensures var evs := Again(c, from, port1, port2, r1, r2, nonce);
      && Feasible(c, evs) && !OneToOne(Run(c, evs).table)
      && Picks(Run(c, evs).table, from, Some(Addr(from.ip, port1))) && Picks(Run(c, evs).table, from, Some(Addr(from.ip, port2)))
  {
    var all := Again(c, from, port1, port2, r1, r2, nonce);
    FirstHalf(c, from, port1, port2, r1, r2, nonce);
    OnlyMatch(Addr(from.ip, port1), Info(Some(from), c.derive(r1), 0), from);
    assert all[..3] == all[..2] + [all[2]] && all == all[..3] + [all[3]];
    RegisterStep(c, Run(c, all[..2]), all[2], port2);
    RunSnoc(c, all[..2], all[2]);
    ResponseStep(c, Run(c, all[..3]), all[3], Pending(r2, port2, [], SECOND, from.ip));
    RunSnoc(c, all[..3], all[3]);
    var t := Run(c, all).table;
    assert Addr(from.ip, port1) in t && Addr(from.ip, port2) in t;
  }
}
