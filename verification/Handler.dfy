/** The sender's control plane as a step machine: registration, challenge and
    response, keep-alive, leave, and the timeout tick. */
module Handler {
  import opened Words
  import opened Wrappers
  import C = Control
  import opened Sessions

  const SECOND := 1_000_000_000
  const MINUTE := 60_000_000_000
  const QUEUE_SIZE := 100

  /** Key derivation, message authentication and decryption are known as functions only. */
  datatype Config = Config(
    encryption: bool, maxSessions: nat, timeout: int, fec: bool, k: int, n: int,
    derive: Bytes -> Bytes, mac: (Bytes, Bytes) -> Bytes,
    seal: (Bytes, Bytes, Bytes) -> Bytes, decrypt: (Bytes, Bytes) -> Option<Bytes>)

  ghost predicate GoodConfig(c: Config) {
    && (forall r {:trigger c.derive(r)} :: |c.derive(r)| == 32)
    && (forall text, key, nonce {:trigger c.seal(text, key, nonce)} ::
          c.decrypt(c.seal(text, key, nonce), key) == Some(text))
  }

  datatype Pending = Pending(randA: Bytes, dataPort: nat, ip: Bytes, createdAt: int, controlIP: string)

  datatype State = State(pending: map<Addr, Pending>, lastRegister: map<string, int>, table: Table)

  const START := State(map[], map[], map[])

  /** `random` is the challenge drawn, if one can be; the picks are what the map
      order yields for up to three lookups by control address. */
  datatype Event =
    | Packet(from: Addr, bytes: Bytes, now: int, random: Option<Bytes>,
             first: Option<Addr>, second: Option<Addr>, third: Option<Addr>)
    | Tick(now: int)

  /** Replies with the fields they carry; a keep-alive is sealed with `key` unless that is empty. */
  datatype Reply =
    | Challenge(to: Addr, randA: Bytes, t1: int64)
    | RegisterAck(to: Addr, ok: bool, k: byte, n: byte)
    | AuthResult(to: Addr, ok: bool, t4: int64, k: byte, n: byte)
    | Alive(to: Addr, key: Bytes)

  /** A clock reading as the 64-bit number of nanoseconds on the wire. */
  function Stamp(now: int): int64 {
    ToInt64(now % 0x1_0000_0000_0000_0000)
  }

  type Effect = (State, seq<Reply>)

  predicate Enabled(s: State, ev: Event) {
    ev.Packet? ==>
      Picks(s.table, ev.from, ev.first) && Picks(s.table, ev.from, ev.second) && Picks(s.table, ev.from, ev.third)
  }

  /** Challenges older than a minute are forgotten before a packet is looked at. */
  function Recent(p: map<Addr, Pending>, now: int): map<Addr, Pending> {
    map a | a in p && now - p[a].createdAt <= MINUTE :: p[a]
  }

  /** The packet, decrypted if its control address has a keyed session. */
  function Opened(c: Config, t: Table, bytes: Bytes, first: Option<Addr>): Option<Bytes>
    requires first.Some? ==> first.value in t
  {
    if c.encryption && first.Some? && t[first.value].key != []
    then c.decrypt(bytes, t[first.value].key)
    else Some(bytes)
  }

  predicate Busy(p: map<Addr, Pending>, ip: string) {
    exists a :: a in p && p[a].controlIP == ip
  }

  /** One pending challenge per IP address; none without randomness. */
  function Challenged(p: map<Addr, Pending>, from: Addr, now: int, random: Option<Bytes>, r: C.Register)
    : (map<Addr, Pending>, seq<Reply>)
  {
    if Busy(p, from.ip) || random.None? then (p, [])
    else (p[from := Pending(random.value, r.dataPort, r.ip, now, from.ip)], [Challenge(from, random.value, Stamp(now))])
  }

  /** Registration without encryption: a known control address only refreshes its session. */
  function Registered(c: Config, t: Table, from: Addr, now: int, second: Option<Addr>, third: Option<Addr>, dataPort: nat)
    : (Table, seq<Reply>)
  {
    if second.Some? then (Touched(t, third, now), [RegisterAck(from, true, c.k % 256, c.n % 256)])
    else
      var (r, ok) := Added(t, c.maxSessions, false, Addr(from.ip, dataPort), Some(from), [], now);
      (r, [RegisterAck(from, ok, c.k % 256, c.n % 256)])
  }

  function OnRegister(c: Config, s: State, from: Addr, now: int, random: Option<Bytes>,
                      second: Option<Addr>, third: Option<Addr>, r: C.Register): Effect
  {
    var ip := from.ip;
    if ip in s.lastRegister && now - s.lastRegister[ip] < SECOND then (s, [])
    else
      var s1 := s.(lastRegister := s.lastRegister[ip := now]);
      if c.encryption then
        var (p, out) := Challenged(s.pending, from, now, random, r);
        (s1.(pending := p), out)
      else
        var (t, out) := Registered(c, s.table, from, now, second, third, r.dataPort);
        (s1.(table := t), out)
  }

  function OnResponse(c: Config, s: State, from: Addr, now: int, proof: Bytes): Effect {
    if from !in s.pending then (s, [])
    else
      var p := s.pending[from];
      var key := c.derive(p.randA);
      var s1 := s.(pending := s.pending - {from});
      if c.mac(p.randA, key) != proof then (s1, [AuthResult(from, false, 0, 0, 0)])
      else
        var (t, ok) := Added(s.table, c.maxSessions, false, Addr(from.ip, p.dataPort), Some(from), key, now);
        (s1.(table := t), [AuthResult(from, ok, Stamp(now), c.k % 256, c.n % 256)])
  }

  function OnKeepAlive(c: Config, s: State, from: Addr, now: int, second: Option<Addr>, third: Option<Addr>): Effect {
    var key := if c.encryption && third.Some? && third.value in s.table then s.table[third.value].key else [];
    (s.(table := Touched(s.table, second, now)), if !c.encryption || key != [] then [Alive(from, key)] else [])
  }

  function Dispatch(c: Config, s: State, ev: Event, p: C.Packet): Effect
    requires ev.Packet? && Enabled(s, ev)
  {
    if p.kind == C.REGISTER then
      var r := C.DecodeRegisterPayload(p.payload);
      if r.Ok? then OnRegister(c, s, ev.from, ev.now, ev.random, ev.second, ev.third, r.value) else (s, [])
    else if p.kind == C.AUTH_RESPONSE then
      var r := C.DecodeAuthResponsePayload(p.payload);
      if c.encryption && r.Ok? then OnResponse(c, s, ev.from, ev.now, r.value.0) else (s, [])
    else if p.kind == C.KEEP_ALIVE then OnKeepAlive(c, s, ev.from, ev.now, ev.second, ev.third)
    else if p.kind == C.LEAVE then (s.(table := Removed(s.table, ev.second)), [])
    else (s, [])
  }

  function React(c: Config, s: State, ev: Event): Effect
    requires Enabled(s, ev)
  {
    match ev
    case Tick(now) => (s.(table := Expired(s.table, c.timeout, now)), [])
    case Packet(_, bytes, now, _, first, _, _) =>
      var s0 := s.(pending := Recent(s.pending, now));
      var plain := Opened(c, s.table, bytes, first);
      if plain.None? then (s0, [])
      else
        var p := C.ParsePacket(plain.value);
        if p.Ok? then Dispatch(c, s0, ev, p.value) else (s0, [])
  }

  /** The packet is `plain` once opened. */
  predicate Reads(c: Config, s: State, ev: Event, plain: Bytes) {
    ev.Packet? && Enabled(s, ev) && Opened(c, s.table, ev.bytes, ev.first) == Some(plain)
  }

  lemma ReactIsDispatch(c: Config, s: State, ev: Event, plain: Bytes, p: C.Packet)
    requires Reads(c, s, ev, plain) && C.ParsePacket(plain) == C.Ok(p)
    ensures React(c, s, ev) == Dispatch(c, s.(pending := Recent(s.pending, ev.now)), ev, p)
  {
  }

  // ---- Runs ---------------------------------------------------------------

  ghost predicate Feasible(c: Config, evs: seq<Event>)
    decreases |evs|, 0
  {
    evs != [] ==> Feasible(c, evs[..|evs| - 1]) && Enabled(Run(c, evs[..|evs| - 1]), evs[|evs| - 1])
  }

  function Run(c: Config, evs: seq<Event>): State
    requires Feasible(c, evs)
    decreases |evs|, 1
  {
    if evs == [] then START else React(c, Run(c, evs[..|evs| - 1]), evs[|evs| - 1]).0
  }

  function Replies(c: Config, evs: seq<Event>): seq<Reply>
    requires Feasible(c, evs) && evs != []
  {
    React(c, Run(c, evs[..|evs| - 1]), evs[|evs| - 1]).1
  }

  // ---- Session table ------------------------------------------------------

  lemma TouchedSize(t: Table, pick: Option<Addr>, now: int)
    ensures |Touched(t, pick, now)| == |t| && Touched(t, pick, now).Keys == t.Keys
  {
    assert Touched(t, pick, now).Keys == t.Keys;
    SameSize(Touched(t, pick, now), t);
  }

  lemma SubmapSize(t: Table, r: Table)
    requires r.Keys <= t.Keys
    ensures |r| <= |t|
  {
    SubsetSize(r.Keys, t.Keys);
    assert |r| == |r.Keys| && |t| == |t.Keys|;
  }

  lemma StepSize(c: Config, s: State, ev: Event)
    requires Enabled(s, ev) && |s.table| <= c.maxSessions
    ensures |React(c, s, ev).0.table| <= c.maxSessions
  {
    if ev.Tick? {
      SubmapSize(s.table, Expired(s.table, c.timeout, ev.now));
    } else {
      var plain := Opened(c, s.table, ev.bytes, ev.first);
      if plain.Some? && C.ParsePacket(plain.value).Ok? {
        DispatchSize(c, s.(pending := Recent(s.pending, ev.now)), ev, C.ParsePacket(plain.value).value);
      }
    }
  }

  lemma DispatchSize(c: Config, s: State, ev: Event, p: C.Packet)
    requires ev.Packet? && Enabled(s, ev) && |s.table| <= c.maxSessions
    ensures |Dispatch(c, s, ev, p).0.table| <= c.maxSessions
  {
    TouchedSize(s.table, ev.second, ev.now);
    TouchedSize(s.table, ev.third, ev.now);
    SubmapSize(s.table, Removed(s.table, ev.second));
  }

  /** At most `maxSessions` sessions in every reachable state. */
  lemma {:induction false} TableIsBounded(c: Config, evs: seq<Event>)
    requires Feasible(c, evs)
    ensures |Run(c, evs).table| <= c.maxSessions
  {
    if evs == [] {
    } else {
      TableIsBounded(c, evs[..|evs| - 1]);
      StepSize(c, Run(c, evs[..|evs| - 1]), evs[|evs| - 1]);
    }
  }

  /** Every session has a control address, and no two sessions share one. */
  ghost predicate OneToOne(t: Table) {
    && (forall a :: a in t ==> t[a].control.Some?)
    && (forall a, b :: a in t && b in t && t[a].control == t[b].control ==> a == b)
  }

  lemma TouchKeepsOneToOne(t: Table, pick: Option<Addr>, now: int)
    requires OneToOne(t)
    ensures OneToOne(Touched(t, pick, now))
  {
  }

  lemma LessKeepsOneToOne(t: Table, r: Table)
    requires OneToOne(t) && r.Keys <= t.Keys && forall a :: a in r ==> r[a] == t[a]
    ensures OneToOne(r)
  {
  }

  /** Adding keeps the correspondence because the handler first looked for the control address. */
  lemma AddKeepsOneToOne(t: Table, max: nat, a: Addr, control: Addr, key: Bytes, now: int)
    requires OneToOne(t) && Matching(t, control) == {}
    ensures OneToOne(Added(t, max, false, a, Some(control), key, now).0)
  {
    forall b | b in t
      ensures t[b].control != Some(control)
    {
      assert b !in Matching(t, control);
    }
  }

  lemma StepOneToOne(c: Config, s: State, ev: Event)
    requires Enabled(s, ev) && !c.encryption && OneToOne(s.table)
    ensures OneToOne(React(c, s, ev).0.table)
  {
    if ev.Tick? {
      LessKeepsOneToOne(s.table, Expired(s.table, c.timeout, ev.now));
    } else {
      var plain := Opened(c, s.table, ev.bytes, ev.first);
      if plain.Some? && C.ParsePacket(plain.value).Ok? {
        var s0 := s.(pending := Recent(s.pending, ev.now));
        DispatchOneToOne(c, s0, ev, C.ParsePacket(plain.value).value);
      }
    }
  }

  lemma RegisterOneToOne(c: Config, s: State, ev: Event, r: C.Register)
    requires ev.Packet? && Enabled(s, ev) && !c.encryption && OneToOne(s.table)
    ensures OneToOne(OnRegister(c, s, ev.from, ev.now, ev.random, ev.second, ev.third, r).0.table)
  {
    if ev.second.None? {
      AddKeepsOneToOne(s.table, c.maxSessions, Addr(ev.from.ip, r.dataPort), ev.from, [], ev.now);
    } else {
      TouchKeepsOneToOne(s.table, ev.third, ev.now);
    }
  }

  lemma DispatchOneToOne(c: Config, s: State, ev: Event, p: C.Packet)
    requires ev.Packet? && Enabled(s, ev) && !c.encryption && OneToOne(s.table)
    ensures OneToOne(Dispatch(c, s, ev, p).0.table)
  {
    if p.kind == C.REGISTER {
      var r := C.DecodeRegisterPayload(p.payload);
      if r.Ok? { RegisterOneToOne(c, s, ev, r.value); }
    } else if p.kind == C.KEEP_ALIVE {
      TouchKeepsOneToOne(s.table, ev.second, ev.now);
    } else if p.kind == C.LEAVE {
      LessKeepsOneToOne(s.table, Removed(s.table, ev.second));
    }
  }

  /** Without encryption, data and control addresses correspond one to one, so a
      lookup by control address has one possible answer, whatever the map order. */
  lemma {:induction false} LookupIsUnique(c: Config, evs: seq<Event>, control: Addr, p: Option<Addr>, q: Option<Addr>)
    requires Feasible(c, evs) && !c.encryption
    requires Picks(Run(c, evs).table, control, p) && Picks(Run(c, evs).table, control, q)
    ensures OneToOne(Run(c, evs).table) && p == q
  {
    RunOneToOne(c, evs);
  }

  lemma RunOneToOne(c: Config, evs: seq<Event>)
    requires Feasible(c, evs) && !c.encryption
    ensures OneToOne(Run(c, evs).table)
  {
    if evs == [] {
    } else {
      RunOneToOne(c, evs[..|evs| - 1]);
      StepOneToOne(c, Run(c, evs[..|evs| - 1]), evs[|evs| - 1]);
    }
  }

  // ---- Challenges ---------------------------------------------------------

  /** The last event issued a challenge to `a`. */
  predicate Issues(c: Config, evs: seq<Event>, a: Addr)
    requires Feasible(c, evs) && evs != []
  {
    var r := Replies(c, evs);
    |r| == 1 && r[0].Challenge? && r[0].to == a
  }

  /** The event that issued the challenge now pending for `a`. */
  function Origin(c: Config, evs: seq<Event>, a: Addr): Option<nat>
    requires Feasible(c, evs)
  {
    if evs == [] then None
    else if Issues(c, evs, a) then Some(|evs| - 1)
    else if a in Run(c, evs).pending then Origin(c, evs[..|evs| - 1], a)
    else None
  }

  /** `p` is the challenge that the packet `ev` from `a` gave rise to. */
  ghost predicate IssuedBy(ev: Event, a: Addr, p: Pending) {
    && ev.Packet? && ev.from == a && ev.random == Some(p.randA)
    && p.createdAt == ev.now && p.controlIP == a.ip
  }

  /** The reply that issues the challenge `p`. */
  function Issued(a: Addr, p: Pending): Reply {
    Challenge(a, p.randA, Stamp(p.createdAt))
  }

  /** From the recent challenges `p` to `p'`: at most one is new, and it is what
      the packet gave rise to, when none was pending for the IP address. */
  ghost predicate PendingChange(p: map<Addr, Pending>, ev: Event, p': map<Addr, Pending>, r: seq<Reply>)
    requires ev.Packet?
  {
    && (forall a :: a in p' ==>
          if r == [Issued(a, p'[a])] then IssuedBy(ev, a, p'[a]) else a in p && p'[a] == p[a])
    && (|r| == 1 && r[0].Challenge? ==>
          && ev.from in p' && r[0] == Issued(ev.from, p'[ev.from])
          && forall a :: a in p ==> p[a].controlIP != ev.from.ip)
  }

  lemma DispatchPending(c: Config, s: State, ev: Event, p: C.Packet)
    requires ev.Packet? && Enabled(s, ev)
    ensures var (s', r) := Dispatch(c, s, ev, p); PendingChange(s.pending, ev, s'.pending, r)
  {
  }

  /** What one step does to the pending challenges. */
  lemma PendingStep(c: Config, s: State, ev: Event)
    requires Enabled(s, ev)
    ensures var (s', r) := React(c, s, ev);
      if ev.Tick? then s'.pending == s.pending && r == [] else PendingChange(Recent(s.pending, ev.now), ev, s'.pending, r)
  {
    if ev.Packet? {
      var plain := Opened(c, s.table, ev.bytes, ev.first);
      if plain.Some? && C.ParsePacket(plain.value).Ok? {
        DispatchPending(c, s.(pending := Recent(s.pending, ev.now)), ev, C.ParsePacket(plain.value).value);
      }
    }
  }

  ghost predicate OnePerIP(p: map<Addr, Pending>) {
    && (forall a :: a in p ==> p[a].controlIP == a.ip)
    && (forall a, b :: a in p && b in p && a.ip == b.ip ==> a == b)
  }

  lemma StepOnePerIP(c: Config, s: State, ev: Event)
    requires Enabled(s, ev) && OnePerIP(s.pending)
    ensures OnePerIP(React(c, s, ev).0.pending)
  {
    PendingStep(c, s, ev);
    var (s', r) := React(c, s, ev);
    forall a, b | a in s'.pending && b in s'.pending && a.ip == b.ip
      ensures a == b
    {
      if r == [Issued(a, s'.pending[a])] && a != b {
        OtherIPIsFree(c, s, ev, a, b);
      } else if r == [Issued(b, s'.pending[b])] && a != b {
        OtherIPIsFree(c, s, ev, b, a);
      }
    }
  }

  /** A challenge is issued only when no other is pending for the IP address. */
  lemma OtherIPIsFree(c: Config, s: State, ev: Event, a: Addr, b: Addr)
    requires Enabled(s, ev) && OnePerIP(s.pending) && a != b
    requires a in React(c, s, ev).0.pending && React(c, s, ev).1 == [Issued(a, React(c, s, ev).0.pending[a])]
    requires b in React(c, s, ev).0.pending
    ensures b.ip != a.ip
  {
    PendingStep(c, s, ev);
    KeptIsRecent(c, s, ev, b);
    assert b in Recent(s.pending, ev.now);
  }

  /** A pending challenge is new, or was pending already and is at most a minute old. */
  lemma KeptIsRecent(c: Config, s: State, ev: Event, b: Addr)
    requires Enabled(s, ev) && ev.Packet? && b in React(c, s, ev).0.pending
    ensures b in Recent(s.pending, ev.now) || (b == ev.from && |React(c, s, ev).1| == 1 && React(c, s, ev).1[0].Challenge?)
  {
  }

  /** At most one challenge is pending per IP address, in every reachable state. */
  lemma {:induction false} OneChallengePerIP(c: Config, evs: seq<Event>, a: Addr, b: Addr)
    requires Feasible(c, evs) && a in Run(c, evs).pending && b in Run(c, evs).pending && a.ip == b.ip
    ensures a == b
  {
    RunOnePerIP(c, evs);
  }

  lemma RunOnePerIP(c: Config, evs: seq<Event>)
    requires Feasible(c, evs)
    ensures OnePerIP(Run(c, evs).pending)
  {
    if evs == [] {
    } else {
      RunOnePerIP(c, evs[..|evs| - 1]);
      StepOnePerIP(c, Run(c, evs[..|evs| - 1]), evs[|evs| - 1]);
    }
  }

  // ---- Sessions come from challenges --------------------------------------

  /** The last event established an authenticated session. */
  predicate Establishes(c: Config, evs: seq<Event>)
    requires Feasible(c, evs) && evs != []
  {
    Accepts(Replies(c, evs))
  }

  /** How the last event changed what is pending for `a`. */
  lemma OriginStep(c: Config, evs: seq<Event>, a: Addr)
    requires Feasible(c, evs) && evs != []
    ensures Issues(c, evs, a) ==> a in Run(c, evs).pending && IssuedBy(evs[|evs| - 1], a, Run(c, evs).pending[a])
    ensures a in Run(c, evs).pending && !Issues(c, evs, a) ==>
      var before := Run(c, evs[..|evs| - 1]).pending;
      a in before && Run(c, evs).pending[a] == before[a]
  {
    var s, ev := Run(c, evs[..|evs| - 1]), evs[|evs| - 1];
    PendingStep(c, s, ev);
    if ev.Packet? { PendingMeans(Recent(s.pending, ev.now), ev, Run(c, evs).pending, Replies(c, evs), a); }
  }

  lemma PendingMeans(p: map<Addr, Pending>, ev: Event, p': map<Addr, Pending>, r: seq<Reply>, a: Addr)
    requires ev.Packet? && PendingChange(p, ev, p', r)
    ensures |r| == 1 && r[0].Challenge? && r[0].to == a ==> a in p' && IssuedBy(ev, a, p'[a])
    ensures a in p' && !(|r| == 1 && r[0].Challenge? && r[0].to == a) ==> a in p && p'[a] == p[a]
  {
    if |r| == 1 && r[0].Challenge? && r[0].to == a {
      assert r == [Issued(a, p'[a])];
    }
  }

  /** A pending challenge is exactly what its origin issued. */
  lemma {:induction false} PendingHasOrigin(c: Config, evs: seq<Event>, a: Addr)
    requires Feasible(c, evs)
    ensures a in Run(c, evs).pending <==> Origin(c, evs, a).Some?
    ensures a in Run(c, evs).pending ==>
      var i := Origin(c, evs, a).value;
      i < |evs| && IssuedBy(evs[i], a, Run(c, evs).pending[a])
  {
    if evs == [] {
    } else {
      PendingHasOrigin(c, evs[..|evs| - 1], a);
      OriginStep(c, evs, a);
    }
  }

  predicate Accepts(r: seq<Reply>) {
    |r| == 1 && r[0].AuthResult? && r[0].ok
  }

  /** The session of the pending challenge `p`, as it enters the table. */
  function SessionOf(c: Config, from: Addr, p: Pending, now: int): Info {
    Info(Some(from), c.derive(p.randA), now)
  }

  lemma ResponseEstablishes(c: Config, s: State, from: Addr, now: int, proof: Bytes)
    requires Accepts(OnResponse(c, s, from, now, proof).1)
    ensures from in s.pending
    ensures OnResponse(c, s, from, now, proof).0 ==
      s.(pending := s.pending - {from},
         table := s.table[Addr(from.ip, s.pending[from].dataPort) := SessionOf(c, from, s.pending[from], now)])
  {
    var a, i := Addr(from.ip, s.pending[from].dataPort), SessionOf(c, from, s.pending[from], now);
    assert (s.table - {a})[a := i] == s.table[a := i];
  }

  lemma DispatchEstablishes(c: Config, s: State, ev: Event, p: C.Packet)
    requires ev.Packet? && Enabled(s, ev) && Accepts(Dispatch(c, s, ev, p).1)
    ensures c.encryption && ev.from in s.pending
    ensures Dispatch(c, s, ev, p).0 ==
      s.(pending := s.pending - {ev.from},
         table := s.table[Addr(ev.from.ip, s.pending[ev.from].dataPort) := SessionOf(c, ev.from, s.pending[ev.from], ev.now)])
  {
    if p.kind == C.AUTH_RESPONSE && C.DecodeAuthResponsePayload(p.payload).Ok? && c.encryption {
      ResponseEstablishes(c, s, ev.from, ev.now, C.DecodeAuthResponsePayload(p.payload).value.0);
    }
  }

  /** What a step that establishes a session has checked and done. */
  lemma EstablishStep(c: Config, s: State, ev: Event)
    requires Enabled(s, ev) && Accepts(React(c, s, ev).1)
    ensures ev.Packet? && c.encryption && ev.from in s.pending
    ensures var p := s.pending[ev.from]; var (s', _) := React(c, s, ev);
      && ev.now - p.createdAt <= MINUTE
      && s'.table == s.table[Addr(ev.from.ip, p.dataPort) := SessionOf(c, ev.from, p, ev.now)]
      && ev.from !in s'.pending
  {
    if ev.Packet? {
      var plain := Opened(c, s.table, ev.bytes, ev.first);
      if plain.Some? && C.ParsePacket(plain.value).Ok? {
        DispatchEstablishes(c, s.(pending := Recent(s.pending, ev.now)), ev, C.ParsePacket(plain.value).value);
      }
    }
  }

  /** Challenge lifecycle: every authenticated session comes from a challenge
      issued to the same control address at most a minute before, its key is
      derived from that challenge, and the challenge is used up. */
  lemma {:induction false} SessionHasChallenge(c: Config, evs: seq<Event>)
    requires Feasible(c, evs) && evs != [] && Establishes(c, evs)
    ensures var front, ev := evs[..|evs| - 1], evs[|evs| - 1];
      && ev.Packet? && Origin(c, front, ev.from).Some? && Origin(c, evs, ev.from).None?
      && var i := Origin(c, front, ev.from).value;
      && i < |front| && evs[i].Packet? && evs[i].from == ev.from && evs[i].random.Some?
      && ev.now - evs[i].now <= MINUTE
      && exists a :: a in Run(c, evs).table && a.ip == ev.from.ip
           && Run(c, evs).table[a] == Info(Some(ev.from), c.derive(evs[i].random.value), ev.now)
  {
    var front, ev := evs[..|evs| - 1], evs[|evs| - 1];
    EstablishStep(c, Run(c, front), ev);
    PendingHasOrigin(c, front, ev.from);
    PendingHasOrigin(c, evs, ev.from);
    var i := Origin(c, front, ev.from).value;
    assert evs[i] == front[i];
  }

  lemma ResponseParses(proof: Bytes, t2: int64, t3: int64)
    requires |proof| == 32
    ensures C.ParsePacket(C.Image(C.AUTH_RESPONSE, C.ResponseImage(proof, t2, t3)))
      == C.Ok(C.Packet(C.AUTH_RESPONSE, C.ResponseImage(proof, t2, t3)))
    ensures C.DecodeAuthResponsePayload(C.ResponseImage(proof, t2, t3)) == C.Ok((proof, t2, t3))
  {
    C.ParseBuiltIff(C.AUTH_RESPONSE, C.ResponseImage(proof, t2, t3));
    C.AuthRoundTrips(proof, t2, t3, 0, 0, 0);
  }

  lemma AddedIff(t: Table, max: nat, a: Addr, control: Option<Addr>, key: Bytes, now: int)
    requires |t| <= max && UsableKey(key)
    ensures Added(t, max, false, a, control, key, now).1 <==> |t| < max || a in t
  {
    RemoveSize(t, a);
  }

  lemma AnswerStep(c: Config, s: State, from: Addr, now: int, proof: Bytes)
    requires GoodConfig(c) && |s.table| <= c.maxSessions
    ensures var r := OnResponse(c, s, from, now, proof).1;
      |r| == 1 && r[0].AuthResult? && r[0].ok <==>
        && from in s.pending
        && c.mac(s.pending[from].randA, c.derive(s.pending[from].randA)) == proof
        && (|s.table| < c.maxSessions || Addr(from.ip, s.pending[from].dataPort) in s.table)
  {
    if from in s.pending {
      var p := s.pending[from];
      AddedIff(s.table, c.maxSessions, Addr(from.ip, p.dataPort), Some(from), c.derive(p.randA), now);
    }
  }

  /** The proof in an authentication response, if the packet is one. */
  function ProofIn(c: Config, t: Table, ev: Event): Option<Bytes>
    requires ev.Packet? && (ev.first.Some? ==> ev.first.value in t)
  {
    var plain := Opened(c, t, ev.bytes, ev.first);
    if !c.encryption || plain.None? then None
    else
      var p := C.ParsePacket(plain.value);
      if p.Err? || p.value.kind != C.AUTH_RESPONSE then None
      else
        var r := C.DecodeAuthResponsePayload(p.value.payload);
        if r.Err? then None else Some(r.value.0)
  }

  /** What a packet must bring to be accepted: the right proof for a challenge
      to its address that is at most a minute old, and room or a known data address. */
  predicate RightResponse(c: Config, s: State, ev: Event)
    requires Enabled(s, ev)
  {
    && ev.Packet? && ev.from in s.pending
    && var p := s.pending[ev.from];
       && ev.now - p.createdAt <= MINUTE
       && ProofIn(c, s.table, ev) == Some(c.mac(p.randA, c.derive(p.randA)))
       && (|s.table| < c.maxSessions || Addr(ev.from.ip, p.dataPort) in s.table)
  }

  lemma DispatchAcceptsIff(c: Config, s: State, ev: Event, p: C.Packet)
    requires GoodConfig(c) && ev.Packet? && Enabled(s, ev) && |s.table| <= c.maxSessions
    ensures Accepts(Dispatch(c, s, ev, p).1) <==>
      && c.encryption && p.kind == C.AUTH_RESPONSE && C.DecodeAuthResponsePayload(p.payload).Ok?
      && ev.from in s.pending
      && c.mac(s.pending[ev.from].randA, c.derive(s.pending[ev.from].randA)) == C.DecodeAuthResponsePayload(p.payload).value.0
      && (|s.table| < c.maxSessions || Addr(ev.from.ip, s.pending[ev.from].dataPort) in s.table)
  {
    if c.encryption && p.kind == C.AUTH_RESPONSE && C.DecodeAuthResponsePayload(p.payload).Ok? {
      AnswerStep(c, s, ev.from, ev.now, C.DecodeAuthResponsePayload(p.payload).value.0);
    }
  }

  lemma AcceptsIff(c: Config, s: State, ev: Event)
    requires GoodConfig(c) && Enabled(s, ev) && |s.table| <= c.maxSessions
    ensures Accepts(React(c, s, ev).1) <==> RightResponse(c, s, ev)
  {
    if ev.Packet? {
      var plain := Opened(c, s.table, ev.bytes, ev.first);
      if plain.Some? && C.ParsePacket(plain.value).Ok? {
        var p := C.ParsePacket(plain.value).value;
        var s0 := s.(pending := Recent(s.pending, ev.now));
        ReactIsDispatch(c, s, ev, plain.value, p);
        DispatchAcceptsIff(c, s0, ev, p);
        RecentIs(s.pending, ev.from, ev.now);
      } else {
        NothingRead(c, s, ev);
      }
    }
  }

  lemma RecentIs(p: map<Addr, Pending>, a: Addr, now: int)
    ensures a in Recent(p, now) <==> a in p && now - p[a].createdAt <= MINUTE
    ensures a in Recent(p, now) ==> Recent(p, now)[a] == p[a]
  {
  }

  lemma NothingRead(c: Config, s: State, ev: Event)
    requires ev.Packet? && Enabled(s, ev)
    requires var plain := Opened(c, s.table, ev.bytes, ev.first); plain.None? || C.ParsePacket(plain.value).Err?
    ensures React(c, s, ev).1 == [] && ProofIn(c, s.table, ev).None?
  {
  }

  /** Over every run, a step establishes an authenticated session exactly when
      its packet, once opened, is the right response to a challenge pending for
      its address for at most a minute, and there is room or the data address is known. */
  lemma {:induction false} AcceptedIff(c: Config, evs: seq<Event>)
    requires GoodConfig(c) && Feasible(c, evs) && evs != []
    ensures Establishes(c, evs) <==> RightResponse(c, Run(c, evs[..|evs| - 1]), evs[|evs| - 1])
  {
    TableIsBounded(c, evs[..|evs| - 1]);
    AcceptsIff(c, Run(c, evs[..|evs| - 1]), evs[|evs| - 1]);
  }

  /** Once no challenge is pending for an address, any later one is issued later. */
  lemma LaterOrigin(c: Config, evs: seq<Event>, m: nat, a: Addr)
    requires Feasible(c, evs) && m <= |evs| && Feasible(c, evs[..m]) && Origin(c, evs[..m], a).None?
    requires Origin(c, evs, a).Some?
    ensures Origin(c, evs, a).value >= m
  {
    var front := evs[..|evs| - 1];
    assert evs[..|evs|] == evs;
    if m == |evs| || Issues(c, evs, a) {
    } else {
      assert front[..m] == evs[..m];
      LaterOrigin(c, front, m, a);
    }
  }

  lemma FeasiblePrefix(c: Config, evs: seq<Event>, m: nat)
    requires Feasible(c, evs) && m <= |evs|
    ensures Feasible(c, evs[..m])
  {
    if m < |evs| {
      FeasiblePrefix(c, evs[..|evs| - 1], m);
      assert evs[..|evs| - 1][..m] == evs[..m];
    } else {
      assert evs[..m] == evs;
    }
  }

  /** Step `j` of the run established a session. */
  ghost predicate EstablishesAt(c: Config, evs: seq<Event>, j: nat) {
    j < |evs| && Feasible(c, evs[..j + 1]) && Establishes(c, evs[..j + 1])
  }

  /** The step that issued the challenge which step `j` answered. */
  lemma ChallengeOf(c: Config, evs: seq<Event>, j: nat) returns (i: nat)
    requires EstablishesAt(c, evs, j)
    ensures evs[j].Packet? && Feasible(c, evs[..j]) && Origin(c, evs[..j], evs[j].from) == Some(i)
    ensures i < j && evs[i].Packet? && evs[i].from == evs[j].from
    ensures Origin(c, evs[..j + 1], evs[j].from).None?
  {
    var e := evs[..j + 1];
    assert e[..j] == evs[..j];
    SessionHasChallenge(c, e);
    i := Origin(c, evs[..j], evs[j].from).value;
  }

  /** Each challenge creates at most one session: two establishing steps of a
      run never go back to the same challenge. */
  lemma {:induction false} ChallengeUsedOnce(c: Config, evs: seq<Event>, j1: nat, j2: nat)
    requires EstablishesAt(c, evs, j1) && EstablishesAt(c, evs, j2) && j1 < j2
    ensures evs[j1].Packet? && evs[j2].Packet? && Feasible(c, evs[..j1]) && Feasible(c, evs[..j2])
    ensures Origin(c, evs[..j1], evs[j1].from).Some? && Origin(c, evs[..j2], evs[j2].from).Some?
    ensures Origin(c, evs[..j1], evs[j1].from) != Origin(c, evs[..j2], evs[j2].from)
  {
    var i1 := ChallengeOf(c, evs, j1);
    var i2 := ChallengeOf(c, evs, j2);
    if evs[j1].from == evs[j2].from {
      assert evs[..j2][..j1 + 1] == evs[..j1 + 1];
      LaterOrigin(c, evs[..j2], j1 + 1, evs[j2].from);
    }
  }

  // ---- Every session in the table was established --------------------------

  /** Same control address and key, whenever last active. */
  predicate SameSession(x: Info, y: Info) {
    x.control == y.control && x.key == y.key
  }

  /** The entry was there before, up to its last activity. */
  predicate Kept(t: Table, r: Table, a: Addr) {
    a in r && a in t && SameSession(r[a], t[a])
  }

  lemma TouchKeeps(t: Table, pick: Option<Addr>, now: int, a: Addr)
    requires a in Touched(t, pick, now)
    ensures Kept(t, Touched(t, pick, now), a)
  {
  }

  /** What one step does to the table when encryption is on: only an accepted response adds to it. */
  lemma TableStep(c: Config, s: State, ev: Event, a: Addr)
    requires Enabled(s, ev) && c.encryption && a in React(c, s, ev).0.table
    ensures var (s', r) := React(c, s, ev);
      Kept(s.table, s'.table, a) ||
      (|r| == 1 && r[0].AuthResult? && r[0].ok && ev.Packet? && ev.from in s.pending
       && s'.table[a] == Info(Some(ev.from), c.derive(s.pending[ev.from].randA), ev.now))
  {
    if ev.Packet? {
      var plain := Opened(c, s.table, ev.bytes, ev.first);
      if plain.Some? && C.ParsePacket(plain.value).Ok? {
        DispatchTable(c, s.(pending := Recent(s.pending, ev.now)), ev, C.ParsePacket(plain.value).value, a);
      }
    }
  }

  lemma DispatchTable(c: Config, s: State, ev: Event, p: C.Packet, a: Addr)
    requires ev.Packet? && Enabled(s, ev) && c.encryption && a in Dispatch(c, s, ev, p).0.table
    ensures var (s', r) := Dispatch(c, s, ev, p);
      Kept(s.table, s'.table, a) ||
      (|r| == 1 && r[0].AuthResult? && r[0].ok && ev.from in s.pending
       && s'.table[a] == Info(Some(ev.from), c.derive(s.pending[ev.from].randA), ev.now))
  {
    if p.kind == C.KEEP_ALIVE {
      TouchKeeps(s.table, ev.second, ev.now, a);
    } else if p.kind == C.AUTH_RESPONSE {
      var r := C.DecodeAuthResponsePayload(p.payload);
      if r.Ok? { ResponseTable(c, s, ev.from, ev.now, r.value.0, a); }
    }
  }

  lemma AddedTable(t: Table, max: nat, addr: Addr, control: Option<Addr>, key: Bytes, now: int, a: Addr)
    requires a in Added(t, max, false, addr, control, key, now).0
    ensures var (r, ok) := Added(t, max, false, addr, control, key, now);
      Kept(t, r, a) || (ok && r[a] == Info(control, key, now))
  {
  }

  lemma ResponseTable(c: Config, s: State, from: Addr, now: int, proof: Bytes, a: Addr)
    requires a in OnResponse(c, s, from, now, proof).0.table
    ensures var (s', r) := OnResponse(c, s, from, now, proof);
      Kept(s.table, s'.table, a) ||
      (|r| == 1 && r[0].AuthResult? && r[0].ok && from in s.pending
       && s'.table[a] == Info(Some(from), c.derive(s.pending[from].randA), now))
  {
    if from in s.pending && c.mac(s.pending[from].randA, c.derive(s.pending[from].randA)) == proof {
      var p := s.pending[from];
      AddedTable(s.table, c.maxSessions, Addr(from.ip, p.dataPort), Some(from), c.derive(p.randA), now, a);
    }
  }

  /** The challenge behind the session the last step established. */
  lemma JustEstablished(c: Config, evs: seq<Event>) returns (i: nat)
    requires Feasible(c, evs) && evs != [] && Establishes(c, evs)
    ensures var front, ev := evs[..|evs| - 1], evs[|evs| - 1];
      && ev.Packet? && Origin(c, front, ev.from) == Some(i) && ev.from in Run(c, front).pending
      && i < |front| && evs[i].Packet? && evs[i].from == ev.from
      && evs[i].random == Some(Run(c, front).pending[ev.from].randA) && ev.now - evs[i].now <= MINUTE
  {
    var front, ev := evs[..|evs| - 1], evs[|evs| - 1];
    EstablishStep(c, Run(c, front), ev);
    PendingHasOrigin(c, front, ev.from);
    i := Origin(c, front, ev.from).value;
    assert evs[i] == front[i];
  }

  /** With encryption, every session ever in the table was established by some
      step of the run, with the key derived from the very challenge that step answered. */
  lemma {:induction false} TableFromChallenges(c: Config, evs: seq<Event>, a: Addr) returns (j: nat, i: nat)
    requires Feasible(c, evs) && c.encryption && a in Run(c, evs).table
    ensures EstablishesAt(c, evs, j) && i < j && evs[j].Packet? && evs[i].Packet? && evs[i].from == evs[j].from
    ensures evs[i].random.Some? && evs[j].now - evs[i].now <= MINUTE
    ensures Run(c, evs).table[a].control == Some(evs[j].from)
    ensures Run(c, evs).table[a].key == c.derive(evs[i].random.value)
    ensures Feasible(c, evs[..j]) && Origin(c, evs[..j], evs[j].from) == Some(i)
  {
    var front, ev := evs[..|evs| - 1], evs[|evs| - 1];
    var s := Run(c, front);
    TableStep(c, s, ev, a);
    assert evs[..|evs|] == evs;
    if Kept(s.table, Run(c, evs).table, a) {
      j, i := TableFromChallenges(c, front, a);
      assert front[..j + 1] == evs[..j + 1] && front[..j] == evs[..j];
    } else {
      j := |evs| - 1;
      i := JustEstablished(c, evs);
    }
  }

  // ---- What the receiver is told ------------------------------------------

  function Status(ok: bool): byte {
    if ok then C.SUCCESS else C.DENIED
  }

  /** The control packet for a reply (a keep-alive before it is sealed). */
  function Wire(r: Reply): Bytes {
    match r
    case Challenge(_, randA, t1) => C.Image(C.AUTH_CHALLENGE, C.ChallengeImage(randA, t1))
    case RegisterAck(_, ok, k, n) => C.Image(C.REGISTER_ACK, C.RegisterAckImage(Status(ok), k, n))
    case AuthResult(_, ok, t4, k, n) => C.Image(C.AUTH_RESULT, C.ResultImage(Status(ok), t4, k, n))
    case Alive(_, _) => C.Image(C.KEEP_ALIVE, [])
  }

  /** Type, length and status byte as they are on the wire: zero is success, one is denied. */
  lemma {:induction false} WireBytes(r: Reply)
    ensures r.RegisterAck? ==> Wire(r) == [2, 0, 3, if r.ok then 0 else 1, r.k, r.n]
    ensures r.AuthResult? ==> |Wire(r)| == 14 && Wire(r)[..4] == [8, 0, 11, if r.ok then 0 else 1] && Wire(r)[12..] == [r.k, r.n]
    ensures r.Challenge? ==> |Wire(r)| == 43 && Wire(r)[..3] == [6, 0, 40]
    ensures r.Challenge? && |r.randA| == 32 ==> Wire(r)[3..35] == r.randA
    ensures r.Alive? ==> Wire(r) == [3, 0, 0]
  {
    TwoBytes(3);
    TwoBytes(11);
    TwoBytes(40);
    TwoBytes(0);
  }

  lemma TwoBytes(v: byte)
    ensures BE(v, 2) == [0, v]
  {
    assert BE(v, 2) == BE(v / 256, 1) + [v % 256];
    assert BE(v / 256, 1) == BE(v / 256 / 256, 0) + [v / 256 % 256];
  }

  /** The packet `p` tells the receiver exactly what the reply `r` holds. */
  predicate Tells(p: C.Packet, r: Reply) {
    match r
    case Challenge(_, randA, t1) =>
      p.kind == C.AUTH_CHALLENGE && C.DecodeAuthChallengePayload(p.payload) == C.Ok((randA, t1))
    case RegisterAck(_, ok, k, n) =>
      p.kind == C.REGISTER_ACK && C.DecodeRegisterAckPayload(p.payload) == C.Ok((Status(ok), k, n))
    case AuthResult(_, ok, t4, k, n) =>
      p.kind == C.AUTH_RESULT && C.DecodeAuthResultPayload(p.payload) == C.Ok((Status(ok), t4, k, n))
    case Alive(_, _) => p.kind == C.KEEP_ALIVE && p.payload == []
  }

  /** The bytes sent: a keep-alive to a keyed session is sealed. */
  function Sent(c: Config, r: Reply, nonce: Bytes): Bytes {
    if r.Alive? && r.key != [] then c.seal(Wire(r), r.key, nonce) else Wire(r)
  }

  /** Every reply reads back at the receiver, who holds the session key, as what
      was sent (challenges have 32 bytes). */
  lemma ReplyReadsBack(c: Config, r: Reply, nonce: Bytes)
    requires GoodConfig(c) && (r.Challenge? ==> |r.randA| == 32)
    ensures var plain := if r.Alive? && r.key != [] then c.decrypt(Sent(c, r, nonce), r.key) else Some(Sent(c, r, nonce));
      plain.Some? && C.ParsePacket(plain.value).Ok? && Tells(C.ParsePacket(plain.value).value, r)
  {
    match r
    case Challenge(_, randA, t1) =>
      C.ParseBuiltIff(C.AUTH_CHALLENGE, C.ChallengeImage(randA, t1));
      C.AuthRoundTrips(randA, t1, 0, 0, 0, 0);
    case RegisterAck(_, ok, k, n) =>
      C.ParseBuiltIff(C.REGISTER_ACK, C.RegisterAckImage(Status(ok), k, n));
    case AuthResult(_, ok, t4, k, n) =>
      C.ParseBuiltIff(C.AUTH_RESULT, C.ResultImage(Status(ok), t4, k, n));
      C.AuthRoundTrips(seq(32, _ => 0), t4, 0, Status(ok), k, n);
    case Alive(_, _) =>
      C.ParseBuiltIff(C.KEEP_ALIVE, []);
  }

  /** Added within bounds: refused only when full, and then nothing changes. */
  lemma AddedOrFull(t: Table, max: nat, a: Addr, control: Addr, key: Bytes, now: int)
    requires |t| <= max && UsableKey(key)
    ensures var (r, ok) := Added(t, max, false, a, Some(control), key, now);
      if ok then a in r && r[a] == Info(Some(control), key, now) else |t| == max && r == t
  {
    RemoveSize(t, a);
    if a !in t { AbsentStays(t, a); }
  }

  lemma AbsentStays(t: Table, a: Addr)
    requires a !in t
    ensures t - {a} == t
  {
  }

  /** There is a session with this control address. */
  predicate Served(t: Table, control: Addr) {
    exists a :: a in t && t[a].control == Some(control)
  }

  /** What the reply says about the sender's state is so: an acknowledgement
      means a session, a refusal means a full table (or a wrong proof) and no
      change, and either carries the sender's code. */
  predicate Truthful(c: Config, t: Table, t': Table, from: Addr, r: seq<Reply>) {
    |r| > 0 ==>
      && |r| == 1 && r[0].to == from
      && (r[0].RegisterAck? ==> (r[0].ok <==> Served(t', from)) && (r[0].ok || (|t| == c.maxSessions && t' == t)))
      && (r[0].AuthResult? ==> if r[0].ok then Served(t', from) else t' == t)
      && (r[0].RegisterAck? || (r[0].AuthResult? && r[0].ok) ==> r[0].k == c.k % 256 && r[0].n == c.n % 256)
  }

  lemma RegisteredTells(c: Config, t: Table, from: Addr, now: int, second: Option<Addr>, third: Option<Addr>, dataPort: nat)
    requires |t| <= c.maxSessions && Picks(t, from, second) && Picks(t, from, third)
    ensures var (t', r) := Registered(c, t, from, now, second, third, dataPort); Truthful(c, t, t', from, r)
  {
    var t' := Registered(c, t, from, now, second, third, dataPort).0;
    if second.Some? {
      assert second.value in t && second.value in t' && t'[second.value].control == Some(from);
    } else {
      AddedOrFull(t, c.maxSessions, Addr(from.ip, dataPort), from, [], now);
      forall a | a in t
        ensures t[a].control != Some(from)
      {
        assert a !in Matching(t, from);
      }
    }
  }

  lemma ResponseTells(c: Config, s: State, from: Addr, now: int, proof: Bytes)
    requires GoodConfig(c) && |s.table| <= c.maxSessions
    ensures var (s', r) := OnResponse(c, s, from, now, proof); Truthful(c, s.table, s'.table, from, r)
  {
    if from in s.pending {
      var p := s.pending[from];
      AddedOrFull(s.table, c.maxSessions, Addr(from.ip, p.dataPort), from, c.derive(p.randA), now);
    }
  }

  lemma DispatchTells(c: Config, s: State, ev: Event, p: C.Packet)
    requires ev.Packet? && Enabled(s, ev) && GoodConfig(c) && |s.table| <= c.maxSessions
    ensures var (s', r) := Dispatch(c, s, ev, p); Truthful(c, s.table, s'.table, ev.from, r)
  {
    if p.kind == C.REGISTER {
      var r := C.DecodeRegisterPayload(p.payload);
      if r.Ok? { RegisteredTells(c, s.table, ev.from, ev.now, ev.second, ev.third, r.value.dataPort); }
    } else if p.kind == C.AUTH_RESPONSE {
      var r := C.DecodeAuthResponsePayload(p.payload);
      if r.Ok? { ResponseTells(c, s, ev.from, ev.now, r.value.0); }
    }
  }

  /** Over every run, a receiver is told the truth: its registration is
      acknowledged iff it now has a session, it is refused only when the table is
      full and then nothing changes, and the acknowledgement carries the
      sender's k and n as bytes, whether or not `c.fec` says that FEC is on. */
  lemma {:induction false} RepliesAreTruthful(c: Config, evs: seq<Event>)
    requires GoodConfig(c) && Feasible(c, evs) && evs != [] && evs[|evs| - 1].Packet?
    ensures Truthful(c, Run(c, evs[..|evs| - 1]).table, Run(c, evs).table, evs[|evs| - 1].from, Replies(c, evs))
  {
    var front, ev := evs[..|evs| - 1], evs[|evs| - 1];
    var s := Run(c, front);
    TableIsBounded(c, front);
    var plain := Opened(c, s.table, ev.bytes, ev.first);
    if plain.Some? && C.ParsePacket(plain.value).Ok? {
      DispatchTells(c, s.(pending := Recent(s.pending, ev.now)), ev, C.ParsePacket(plain.value).value);
    }
  }
}
