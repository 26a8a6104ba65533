/** The control packet handler as an object: it mutates its maps and drives the
    session manager, one packet at a time. */
module HandlerState {
  import opened Words
  import opened Wrappers
  import C = Control
  import opened Sessions
  import opened Handler

  class ControlHandler {
    const config: Config
    const manager: SessionManager
    var pendingAuths: map<Addr, Pending>
    var lastRegisterTime: map<string, int>

    constructor (c: Config)
      ensures Valid() && config == c && Value() == START
      ensures fresh(manager) && manager.sessions == map[]
    {
      config := c;
      manager := new SessionManager(c.maxSessions);
      pendingAuths, lastRegisterTime := map[], map[];
    }

    ghost predicate Valid()
      reads this, manager, manager.sessions.Values
    {
      manager.Valid() && !manager.stopped && manager.maxSessions == config.maxSessions
    }

    ghost function Value(): State
      reads this, manager
    {
      State(pendingAuths, lastRegisterTime, manager.table)
    }

    /** Forget challenges older than a minute. */
    method ForgetOld(now: int)
      modifies `pendingAuths
      ensures pendingAuths == Recent(old(pendingAuths), now)
    {
      var todo := pendingAuths.Keys;
      ghost var start := pendingAuths;
      while todo != {}
        invariant todo <= pendingAuths.Keys <= start.Keys
        invariant forall a :: a in pendingAuths ==> pendingAuths[a] == start[a]
        invariant forall a :: a in start && a !in todo ==> (a in pendingAuths <==> now - start[a].createdAt <= MINUTE)
        decreases todo
      {
        var a :| a in todo;
        todo := todo - {a};
        if now - pendingAuths[a].createdAt > MINUTE {
          pendingAuths := pendingAuths - {a};
        }
      }
    }

    /** Is a challenge pending for this IP address? */
    method HasPending(ip: string) returns (found: bool)
      ensures found == Busy(pendingAuths, ip)
    {
      var todo := pendingAuths.Keys;
      var count := 0;
      while todo != {}
        invariant todo <= pendingAuths.Keys
        invariant count > 0 <==> exists a :: a in pendingAuths && a !in todo && pendingAuths[a].controlIP == ip
        invariant count >= 0
        decreases todo
      {
        var a :| a in todo;
        todo := todo - {a};
        if pendingAuths[a].controlIP == ip {
          count := count + 1;
        }
      }
      found := count >= 1;
    }

    /** The session of this data address has the queue every registered receiver gets. */
    ghost predicate Buffered(a: Addr)
      reads manager
    {
      a in manager.sessions && manager.sessions[a].queue.maxSize == QUEUE_SIZE
    }

    /** Start a session for a receiver, on its own IP address whatever it declared. */
    method Admit(from: Addr, dataPort: nat, key: Bytes, now: int) returns (ok: bool)
      requires Valid()
      modifies manager, manager.Queues()
      ensures Valid()
      ensures (manager.table, ok) ==
        Added(old(manager.table), config.maxSessions, false, Addr(from.ip, dataPort), Some(from), key, now)
      ensures ok ==> Buffered(Addr(from.ip, dataPort))
    {
      ok := manager.AddSession(Addr(from.ip, dataPort), Some(from), QUEUE_SIZE, key, now);
    }

    method IssueChallenge(from: Addr, r: C.Register, now: int, random: Option<Bytes>) returns (replies: seq<Reply>)
      modifies `pendingAuths
      ensures (pendingAuths, replies) == Challenged(old(pendingAuths), from, now, random, r)
    {
      var busy := HasPending(from.ip);
      if busy || random.None? {
        return [];
      }
      pendingAuths := pendingAuths[from := Pending(random.value, r.dataPort, r.ip, now, from.ip)];
      replies := [Challenge(from, random.value, Stamp(now))];
    }

    /** A registration by control address `from`: rate limit, then challenge or session. */
    method HandleRegister(from: Addr, r: C.Register, now: int, random: Option<Bytes>, ghost first: Option<Addr>)
      returns (replies: seq<Reply>, ghost second: Option<Addr>, ghost third: Option<Addr>)
      requires Valid() && Picks(manager.table, from, first)
      modifies this, manager, manager.sessions.Values, manager.Queues()
      ensures Valid() && Picks(old(manager.table), from, second) && Picks(old(manager.table), from, third)
      ensures (Value(), replies) == OnRegister(config, old(Value()), from, now, random, second, third, r)
    {
      if from.ip in lastRegisterTime && now - lastRegisterTime[from.ip] < SECOND {
        return [], first, first;
      }
      lastRegisterTime := lastRegisterTime[from.ip := now];
      if config.encryption {
        replies := IssueChallenge(from, r, now, random);
        second, third := first, first;
      } else {
        replies, second, third := RegisterPlain(from, r.dataPort, now);
      }
    }

    method RegisterPlain(from: Addr, dataPort: nat, now: int)
      returns (replies: seq<Reply>, ghost second: Option<Addr>, ghost third: Option<Addr>)
      requires Valid()
      modifies manager, manager.sessions.Values, manager.Queues()
      ensures Valid() && Picks(old(manager.table), from, second) && Picks(old(manager.table), from, third)
      ensures (manager.table, replies) ==
        Registered(config, old(manager.table), from, now, second, third, dataPort)
    {
      var found := manager.Find(from);
      second, third := found, found;
      if found.Some? {
        third := manager.Touch(from, now);
        return [RegisterAck(from, true, config.k % 256, config.n % 256)], second, third;
      }
      var ok := Admit(from, dataPort, [], now);
      replies := [RegisterAck(from, ok, config.k % 256, config.n % 256)];
    }

    method HandleResponse(from: Addr, proof: Bytes, now: int) returns (replies: seq<Reply>)
      requires Valid()
      modifies this, manager, manager.Queues()
      ensures Valid()
      ensures (Value(), replies) == OnResponse(config, old(Value()), from, now, proof)
    {
      if from !in pendingAuths {
        return [];
      }
      var p := pendingAuths[from];
      var key := config.derive(p.randA);
      pendingAuths := pendingAuths - {from};
      if config.mac(p.randA, key) != proof {
        return [AuthResult(from, false, 0, 0, 0)];
      }
      replies := Establish(from, p.dataPort, key, now);
    }

    /** The challenge is answered: start the session and say whether there was room. */
    method Establish(from: Addr, dataPort: nat, key: Bytes, now: int) returns (replies: seq<Reply>)
      requires Valid()
      modifies manager, manager.Queues()
      ensures Valid()
      ensures var (t, ok) := Added(old(manager.table), config.maxSessions, false, Addr(from.ip, dataPort), Some(from), key, now);
        manager.table == t && replies == [AuthResult(from, ok, Stamp(now), config.k % 256, config.n % 256)]
    {
      var ok := Admit(from, dataPort, key, now);
      replies := [AuthResult(from, ok, Stamp(now), config.k % 256, config.n % 256)];
    }

    method HandleKeepAlive(from: Addr, now: int)
      returns (replies: seq<Reply>, ghost second: Option<Addr>, ghost third: Option<Addr>)
      requires Valid()
      modifies manager, manager.sessions.Values
      ensures Valid() && Picks(old(manager.table), from, second) && Picks(old(manager.table), from, third)
      ensures (Value(), replies) == OnKeepAlive(config, old(Value()), from, now, second, third)
    {
      ghost var before := manager.table;
      second := manager.Touch(from, now);
      var found := manager.Find(from);
      third := found;
      TouchedMatches(before, from, second, now);
      replies := [];
      if !config.encryption {
        replies := [Alive(from, [])];
      } else if found.Some? && |manager.sessions[found.value].key| > 0 {
        replies := [Alive(from, manager.sessions[found.value].key)];
      }
    }

    method HandleLeave(from: Addr) returns (ghost second: Option<Addr>)
      requires Valid()
      modifies manager, manager.Queues()
      ensures Valid() && Picks(old(manager.table), from, second)
      ensures Value() == old(Value()).(table := Removed(old(manager.table), second))
    {
      second := manager.RemoveByControl(from);
    }

    /** The packet behind decryption and parsing. */
    method HandleParsed(from: Addr, now: int, random: Option<Bytes>, p: C.Packet, ghost bytes: Bytes, ghost first: Option<Addr>)
      returns (replies: seq<Reply>, ghost second: Option<Addr>, ghost third: Option<Addr>)
      requires Valid() && Picks(manager.table, from, first)
      modifies this, manager, manager.sessions.Values, manager.Queues()
      ensures Valid() && Picks(old(manager.table), from, second) && Picks(old(manager.table), from, third)
      ensures (Value(), replies) ==
        Dispatch(config, old(Value()), Packet(from, bytes, now, random, first, second, third), p)
    {
      replies, second, third := [], first, first;
      if p.kind == C.REGISTER {
        var r := C.DecodeRegisterPayload(p.payload);
        if r.Ok? {
          replies, second, third := HandleRegister(from, r.value, now, random, first);
        }
      } else if p.kind == C.AUTH_RESPONSE {
        var r := C.DecodeAuthResponsePayload(p.payload);
        if config.encryption && r.Ok? {
          replies := HandleResponse(from, r.value.0, now);
        }
      } else if p.kind == C.KEEP_ALIVE {
        replies, second, third := HandleKeepAlive(from, now);
      } else if p.kind == C.LEAVE {
        second := HandleLeave(from);
      }
    }

    /** Decrypt the packet if its control address has a keyed session. */
    method Open(from: Addr, bytes: Bytes) returns (plain: Option<Bytes>, first: Option<Addr>)
      requires Valid()
      ensures Picks(manager.table, from, first)
      ensures plain == Opened(config, manager.table, bytes, first)
    {
      first := manager.Find(from);
      plain := Some(bytes);
      if config.encryption && first.Some? {
        assert manager.Entry(manager.sessions[first.value], first.value);
        var key := manager.sessions[first.value].key;
        if key != [] {
          plain := config.decrypt(bytes, key);
        }
      }
    }

    /** One pass of the handler loop. */
    method HandlePacket(from: Addr, bytes: Bytes, now: int, random: Option<Bytes>)
      returns (replies: seq<Reply>, ghost ev: Event)
      requires Valid()
      modifies this, manager, manager.sessions.Values, manager.Queues()
      ensures Valid() && Enabled(old(Value()), ev)
      ensures ev.Packet? && ev.from == from && ev.bytes == bytes && ev.now == now && ev.random == random
      ensures (Value(), replies) == React(config, old(Value()), ev)
    {
      ForgetOld(now);
      var plain, first := Open(from, bytes);
      ev := Packet(from, bytes, now, random, first, first, first);
      replies := [];
      if plain.None? {
        return;
      }
      var p := C.ParsePacket(plain.value);
      if p.Err? {
        return;
      }
      ghost var second, third;
      replies, second, third := HandleParsed(from, now, random, p.value, bytes, first);
      ev := Packet(from, bytes, now, random, first, second, third);
    }

    /** The control packet for a reply, before a keep-alive is sealed. */
    method Packed(r: Reply) returns (data: array<byte>)
      ensures fresh(data) && data[..] == Wire(r)
    {
      var payload := new byte[0];
      match r
      case Challenge(_, randA, t1) =>
        payload := C.EncodeAuthChallengePayload(randA, t1);
        data := C.BuildPacket(C.AUTH_CHALLENGE, payload[..]);
      case RegisterAck(_, ok, k, n) =>
        data := C.BuildPacket(C.REGISTER_ACK, C.RegisterAckImage(Status(ok), k, n));
      case AuthResult(_, ok, t4, k, n) =>
        payload := C.EncodeAuthResultPayload(Status(ok), t4, k, n);
        data := C.BuildPacket(C.AUTH_RESULT, payload[..]);
      case Alive(_, _) =>
        data := C.BuildPacket(C.KEEP_ALIVE, []);
    }

    /** What goes to the receiver for a reply; `nonce` is drawn for sealing. */
    method Transmit(r: Reply, nonce: Bytes) returns (bytes: Bytes)
      ensures bytes == Sent(config, r, nonce)
    {
      var data := Packed(r);
      bytes := data[..];
      if r.Alive? && |r.key| > 0 {
        bytes := config.seal(bytes, r.key, nonce);
      }
    }

    /** The timeout monitor. */
    method HandleTick(now: int)
      requires Valid()
      modifies manager, manager.Queues()
      ensures Valid() && (Value(), []) == React(config, old(Value()), Tick(now))
    {
      manager.CheckTimeouts(config.timeout, now);
    }
  }

  /** Touching changes neither who matches nor any key. */
  lemma TouchedMatches(t: Table, control: Addr, pick: Option<Addr>, now: int)
    ensures Matching(Touched(t, pick, now), control) == Matching(t, control)
    ensures forall a :: a in t ==> a in Touched(t, pick, now) && Touched(t, pick, now)[a].key == t[a].key
  {
  }
}
