/** The sender's session table. */
module Sessions {
  import opened Words
  import opened Wrappers
  import Q = Queue

  datatype Addr = Addr(ip: string, port: nat)

  /** A session as the table sees it. */
  datatype Info = Info(control: Option<Addr>, key: Bytes, lastActive: int)

  type Table = map<Addr, Info>

  /** AES accepts keys of 16, 24 or 32 bytes. */
  predicate UsableKey(key: Bytes) {
    |key| == 0 || |key| == 16 || |key| == 24 || |key| == 32
  }

  /** Registering: an old session of the same data address goes first. */
  function Added(t: Table, max: nat, stopped: bool, addr: Addr, control: Option<Addr>, key: Bytes, now: int): (r: (Table, bool))
    ensures |t| <= max ==> |r.0| <= max
  {
    if stopped then (t, false)
    else
      var rest := t - {addr};
      RemoveSize(t, addr);
      if |rest| >= max || !UsableKey(key) then (rest, false)
      else (rest[addr := Info(control, key, now)], true)
  }

  lemma RemoveSize(t: Table, addr: Addr)
    ensures |t - {addr}| == if addr in t then |t| - 1 else |t|
  {
    assert (t - {addr}).Keys == t.Keys - {addr};
    assert |t - {addr}| == |(t - {addr}).Keys| && |t| == |t.Keys|;
  }

  lemma SameSize<K, V, W>(m: map<K, V>, t: map<K, W>)
    requires m.Keys == t.Keys
    ensures |m| == |t|
  {
    assert |m| == |m.Keys| && |t| == |t.Keys|;
  }

  /** Re-registering an address that is present never fails for want of room. */
  lemma ReRegisterHasRoom(t: Table, max: nat, addr: Addr, control: Option<Addr>, key: Bytes, now: int)
    requires |t| <= max && addr in t && UsableKey(key)
    ensures var (after, ok) := Added(t, max, false, addr, control, key, now);
      ok && |after| == |t| && after.Keys == t.Keys && after[addr] == Info(control, key, now)
  {
    RemoveSize(t, addr);
    var after := Added(t, max, false, addr, control, key, now).0;
    assert after.Keys == t.Keys;
    assert |after| == |after.Keys| && |t| == |t.Keys|;
  }

  /** The data addresses of the sessions with this control address. */
  function Matching(t: Table, control: Addr): set<Addr> {
    set a | a in t && t[a].control == Some(control)
  }

  /** A lookup by control address yields some match, if there is one. */
  predicate Picks(t: Table, control: Addr, pick: Option<Addr>) {
    if pick.Some? then pick.value in Matching(t, control) else Matching(t, control) == {}
  }

  function Touched(t: Table, pick: Option<Addr>, now: int): Table {
    if pick.Some? && pick.value in t then t[pick.value := t[pick.value].(lastActive := now)] else t
  }

  function Removed(t: Table, pick: Option<Addr>): Table {
    if pick.Some? then t - {pick.value} else t
  }

  function Expired(t: Table, timeout: int, now: int): Table {
    map a | a in t && now - t[a].lastActive <= timeout :: t[a]
  }

  lemma MinusOne<K, V>(m: map<K, V>, gone: set<K>, a: K)
    ensures m - gone - {a} == m - (gone + {a})
  {
  }

  lemma ExpiredIs(t: Table, timeout: int, now: int, late: set<Addr>)
    requires late == set a | a in t && now - t[a].lastActive > timeout
    ensures t - late == Expired(t, timeout, now) && t.Keys - (t - late).Keys == late
  {
  }

  class Session {
    const addr: Addr
    const control: Option<Addr>
    const key: Bytes
    const queue: Q.PacketQueue<Bytes>
    var lastActive: int

    constructor (addr: Addr, control: Option<Addr>, queueSize: int, key: Bytes, now: int)
      ensures this.addr == addr && Value() == Info(control, key, now)
      ensures fresh(queue) && queue.maxSize > 0 && queue.Value() == Q.Start()
      ensures queue.maxSize == if queueSize < 1 then 1 else queueSize
    {
      this.addr, this.control, this.key, lastActive := addr, control, key, now;
      queue := new Q.PacketQueue(queueSize);
    }

    function Value(): Info
      reads this
    {
      Info(control, key, lastActive)
    }
  }

  class SessionManager {
    var sessions: map<Addr, Session>
    const maxSessions: nat
    var stopped: bool
    ghost var table: Table

    ghost predicate Valid()
      reads this, sessions.Values
    {
      && sessions.Keys == table.Keys
      && (forall a :: a in sessions ==> Entry(sessions[a], a))
      && QueuesApart()
    }

    /** No two sessions share a queue. */
    ghost predicate QueuesApart()
      reads this
    {
      forall a, b :: a in sessions && b in sessions && a != b ==> sessions[a].queue != sessions[b].queue
    }

    ghost predicate Entry(s: Session, a: Addr)
      requires a in table
      reads this, s
    {
      s.addr == a && s.Value() == table[a] && s.queue.maxSize > 0
    }

    constructor (maxSessions: nat)
      ensures Valid() && table == map[] && sessions == map[] && !stopped && this.maxSessions == maxSessions
    {
      this.maxSessions := maxSessions;
      sessions, table, stopped := map[], map[], false;
    }

    method Forget(a: Addr)
      requires Valid() && a in sessions
      modifies this
      ensures Valid() && sessions == old(sessions) - {a} && table == old(table) - {a} && stopped == old(stopped)
    {
      sessions, table := sessions - {a}, table - {a};
    }

    method Insert(a: Addr, control: Option<Addr>, queueSize: int, key: Bytes, now: int)
      requires Valid() && a !in sessions
      modifies this
      ensures Valid() && stopped == old(stopped) && table == old(table)[a := Info(control, key, now)]
      ensures a in sessions && fresh(sessions[a]) && sessions == old(sessions)[a := sessions[a]]
      ensures fresh(sessions[a].queue) && sessions[a].queue.Value() == Q.Start()
      ensures sessions[a].queue.maxSize == if queueSize < 1 then 1 else queueSize
    {
      var s := new Session(a, control, queueSize, key, now);
      sessions, table := sessions[a := s], table[a := s.Value()];
    }

    /** Stop and forget the session of a data address, if there is one. */
    method Evict(a: Addr)
      requires Valid()
      modifies this, if a in sessions then {sessions[a].queue} else {}
      ensures Valid() && sessions == old(sessions) - {a} && table == old(table) - {a} && stopped == old(stopped)
      ensures a in old(sessions) ==> old(sessions[a].queue).closed
    {
      if a in sessions {
        var s := sessions[a];
        Forget(a);
        s.queue.Close();
      } else {
        assert table - {a} == table && sessions - {a} == sessions;
      }
    }

    method InsertIfRoom(a: Addr, control: Option<Addr>, queueSize: int, key: Bytes, now: int) returns (ok: bool)
      requires Valid() && a !in sessions
      modifies this
      ensures Valid() && stopped == old(stopped) && ok == (|old(table)| < maxSessions && UsableKey(key))
      ensures !ok ==> sessions == old(sessions) && table == old(table)
      ensures ok ==> table == old(table)[a := Info(control, key, now)]
      ensures ok ==> a in sessions && sessions == old(sessions)[a := sessions[a]]
      ensures ok ==> fresh(sessions[a].queue) && sessions[a].queue.Value() == Q.Start()
      ensures ok ==> sessions[a].queue.maxSize == if queueSize < 1 then 1 else queueSize
    {
      SameSize(sessions, table);
      if |sessions| >= maxSessions || !UsableKey(key) {
        return false;
      }
      Insert(a, control, queueSize, key, now);
      ok := true;
    }

    method Replace(a: Addr, control: Option<Addr>, queueSize: int, key: Bytes, now: int) returns (ok: bool)
      requires Valid()
      modifies this, if a in sessions then {sessions[a].queue} else {}
      ensures Valid() && stopped == old(stopped) && ok == (|old(table) - {a}| < maxSessions && UsableKey(key))
      ensures !ok ==> sessions == old(sessions) - {a} && table == old(table) - {a}
      ensures ok ==> table == (old(table) - {a})[a := Info(control, key, now)]
      ensures ok ==> a in sessions && sessions == (old(sessions) - {a})[a := sessions[a]]
      ensures ok ==> fresh(sessions[a].queue) && sessions[a].queue.Value() == Q.Start()
      ensures ok ==> sessions[a].queue.maxSize == if queueSize < 1 then 1 else queueSize
      ensures a in old(sessions) ==> old(sessions[a].queue).closed
    {
      Evict(a);
      ok := InsertIfRoom(a, control, queueSize, key, now);
    }

    /** Start a session for a data address; an old one of that address is stopped first. */
    method AddSession(a: Addr, control: Option<Addr>, queueSize: int, key: Bytes, now: int) returns (ok: bool)
      requires Valid()
      modifies this, if a in sessions then {sessions[a].queue} else {}
      ensures Valid() && stopped == old(stopped)
      ensures (table, ok) == Added(old(table), maxSessions, stopped, a, control, key, now)
      ensures !ok ==> sessions == if stopped then old(sessions) else old(sessions) - {a}
      ensures ok ==> a in sessions && sessions == (old(sessions) - {a})[a := sessions[a]]
      ensures ok ==> fresh(sessions[a].queue) && sessions[a].queue.Value() == Q.Start()
      ensures ok ==> sessions[a].queue.maxSize == if queueSize < 1 then 1 else queueSize
      ensures !stopped && a in old(sessions) ==> old(sessions[a].queue).closed
    {
      if stopped {
        return false;
      }
      ok := Replace(a, control, queueSize, key, now);
    }

    /** Some session with the control address: map order decides which. */
    method Find(control: Addr) returns (pick: Option<Addr>)
      requires Valid()
      ensures Picks(table, control, pick)
    {
      var todo := sessions.Keys;
      while todo != {}
        invariant todo <= sessions.Keys
        invariant forall a :: a in sessions && a !in todo ==> table[a].control != Some(control)
        decreases todo
      {
        var a :| a in todo;
        assert Entry(sessions[a], a);
        if sessions[a].control == Some(control) {
          return Some(a);
        }
        todo := todo - {a};
      }
      pick := None;
    }

    method Touch(control: Addr, now: int) returns (ghost pick: Option<Addr>)
      requires Valid()
      modifies this, sessions.Values
      ensures Valid() && sessions == old(sessions) && stopped == old(stopped)
      ensures Picks(old(table), control, pick) && table == Touched(old(table), pick, now)
    {
      var found := Find(control);
      pick := found;
      if found.Some? {
        var a := found.value;
        assert forall b :: b in sessions && b != a ==> sessions[b].addr == b != sessions[a].addr;
        sessions[a].lastActive := now;
        table := table[a := sessions[a].Value()];
      }
    }

    method RemoveByControl(control: Addr) returns (ghost pick: Option<Addr>)
      requires Valid()
      modifies this, set a | a in sessions :: sessions[a].queue
      ensures Valid() && stopped == old(stopped)
      ensures Picks(old(table), control, pick) && table == Removed(old(table), pick)
      ensures sessions == if pick.Some? then old(sessions) - {pick.value} else old(sessions)
      ensures pick.Some? ==> pick.value in old(sessions) && old(sessions)[pick.value].queue.closed
    {
      var found := Find(control);
      pick := found;
      if found.Some? {
        Evict(found.value);
      }
    }

    /** The sessions that have been silent for longer than `timeout`. */
    method Silent(timeout: int, now: int) returns (late: set<Addr>)
      requires Valid()
      ensures late == set a | a in table && now - table[a].lastActive > timeout
    {
      late := {};
      var todo := sessions.Keys;
      while todo != {}
        invariant todo <= sessions.Keys
        invariant late == set a | a in table && a !in todo && now - table[a].lastActive > timeout
        decreases todo
      {
        var a :| a in todo;
        todo := todo - {a};
        assert Entry(sessions[a], a);
        if now - sessions[a].lastActive > timeout {
          late := late + {a};
        }
      }
    }

    /** Remove every session that has been silent for longer than `timeout`. */
    method CheckTimeouts(timeout: int, now: int)
      requires Valid()
      modifies this, Queues()
      ensures Valid() && stopped == old(stopped) && table == Expired(old(table), timeout, now)
      ensures sessions == old(sessions) - (old(sessions).Keys - table.Keys)
      ensures forall a :: a in old(sessions) && a !in table ==> old(sessions)[a].queue.closed
    {
      var late := Silent(timeout, now);
      EvictAll(late);
      ExpiredIs(old(table), timeout, now, late);
    }

    method EvictAll(late: set<Addr>)
      requires Valid()
      modifies this, Queues()
      ensures Valid() && stopped == old(stopped) && sessions == old(sessions) - late && table == old(table) - late
      ensures forall a :: a in late && a in old(sessions) ==> old(sessions)[a].queue.closed
    {
      var toRemove := late;
      ghost var gone := {};
      while toRemove != {}
        invariant Valid() && stopped == old(stopped) && toRemove + gone == late && toRemove !! gone
        invariant sessions == old(sessions) - gone && table == old(table) - gone
        invariant forall a :: a in gone && a in old(sessions) ==> old(sessions)[a].queue.closed
        decreases toRemove
      {
        var a :| a in toRemove;
        MinusOne(old(sessions), gone, a);
        MinusOne(old(table), gone, a);
        toRemove, gone := toRemove - {a}, gone + {a};
        Evict(a);
      }
      assert gone == late;
    }

    /** Close the queues of sessions that are no longer in the table. */
    static method CloseEach(closing: map<Addr, Session>)
      requires forall a :: a in closing ==> closing[a].queue.maxSize > 0
      modifies set a | a in closing :: closing[a].queue
      ensures forall a :: a in closing ==> closing[a].queue.closed
    {
      var todo := closing.Keys;
      while todo != {}
        invariant todo <= closing.Keys
        invariant forall a :: a in closing && a !in todo ==> closing[a].queue.closed
        decreases todo
      {
        var a :| a in todo;
        todo := todo - {a};
        closing[a].queue.Close();
      }
    }

    /** Refuse further sessions, forget all of them and close their queues. */
    method CloseAll()
      requires Valid()
      modifies this, Queues()
      ensures Valid() && stopped && table == map[] && sessions == map[]
      ensures forall a :: a in old(sessions) ==> old(sessions)[a].queue.closed
    {
      var closing := sessions;
      assert forall a :: a in closing ==> Entry(closing[a], a);
      stopped := true;
      sessions, table := map[], map[];
      CloseEach(closing);
    }

    ghost function Queues(): set<Q.PacketQueue<Bytes>>
      reads this
    {
      set a | a in sessions :: sessions[a].queue
    }

    /** Put a copy of the packet into every session's queue. */
    method Broadcast(data: Bytes)
      requires Valid()
      modifies Queues()
      ensures Valid()
      ensures forall a :: a in sessions ==>
        sessions[a].queue.Value() == Q.Step(sessions[a].queue.maxSize, old(sessions[a].queue.Value()), Q.Op.Enqueue(data))
    {
      var todo := sessions.Keys;
      while todo != {}
        invariant todo <= sessions.Keys && Valid()
        invariant forall a :: a in todo ==> sessions[a].queue.Value() == old(sessions[a].queue.Value())
        invariant forall a :: a in sessions && a !in todo ==>
          sessions[a].queue.Value() == Q.Step(sessions[a].queue.maxSize, old(sessions[a].queue.Value()), Q.Op.Enqueue(data))
        decreases todo
      {
        var a :| a in todo;
        todo := todo - {a};
        var ok := sessions[a].queue.Enqueue(data);
      }
    }
  }
}
