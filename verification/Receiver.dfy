/** The receive loop: from one datagram to the payloads re-sent as multicast. */
module Receiver {
  import opened Words
  import opened Wrappers
  import opened Header
  import opened Crypto
  import opened ReedSolomon
  import opened FecGroup
  import opened FecManager
  import LossWindow
  import AnalyzerState

  /** What becomes of one released packet: nothing, or one payload. */
  function EmitOne(aead: Option<Aead>, pkt: Bytes): seq<Bytes> {
    var h := Deserialize(pkt);
    if h.None? then []
    else
      var body := pkt[HEADER_SIZE..];
      if |body| < h.value.payloadLen then []
      else
        var trimmed := body[..h.value.payloadLen];
        var plain := if aead.Some? then Decrypt(aead.value, trimmed) else Some(trimmed);
        if plain.Some? && |plain.value| > 0 then [plain.value] else []
  }

  function EmitAll(aead: Option<Aead>, release: seq<Bytes>): seq<Bytes> {
    if release == [] then []
    else EmitAll(aead, release[..|release| - 1]) + EmitOne(aead, release[|release| - 1])
  }

  /** `pkt` is a header, a body as long as its length field says, and padding. */
  predicate Framed(pkt: Bytes, h: Header, body: Bytes, padding: Bytes) {
    pkt == Image(h) + body + padding && h.payloadLen == |body|
  }

  lemma FramedBody(pkt: Bytes, h: Header, body: Bytes, padding: Bytes)
    requires Framed(pkt, h, body, padding)
    ensures Deserialize(pkt) == Some(h) && |pkt| >= HEADER_SIZE + |body| && pkt[HEADER_SIZE..][..h.payloadLen] == body
  {
    assert pkt == Image(h) + (body + padding);
    DeserializeImage(h, body + padding);
  }

  lemma IsFramed(pkt: Bytes)
    requires |pkt| >= HEADER_SIZE && |pkt| - HEADER_SIZE >= Deserialize(pkt).value.payloadLen
    ensures var h := Deserialize(pkt).value; var body := pkt[HEADER_SIZE..];
      Framed(pkt, h, body[..h.payloadLen], body[h.payloadLen..])
  {
    ImageDeserialize(pkt[..HEADER_SIZE]);
    assert pkt[..HEADER_SIZE][..HEADER_SIZE] == pkt[..HEADER_SIZE];
    var body, len := pkt[HEADER_SIZE..], Deserialize(pkt).value.payloadLen;
    assert pkt == pkt[..HEADER_SIZE] + body[..len] + body[len..];
  }

  /** In the clear, exactly the framed packets with this body yield it, unless it is empty. */
  lemma {:induction false} EmitsClearIff(pkt: Bytes, x: Bytes)
    ensures EmitOne(None, pkt) == [x] <==> x != [] && exists h, padding :: Framed(pkt, h, x, padding)
  {
    if EmitOne(None, pkt) == [x] { IsFramed(pkt); }
    if h, padding :| Framed(pkt, h, x, padding) { FramedBody(pkt, h, x, padding); }
  }

  /** With encryption, exactly those whose body is a 12-byte nonce and what opens
      to the payload under it. */
  lemma {:induction false} EmitsSealedIff(a: Aead, pkt: Bytes, x: Bytes)
    ensures EmitOne(Some(a), pkt) == [x] <==> x != [] && exists h, body, padding :: Framed(pkt, h, body, padding) && Unseals(a, body, x)
  {
    if EmitOne(Some(a), pkt) == [x] {
      IsFramed(pkt);
      UnsealsIff(a, pkt[HEADER_SIZE..][..Deserialize(pkt).value.payloadLen], x);
    }
    if h, body, padding :| Framed(pkt, h, body, padding) && Unseals(a, body, x) {
      FramedBody(pkt, h, body, padding);
      UnsealsIff(a, body, x);
    }
  }

  /** A 12-byte nonce, then what opens to `x` under it. */
  ghost predicate Unseals(a: Aead, body: Bytes, x: Bytes) {
    exists nonce, sealed :: |nonce| == 12 && body == nonce + sealed && a.open(nonce, sealed) == Some(x)
  }

  lemma UnsealsIff(a: Aead, body: Bytes, x: Bytes)
    ensures Decrypt(a, body) == Some(x) <==> Unseals(a, body, x)
  {
    if Decrypt(a, body) == Some(x) {
      var nonce, sealed := body[..12], body[12..];
      assert body == nonce + sealed && a.open(nonce, sealed) == Some(x);
    }
    if Unseals(a, body, x) {
      var nonce, sealed :| |nonce| == 12 && body == nonce + sealed && a.open(nonce, sealed) == Some(x);
      assert body[..12] == nonce && body[12..] == sealed;
    }
  }

  /** The FEC stage: absent before registration, switched off, or decoding. */
  datatype Mode = NoManager | Disabled | Enabled(engine: Engine, timeout: int)

  ghost predicate ModeOk(m: Mode, t: Table) {
    m.Enabled? ==> WellFormed(m.engine) && TableShape(m.engine, t)
  }

  predicate Accepted(d: Bytes) {
    var h := Deserialize(d);
    h.Some? && h.value.version / 16 == MAJOR_VERSION
  }

  /** Parity datagrams lose their outer header before decoding. */
  function FecPart(d: Bytes, parity: bool): Bytes
    requires |d| >= HEADER_SIZE
  {
    if parity then d[HEADER_SIZE..] else d
  }

  /** What the FEC stage releases for an accepted datagram. */
  function Release(m: Mode, t: Table, d: Bytes, now: int): (Table, seq<Bytes>)
    requires ModeOk(m, t) && Accepted(d)
  {
    var info := Deserialize(d).value.fecInfo;
    var parity := IsParity(info);
    match m
    case NoManager => (t, if parity then [] else [d])
    case Disabled => (t, [FecPart(d, parity)])
    case Enabled(e, timeout) =>
      var (after, out) := Add(e, timeout, t, FecPart(d, parity), parity, GroupOf(info), IndexOf(info), now);
      (after, out.release)
  }

  function Receive(m: Mode, aead: Option<Aead>, t: Table, d: Bytes, now: int): (Table, seq<Bytes>)
    requires ModeOk(m, t)
  {
    if !Accepted(d) then (t, [])
    else
      var (after, release) := Release(m, t, d, now);
      (after, EmitAll(aead, release))
  }

  lemma ReceiveKeepsMode(m: Mode, aead: Option<Aead>, t: Table, d: Bytes, now: int)
    requires ModeOk(m, t)
    ensures ModeOk(m, Receive(m, aead, t, d, now).0)
  {
    if m.Enabled? && Accepted(d) {
      var info := Deserialize(d).value.fecInfo;
      StepKeepsShape(m.engine, m.timeout, Lookup(t, GroupOf(info)), FecPart(d, IsParity(info)), IsParity(info), IndexOf(info), now);
    }
  }

  /** The table and everything emitted after the datagrams, in order; datagram
      number i comes when the clock says `clock(i)`. */
  function ReceiveAll(m: Mode, aead: Option<Aead>, t: Table, ds: seq<Bytes>, clock: int -> int): (r: (Table, seq<Bytes>))
    requires ModeOk(m, t)
    ensures ModeOk(m, r.0)
  {
    if ds == [] then (t, [])
    else
      var last := |ds| - 1;
      var (before, emitted) := ReceiveAll(m, aead, t, ds[..last], clock);
      ReceiveKeepsMode(m, aead, before, ds[last], clock(last));
      var (after, more) := Receive(m, aead, before, ds[last], clock(last));
      (after, emitted + more)
  }

  lemma ReceiveSnoc(m: Mode, aead: Option<Aead>, t: Table, ds: seq<Bytes>, d: Bytes, clock: int -> int)
    requires ModeOk(m, t)
    ensures var (before, emitted) := ReceiveAll(m, aead, t, ds, clock);
      var (after, more) := Receive(m, aead, before, d, clock(|ds|));
      ReceiveAll(m, aead, t, ds + [d], clock) == (after, emitted + more)
  {
    assert (ds + [d])[..|ds|] == ds;
  }

  class ReceiveLoop {
    const aead: Option<Aead>
    const stats: LossWindow.StreamStats
    const analyzer: AnalyzerState.FECAnalyzer
    var manager: FECManager?

    constructor (aead: Option<Aead>, testFEC: bool)
      ensures manager == null && this.aead == aead && stats.Value() == LossWindow.EMPTY
      ensures analyzer.Valid() && analyzer.enabled == testFEC && analyzer.told == []
    {
      this.aead := aead;
      stats := new LossWindow.StreamStats();
      analyzer := new AnalyzerState.FECAnalyzer(testFEC);
      manager := null;
    }

    ghost predicate Valid()
      reads this, manager, if manager == null then {} else manager.groups.Values, analyzer, analyzer.sims
    {
      && (manager != null ==> manager.Valid())
      && analyzer.Valid()
    }

    ghost function CurrentMode(): Mode
      reads this, manager
      requires manager != null && manager.enabled ==> manager.decoder.Some?
    {
      if manager == null then NoManager
      else if !manager.enabled then Disabled
      else Enabled(manager.decoder.value, manager.groupTimeout)
    }

    ghost function Groups(): Table
      reads this, manager
    {
      if manager == null then map[] else manager.table
    }

    /** Loss counters and analyzer see data datagrams only; `ok` says that the receiver goes on. */
    method Count(h: Header) returns (ok: bool)
      requires analyzer.Valid()
      modifies stats, analyzer, analyzer.sims
      ensures analyzer.Valid() && analyzer.sims == old(analyzer.sims)
      ensures ok <==> LossWindow.Defined(old(stats.Value()), h.seqNum)
      ensures stats.Value() == Tallied(old(stats.Value()), h.seqNum)
      ensures analyzer.told == old(analyzer.told) + if ok then old(analyzer.News(h.seqNum)) else []
    {
      ok := stats.Record(h.seqNum);
      if ok {
        analyzer.RecordPacket(h.seqNum);
      }
    }

    /** Count the datagram unless it is parity. */
    method CountData(h: Header) returns (ok: bool)
      requires analyzer.Valid()
      modifies stats, analyzer, analyzer.sims
      ensures analyzer.Valid() && analyzer.sims == old(analyzer.sims)
      ensures ok <==> IsParity(h.fecInfo) || LossWindow.Defined(old(stats.Value()), h.seqNum)
      ensures stats.Value() == if IsParity(h.fecInfo) then old(stats.Value()) else Tallied(old(stats.Value()), h.seqNum)
      ensures analyzer.told == old(analyzer.told) + if ok && !IsParity(h.fecInfo) then old(analyzer.News(h.seqNum)) else []
    {
      UnpackIsField(h.fecInfo);
      ok := true;
      if And(h.fecInfo, 0x8000) == 0 {
        ok := Count(h);
      }
    }

    /** Trim, decrypt and emit every released packet. */
    method EmitReleased(release: seq<Bytes>) returns (emitted: seq<Bytes>)
      ensures emitted == EmitAll(aead, release)
    {
      emitted := [];
      var i := 0;
      while i < |release|
        invariant i <= |release| && emitted == EmitAll(aead, release[..i])
      {
        assert release[..i + 1][..i] == release[..i];
        var pkt := release[i];
        i := i + 1;
        var h := Deserialize(pkt);
        if h.None? {
          continue;
        }
        var body := pkt[HEADER_SIZE..];
        if |body| < h.value.payloadLen {
          continue;
        }
        var trimmed := body[..h.value.payloadLen];
        var actual := trimmed;
        if aead.Some? {
          var plain := Decrypt(aead.value, trimmed);
          if plain.None? {
            continue;
          }
          actual := plain.value;
        }
        if |actual| > 0 {
          emitted := emitted + [actual];
        }
      }
      assert release[..i] == release;
    }

    /** The FEC stage of the loop. */
    method Decode(d: Bytes, info: uint16, now: int) returns (release: seq<Bytes>)
      requires Valid() && Accepted(d) && Deserialize(d).value.fecInfo == info
      modifies manager, if manager == null then {} else manager.groups.Values
      ensures manager != null ==> manager.Valid() && fresh(manager.groups.Values - old(if manager == null then {} else manager.groups.Values))
      ensures (Groups(), release) == Release(CurrentMode(), old(Groups()), d, now)
    {
      UnpackIsField(info);
      var isFEC := And(info, 0x8000) != 0;
      if manager != null {
        var groupNum := And(Shr(info, 4), 0x7FF);
        var index := And(info, 0x0F);
        var fecInput := if isFEC then d[HEADER_SIZE..] else d;
        var error;
        release, error := manager.AddPacket(fecInput, isFEC, groupNum, index, now);
      } else {
        release := [];
        if !isFEC {
          release := [d];
        }
      }
    }

    /** The FEC stage and the emission behind it. */
    method Forward(d: Bytes, info: uint16, now: int) returns (emitted: seq<Bytes>)
      requires Valid() && Accepted(d) && Deserialize(d).value.fecInfo == info
      modifies manager, if manager == null then {} else manager.groups.Values
      ensures Valid()
      ensures manager != null ==> fresh(manager.groups.Values - old(if manager == null then {} else manager.groups.Values))
      ensures (Groups(), emitted) == Receive(CurrentMode(), aead, old(Groups()), d, now)
    {
      var release := Decode(d, info, now);
      emitted := EmitReleased(release);
    }

    /** One pass of the receive loop; `ok` says that the receiver goes on. */
    method HandleDatagram(d: Bytes, now: int) returns (emitted: seq<Bytes>, ok: bool)
      requires Valid()
      modifies stats, analyzer, analyzer.sims, manager, if manager == null then {} else manager.groups.Values
      ensures Valid() && analyzer.sims == old(analyzer.sims)
      ensures manager != null ==> fresh(manager.groups.Values - old(if manager == null then {} else manager.groups.Values))
      ensures ok <==> !Stops(old(stats.Value()), d)
      ensures ok ==> (Groups(), emitted) == Receive(CurrentMode(), aead, old(Groups()), d, now)
      ensures !ok ==> Groups() == old(Groups()) && emitted == []
      ensures stats.Value() == if Counted(d) then Tallied(old(stats.Value()), SeqOf(d)) else old(stats.Value())
      ensures analyzer.told == old(analyzer.told) + if ok && Counted(d) then old(analyzer.News(SeqOf(d))) else []
    {
      emitted, ok := [], true;
      if |d| < HEADER_SIZE {
        return;
      }
      var h := Deserialize(d).value;
      MajorIsShifted(h.version);
      if Shr(h.version, 4) != MAJOR_VERSION {
        return;
      }
      ok := CountData(h);
      if !ok {
        return;
      }
      emitted := Forward(d, h.fecInfo, now);
    }

    /** The loop began at `start` and has read `ds`: the statistics, the table,
        what was emitted and what the analyzer heard are those of `ds`. */
    ghost predicate Reached(start: Begun, ds: seq<Bytes>, clock: int -> int, emitted: seq<Bytes>)
      requires Valid()
      reads this, stats, analyzer, analyzer.sims, manager, if manager == null then {} else manager.groups.Values
    {
      Progress(CurrentMode(), aead, analyzer.enabled, start, ds, clock, Now(), emitted)
    }

    ghost function Now(): Begun
      reads this, stats, analyzer, manager
    {
      Begun(stats.Value(), Groups(), AnalyzerState.HeardIn(analyzer.told))
    }

    /** One pass of the loop. */
    method Next(ghost start: Begun, ds: seq<Bytes>, clock: int -> int, i: nat, ghost emitted: seq<Bytes>)
      returns (more: seq<Bytes>, ok: bool)
      requires i < |ds| && Valid() && Reached(start, ds[..i], clock, emitted)
      modifies stats, analyzer, analyzer.sims, manager, if manager == null then {} else manager.groups.Values
      ensures Valid() && analyzer.sims == old(analyzer.sims)
      ensures manager != null ==> fresh(manager.groups.Values - old(if manager == null then {} else manager.groups.Values))
      ensures ok ==> Reached(start, ds[..i + 1], clock, emitted + more)
      ensures !ok ==> Tally(start.stats, ds).None?
    {
      ghost var before, told := Now(), analyzer.told;
      more, ok := HandleDatagram(ds[i], clock(i));
      HeardMore(told, analyzer.told, ds[i], ok && Counted(ds[i]) && analyzer.enabled);
      TallyAt(start.stats, ds, i);
      if ok { ProgressStep(CurrentMode(), aead, analyzer.enabled, start, ds, i, clock, before, Now(), emitted, more); }
    }

    /** The loop over the datagrams read from the socket; `ok` says that it gets through. */
    method Listen(ds: seq<Bytes>, clock: int -> int) returns (emitted: seq<Bytes>, ok: bool)
      requires Valid()
      modifies stats, analyzer, analyzer.sims, manager, if manager == null then {} else manager.groups.Values
      ensures Valid() && (ok <==> Tally(old(stats.Value()), ds).Some?)
      ensures ok ==> Reached(old(Now()), ds, clock, emitted)
    {
      emitted, ok := [], true;
      ghost var start := Now();
      ProgressStart(CurrentMode(), aead, analyzer.enabled, start, ds, clock);
      var i := 0;
      while i < |ds|
        invariant i <= |ds| && Valid() && Reached(start, ds[..i], clock, emitted)
        invariant manager != null ==> fresh(manager.groups.Values - old(if manager == null then {} else manager.groups.Values))
        invariant analyzer.sims == old(analyzer.sims)
      {
        var more;
        more, ok := Next(start, ds, clock, i, emitted);
        if !ok {
          emitted := emitted + more;
          return;
        }
        emitted, i := emitted + more, i + 1;
      }
      assert ds[..i] == ds;
    }
  }

  /** Where a loop begins. */
  datatype Begun = Begun(stats: LossWindow.Window, table: Table, heard: set<nat>)

  /** Only accepted data datagrams reach the loss counters and the analyzer. */
  predicate Counted(d: Bytes) {
    Accepted(d) && !IsParity(Deserialize(d).value.fecInfo)
  }

  /** The sequence numbers counted. */
  function Numbers(ds: seq<Bytes>): set<nat> {
    set d | d in ds && Counted(d) :: SeqOf(d)
  }

  /** From `start`, the datagrams `ds` lead to `now` with `emitted`. */
  ghost predicate Progress(m: Mode, aead: Option<Aead>, hears: bool, start: Begun, ds: seq<Bytes>, clock: int -> int,
                           now: Begun, emitted: seq<Bytes>)
  {
    && ModeOk(m, start.table)
    && Tally(start.stats, ds) == Some(now.stats)
    && (now.table, emitted) == ReceiveAll(m, aead, start.table, ds, clock)
    && now.heard == start.heard + if hears then Numbers(ds) else {}
  }

  lemma ProgressStart(m: Mode, aead: Option<Aead>, hears: bool, start: Begun, ds: seq<Bytes>, clock: int -> int)
    requires ModeOk(m, start.table)
    ensures Progress(m, aead, hears, start, ds[..0], clock, start, [])
  {
  }

  lemma ProgressStep(m: Mode, aead: Option<Aead>, hears: bool, start: Begun, ds: seq<Bytes>, i: nat, clock: int -> int,
                     now: Begun, next: Begun, emitted: seq<Bytes>, more: seq<Bytes>)
    requires i < |ds| && Progress(m, aead, hears, start, ds[..i], clock, now, emitted)
    requires ModeOk(m, now.table) && !Stops(now.stats, ds[i])
    requires next.stats == if Counted(ds[i]) then Tallied(now.stats, SeqOf(ds[i])) else now.stats
    requires (next.table, more) == Receive(m, aead, now.table, ds[i], clock(i))
    requires next.heard == now.heard + if hears && Counted(ds[i]) then {SeqOf(ds[i]) as nat} else {}
    ensures Progress(m, aead, hears, start, ds[..i + 1], clock, next, emitted + more)
  {
    assert ds[..i + 1] == ds[..i] + [ds[i]];
    TallySnoc(start.stats, ds[..i], ds[i]);
    ReceiveSnoc(m, aead, start.table, ds[..i], ds[i], clock);
    NumbersSnoc(ds[..i], ds[i]);
  }

  lemma HeardMore(before: seq<AnalyzerState.Notice>, after: seq<AnalyzerState.Notice>, d: Bytes, counts: bool)
    requires counts ==> Accepted(d)
    requires before <= after
    requires var more := after[|before|..];
      if !counts then more == []
      else more != [] && more[|more| - 1] == AnalyzerState.Notice(SeqOf(d), false)
           && forall t :: 0 <= t < |more| - 1 ==> more[t].isLost
    ensures AnalyzerState.HeardIn(after) == AnalyzerState.HeardIn(before) + if counts then {SeqOf(d) as nat} else {}
  {
    var more := after[|before|..];
    assert after == before + more;
    if counts {
      assert AnalyzerState.Notice(SeqOf(d), false) in after;
      forall r | r in after && !r.isLost
        ensures r in before || r.seqNum == SeqOf(d)
      {
        if r in more {
          var t :| 0 <= t < |more| && more[t] == r;
        }
      }
    }
  }

  lemma NumbersSnoc(ds: seq<Bytes>, d: Bytes)
    ensures Numbers(ds + [d]) == Numbers(ds) + if Counted(d) then {SeqOf(d) as nat} else {}
  {
    assert forall x :: x in ds + [d] <==> x in ds || x == d;
  }

  function SeqOf(d: Bytes): uint32
    requires Accepted(d)
  {
    Deserialize(d).value.seqNum
  }

  /** The loss statistics after trying to count a number. */
  function Tallied(w: LossWindow.Window, s: uint32): LossWindow.Window {
    if LossWindow.Defined(w, s) then LossWindow.Update(w, s) else w.(total := w.total + 1)
  }

  /** Counting the datagram would stop the receiver. */
  predicate Stops(w: LossWindow.Window, d: Bytes) {
    Counted(d) && !LossWindow.Defined(w, SeqOf(d))
  }

  /** The loss statistics after the datagrams, or none if one of them stops the receiver. */
  function Tally(w: LossWindow.Window, ds: seq<Bytes>): Option<LossWindow.Window> {
    if ds == [] then Some(w)
    else
      var before, d := Tally(w, ds[..|ds| - 1]), ds[|ds| - 1];
      if before.None? || Stops(before.value, d) then None
      else if Counted(d) then Some(LossWindow.Update(before.value, SeqOf(d)))
      else before
  }

  lemma TallySnoc(w: LossWindow.Window, ds: seq<Bytes>, d: Bytes)
    ensures Tally(w, ds + [d]) ==
      var before := Tally(w, ds);
      if before.None? || Stops(before.value, d) then None
      else if Counted(d) then Some(LossWindow.Update(before.value, SeqOf(d)))
      else before
  {
    assert (ds + [d])[..|ds|] == ds;
  }

  /** A datagram that stops the receiver leaves no statistics behind. */
  lemma TallyAt(w: LossWindow.Window, ds: seq<Bytes>, i: nat)
    requires i < |ds| && Tally(w, ds[..i]).Some?
    ensures Stops(Tally(w, ds[..i]).value, ds[i]) ==> Tally(w, ds).None?
  {
    assert ds[..i + 1] == ds[..i] + [ds[i]];
    TallySnoc(w, ds[..i], ds[i]);
    if Stops(Tally(w, ds[..i]).value, ds[i]) { StoppedStays(w, ds, i + 1); }
  }

  lemma StoppedStays(w: LossWindow.Window, ds: seq<Bytes>, m: nat)
    requires m <= |ds| && Tally(w, ds[..m]).None?
    ensures Tally(w, ds).None?
  {
    if m == |ds| {
      assert ds[..m] == ds;
    } else {
      assert ds[..|ds| - 1][..m] == ds[..m];
      StoppedStays(w, ds[..|ds| - 1], m);
    }
  }

  lemma MajorIsShifted(v: byte)
    ensures Shr(v, 4) == v / 16
  {
    assert Pow2(4) == 16;
  }

  /** Exactly the datagrams are accepted that have a whole header and a version
      byte of major version zero, whatever the minor version; others yield
      nothing, leave the groups alone and are not counted. */
  lemma {:induction false} AcceptedIff(m: Mode, aead: Option<Aead>, t: Table, d: Bytes, now: int)
    requires ModeOk(m, t)
    ensures Accepted(d) <==> |d| >= 17 && d[0] < 16
    ensures !(|d| >= 17 && d[0] < 16) ==> Receive(m, aead, t, d, now) == (t, []) && !Counted(d)
  {
    if |d| >= 17 { VersionIsFirst(d); }
  }

  lemma VersionIsFirst(d: Bytes)
    requires |d| >= HEADER_SIZE
    ensures Deserialize(d).Some? && Deserialize(d).value.version == d[0]
  {
    var b := d[..HEADER_SIZE][0..1];
    assert b == [d[0]];
    assert FromBE(b) == FromBE([]) * 256 + d[0] as int by { assert b[..0] == []; }
  }
}
