/** Control packets: framing and payload codecs. */
module Control {
  import opened Words
  import H = Header

  const REGISTER: byte := 1
  const REGISTER_ACK: byte := 2
  const KEEP_ALIVE: byte := 3
  const LEAVE: byte := 4
  const AUTH_CHALLENGE: byte := 6
  const AUTH_RESPONSE: byte := 7
  const AUTH_RESULT: byte := 8

  const SUCCESS: byte := 0
  const DENIED: byte := 1

  datatype Error = TooShort | TooLarge | InvalidType | Mismatch

  datatype Result<T> = Ok(value: T) | Err(error: Error)

  datatype Packet = Packet(kind: byte, payload: Bytes)

  function ParsePacket(data: Bytes): Result<Packet> {
    if |data| > 1024 then Err(TooLarge)
    else if |data| < 3 then Err(TooShort)
    else if data[0] < REGISTER || data[0] > AUTH_RESULT then Err(InvalidType)
    else
      var len := FromBE(data[1..3]);
      if |data| - 3 < len then Err(Mismatch)
      else
        NoWrap(data);
        Ok(Packet(data[0], data[3..(3 + len) % 0x1_0000]))
  }

  /** The 16-bit sum that bounds the payload slice cannot wrap. */
  lemma NoWrap(data: Bytes)
    requires 3 <= |data| <= 1024 && FromBE(data[1..3]) <= |data| - 3
    ensures (3 + FromBE(data[1..3])) % 0x1_0000 == 3 + FromBE(data[1..3]) <= |data|
  {
  }

  /** The wire image of a control packet. */
  function Image(kind: byte, payload: Bytes): Bytes {
    [kind] + BE(|payload|, 2) + payload
  }

  /** Copy `src` into `buf` at `off`. */
  method CopyInto(buf: array<byte>, off: nat, src: Bytes)
    requires off + |src| <= buf.Length
    modifies buf
    ensures buf[..] == old(buf[..off]) + src + old(buf[off + |src|..])
  {
    var i := 0;
    while i < |src|
      invariant i <= |src|
      invariant buf[..off] == old(buf[..off]) && buf[off + |src|..] == old(buf[off + |src|..])
      invariant buf[off..off + i] == src[..i]
    {
      buf[off + i] := src[i];
      i := i + 1;
    }
    assert buf[..] == buf[..off] + buf[off..off + |src|] + buf[off + |src|..];
  }

  method BuildPacket(kind: byte, payload: Bytes) returns (data: array<byte>)
    ensures fresh(data) && data[..] == Image(kind, payload)
  {
    data := new byte[3 + |payload|](_ => 0);
    data[0] := kind;
    H.PutUint(data, 1, 2, |payload|);
    CopyInto(data, 3, payload);
  }

  /** Parsing accepts exactly the buffers of at most 1024 bytes that start with
      the image of a packet of known type, and yields that packet. */
  lemma {:induction false} ParseIff(data: Bytes, p: Packet)
    ensures ParsePacket(data) == Ok(p)
      <==> |data| <= 1024 && REGISTER <= p.kind <= AUTH_RESULT && Image(p.kind, p.payload) <= data
  {
    if ParsePacket(data) == Ok(p) {
      ParsedImage(data, p);
    } else if |data| <= 1024 && REGISTER <= p.kind <= AUTH_RESULT && Image(p.kind, p.payload) <= data {
      ImageParses(data, p);
    }
  }

  lemma ParsedImage(data: Bytes, p: Packet)
    requires ParsePacket(data) == Ok(p)
    ensures |data| <= 1024 && REGISTER <= p.kind <= AUTH_RESULT && Image(p.kind, p.payload) <= data
  {
    BEOfFromBE(data[1..3]);
    NoWrap(data);
    assert Image(p.kind, p.payload) == data[..3 + |p.payload|];
  }

  lemma ImageParses(data: Bytes, p: Packet)
    requires |data| <= 1024 && REGISTER <= p.kind <= AUTH_RESULT && Image(p.kind, p.payload) <= data
    ensures ParsePacket(data) == Ok(p)
  {
    H.Pow256Values();
    FromBEOfBE(|p.payload|, 2);
    assert data[1..3] == Image(p.kind, p.payload)[1..3] == BE(|p.payload|, 2);
    assert data[3..3 + |p.payload|] == Image(p.kind, p.payload)[3..] == p.payload;
  }

  /** A built packet parses back to its fields exactly when its type is known
      and its payload is at most 1021 bytes long. */
  lemma {:induction false} ParseBuiltIff(kind: byte, payload: Bytes)
    ensures ParsePacket(Image(kind, payload)) == Ok(Packet(kind, payload))
      <==> REGISTER <= kind <= AUTH_RESULT && |payload| <= 1021
  {
    ParseIff(Image(kind, payload), Packet(kind, payload));
  }

  // ---- Registration -------------------------------------------------------

  datatype Register = Register(dataPort: uint16, version: Bytes, ip: Bytes)

  function RegisterImage(r: Register): Bytes {
    BE(r.dataPort, 2) + [|r.version| % 256] + r.version + [|r.ip| % 256] + r.ip
  }

  method EncodeRegisterPayload(r: Register) returns (payload: array<byte>)
    ensures fresh(payload) && payload[..] == RegisterImage(r)
  {
    payload := new byte[4 + |r.version| + |r.ip|](_ => 0);
    H.PutUint(payload, 0, 2, r.dataPort);
    payload[2] := |r.version| % 256;
    CopyInto(payload, 3, r.version);
    ghost var head := payload[..3 + |r.version|];
    assert head == BE(r.dataPort, 2) + [|r.version| % 256] + r.version;
    payload[3 + |r.version|] := |r.ip| % 256;
    assert payload[..4 + |r.version|] == head + [|r.ip| % 256];
    CopyInto(payload, 4 + |r.version|, r.ip);
  }

  function DecodeRegisterPayload(p: Bytes): Result<Register> {
    if |p| < 4 then Err(TooShort)
    else
      var vLen: nat := p[2];
      if |p| < 3 + vLen + 1 then Err(Mismatch)
      else
        var idx := 3 + vLen;
        var ipLen: nat := p[idx];
        if |p| < idx + 1 + ipLen then Err(Mismatch)
        else
          PortFits(p[0..2]);
          Ok(Register(FromBE(p[0..2]), p[3..3 + vLen], p[idx + 1..idx + 1 + ipLen]))
  }

  lemma PortFits(b: Bytes)
    requires |b| == 2
    ensures FromBE(b) < 0x1_0000
  {
    FromBEBound(b);
    H.Pow256Values();
  }

  lemma RegisterParts(r: Register)
    requires |r.version| <= 255 && |r.ip| <= 255
    ensures var m, idx := RegisterImage(r), 3 + |r.version|;
      && |m| == idx + 1 + |r.ip| && m[0..2] == BE(r.dataPort, 2) && m[2] == |r.version| && m[3..idx] == r.version
      && m[idx] == |r.ip| && m[idx + 1..idx + 1 + |r.ip|] == r.ip
  {
  }

  lemma DecodeRegisterImage(p: Bytes, r: Register)
    requires |r.version| <= 255 && |r.ip| <= 255 && RegisterImage(r) <= p
    ensures DecodeRegisterPayload(p) == Ok(r)
  {
    H.Pow256Values();
    FromBEOfBE(r.dataPort, 2);
    RegisterParts(r);
    var m, idx := RegisterImage(r), 3 + |r.version|;
    assert p[..|m|] == m;
    assert p[0..2] == m[0..2] && p[3..idx] == m[3..idx] && p[idx + 1..idx + 1 + |r.ip|] == m[idx + 1..idx + 1 + |r.ip|];
  }

  /** Decoding accepts exactly the payloads that start with the image of a
      registration whose strings have at most 255 bytes, and yields it. */
  lemma {:induction false} DecodeRegisterIff(p: Bytes, r: Register)
    ensures DecodeRegisterPayload(p) == Ok(r)
      <==> |r.version| <= 255 && |r.ip| <= 255 && RegisterImage(r) <= p
  {
    if DecodeRegisterPayload(p) == Ok(r) {
      BEOfFromBE(p[0..2]);
      assert RegisterImage(r) == p[..4 + |r.version| + |r.ip|];
    } else if |r.version| <= 255 && |r.ip| <= 255 && RegisterImage(r) <= p {
      DecodeRegisterImage(p, r);
    }
  }

  /** A registration survives encoding exactly when both strings have at most 255 bytes. */
  lemma {:induction false} RegisterRoundTripIff(r: Register)
    ensures DecodeRegisterPayload(RegisterImage(r)) == Ok(r) <==> |r.version| <= 255 && |r.ip| <= 255
  {
    DecodeRegisterIff(RegisterImage(r), r);
  }

  function RegisterAckImage(status: byte, k: byte, n: byte): Bytes {
    [status, k, n]
  }

  /** Older senders may leave out k and n. */
  function DecodeRegisterAckPayload(p: Bytes): Result<(byte, byte, byte)> {
    if |p| < 1 then Err(TooShort)
    else if |p| >= 3 then Ok((p[0], p[1], p[2]))
    else Ok((p[0], 0, 0))
  }

  // ---- Challenge, response, result ----------------------------------------

  /** The first `len` bytes of `src`, zero-filled. */
  function Fixed(src: Bytes, len: nat): (r: Bytes)
    ensures |r| == len
  {
    if |src| >= len then src[..len] else Pad(src, len)
  }

  function ChallengeImage(randA: Bytes, t1: int64): Bytes {
    Fixed(randA, 32) + BE(ToUint64(t1), 8)
  }

  method EncodeAuthChallengePayload(randA: Bytes, t1: int64) returns (payload: array<byte>)
    ensures fresh(payload) && payload[..] == ChallengeImage(randA, t1)
  {
    payload := new byte[40](_ => 0);
    CopyInto(payload, 0, if |randA| >= 32 then randA[..32] else randA);
    assert payload[..32] == Fixed(randA, 32);
    H.PutUint(payload, 32, 8, ToUint64(t1));
  }

  function DecodeAuthChallengePayload(p: Bytes): Result<(Bytes, int64)> {
    if |p| < 40 then Err(TooShort)
    else
      TimeFits(p[32..40]);
      Ok((p[0..32], ToInt64(FromBE(p[32..40]))))
  }

  lemma TimeFits(b: Bytes)
    requires |b| == 8
    ensures FromBE(b) < 0x1_0000_0000_0000_0000
  {
    FromBEBound(b);
    H.Pow256Values();
  }

  lemma TimeRoundTrip(t: int64)
    ensures FromBE(BE(ToUint64(t), 8)) == ToUint64(t) && ToInt64(ToUint64(t)) == t
  {
    H.Pow256Values();
    FromBEOfBE(ToUint64(t), 8);
  }

  function ResponseImage(mac: Bytes, t2: int64, t3: int64): Bytes {
    Fixed(mac, 32) + BE(ToUint64(t2), 8) + BE(ToUint64(t3), 8)
  }

  method EncodeAuthResponsePayload(mac: Bytes, t2: int64, t3: int64) returns (payload: array<byte>)
    ensures fresh(payload) && payload[..] == ResponseImage(mac, t2, t3)
  {
    payload := new byte[48](_ => 0);
    CopyInto(payload, 0, if |mac| >= 32 then mac[..32] else mac);
    assert payload[..32] == Fixed(mac, 32);
    H.PutUint(payload, 32, 8, ToUint64(t2));
    H.PutUint(payload, 40, 8, ToUint64(t3));
  }

  function DecodeAuthResponsePayload(p: Bytes): Result<(Bytes, int64, int64)> {
    if |p| < 48 then Err(TooShort)
    else
      TimeFits(p[32..40]);
      TimeFits(p[40..48]);
      Ok((p[0..32], ToInt64(FromBE(p[32..40])), ToInt64(FromBE(p[40..48]))))
  }

  function ResultImage(status: byte, t4: int64, k: byte, n: byte): Bytes {
    [status] + BE(ToUint64(t4), 8) + [k] + [n]
  }

  method EncodeAuthResultPayload(status: byte, t4: int64, k: byte, n: byte) returns (payload: array<byte>)
    ensures fresh(payload) && payload[..] == ResultImage(status, t4, k, n)
  {
    payload := new byte[11](_ => 0);
    payload[0] := status;
    H.PutUint(payload, 1, 8, ToUint64(t4));
    payload[9] := k;
    payload[10] := n;
  }

  function DecodeAuthResultPayload(p: Bytes): Result<(byte, int64, byte, byte)> {
    if |p| < 11 then Err(TooShort)
    else
      TimeFits(p[1..9]);
      Ok((p[0], ToInt64(FromBE(p[1..9])), p[9], p[10]))
  }

  /** The wire form of a time stamp, both ways. */
  lemma TimeIff(b: Bytes, t: int64)
    requires |b| == 8
    ensures FromBE(b) < 0x1_0000_0000_0000_0000
    ensures ToInt64(FromBE(b)) == t <==> b == BE(ToUint64(t), 8)
  {
    TimeFits(b);
    TimeRoundTrip(t);
    if ToInt64(FromBE(b)) == t {
      assert ToUint64(t) == FromBE(b);
      BEOfFromBE(b);
    }
  }

  /** A challenge decodes exactly from what starts with its image. */
  lemma {:induction false} DecodeChallengeIff(p: Bytes, randA: Bytes, t1: int64)
    ensures DecodeAuthChallengePayload(p) == Ok((randA, t1)) <==> |randA| == 32 && ChallengeImage(randA, t1) <= p
  {
    if |p| >= 40 {
      TimeIff(p[32..40], t1);
      assert p[..40] == p[0..32] + p[32..40];
      if |randA| == 32 { assert ChallengeImage(randA, t1)[0..32] == randA && ChallengeImage(randA, t1)[32..40] == BE(ToUint64(t1), 8); }
      if ChallengeImage(randA, t1) <= p { assert p[..40] == ChallengeImage(randA, t1); }
    }
  }

  /** A response decodes exactly from what starts with its image. */
  lemma {:induction false} DecodeResponseIff(p: Bytes, mac: Bytes, t2: int64, t3: int64)
    ensures DecodeAuthResponsePayload(p) == Ok((mac, t2, t3)) <==> |mac| == 32 && ResponseImage(mac, t2, t3) <= p
  {
    if |p| >= 48 {
      TimeIff(p[32..40], t2);
      TimeIff(p[40..48], t3);
      assert p[..48] == p[0..32] + p[32..40] + p[40..48];
      if |mac| == 32 && ResponseImage(mac, t2, t3) <= p {
        ResponseParts(mac, t2, t3);
        assert p[..48] == ResponseImage(mac, t2, t3);
        assert p[0..32] == p[..48][0..32] && p[32..40] == p[..48][32..40] && p[40..48] == p[..48][40..48];
      }
    }
  }

  lemma ResponseParts(mac: Bytes, t2: int64, t3: int64)
    requires |mac| == 32
    ensures var m := ResponseImage(mac, t2, t3);
      |m| == 48 && m[0..32] == mac && m[32..40] == BE(ToUint64(t2), 8) && m[40..48] == BE(ToUint64(t3), 8)
  {
  }

  /** A result decodes exactly from what starts with its image. */
  lemma {:induction false} DecodeResultIff(p: Bytes, status: byte, t4: int64, k: byte, n: byte)
    ensures DecodeAuthResultPayload(p) == Ok((status, t4, k, n)) <==> ResultImage(status, t4, k, n) <= p
  {
    var m := ResultImage(status, t4, k, n);
    assert |m| == 11 && m[0] == status && m[1..9] == BE(ToUint64(t4), 8) && m[9] == k && m[10] == n;
    if |p| >= 11 {
      TimeIff(p[1..9], t4);
      assert p[..11] == [p[0]] + p[1..9] + [p[9]] + [p[10]];
      if m <= p { assert p[..11] == m; }
    }
  }

  /** An acknowledgement decodes exactly from what starts with its image, or, with
      a code of (0, 0), from a status byte followed by at most one more. */
  lemma {:induction false} DecodeAckIff(p: Bytes, status: byte, k: byte, n: byte)
    ensures DecodeRegisterAckPayload(p) == Ok((status, k, n)) <==>
      RegisterAckImage(status, k, n) <= p || ((|p| == 1 || |p| == 2) && p[0] == status && k == 0 && n == 0)
  {
    if |p| >= 3 { assert p[..3] == [p[0]] + [p[1]] + [p[2]]; }
  }

  /** Every authentication payload decodes to the fields it was made from, provided
      the random value or the proof has 32 bytes. */
  lemma {:induction false} AuthRoundTrips(secret: Bytes, t: int64, u: int64, status: byte, k: byte, n: byte)
    ensures DecodeAuthChallengePayload(ChallengeImage(secret, t)) == Ok((secret, t)) <==> |secret| == 32
    ensures DecodeAuthResponsePayload(ResponseImage(secret, t, u)) == Ok((secret, t, u)) <==> |secret| == 32
    ensures DecodeAuthResultPayload(ResultImage(status, t, k, n)) == Ok((status, t, k, n))
    ensures DecodeRegisterAckPayload(RegisterAckImage(status, k, n)) == Ok((status, k, n))
  {
    DecodeChallengeIff(ChallengeImage(secret, t), secret, t);
    DecodeResponseIff(ResponseImage(secret, t, u), secret, t, u);
    DecodeResultIff(ResultImage(status, t, k, n), status, t, k, n);
  }
}
