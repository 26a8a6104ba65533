/** The 17-byte encapsulation header and the 16-bit FEC field it carries. */
module Header {
  import opened Words
  import opened Wrappers

  const HEADER_SIZE := 17
  const MAJOR_VERSION := 0
  const MINOR_VERSION := 8
  const CURRENT_VERSION: byte := 16 * MAJOR_VERSION + MINOR_VERSION

  datatype Header = Header(version: byte, seqNum: uint32, timestamp: int64, payloadLen: uint16, fecInfo: uint16)

  /** The wire image of a header. */
  function Image(h: Header): (b: Bytes)
    ensures |b| == HEADER_SIZE
  {
    BE(h.version, 1) + BE(h.seqNum, 4) + BE(ToUint64(h.timestamp), 8) + BE(h.payloadLen, 2) + BE(h.fecInfo, 2)
  }

  /** Store the `n` low bytes of `v` at `buf[off..off + n]`, most significant first. */
  method PutUint(buf: array<byte>, off: nat, n: nat, v: nat)
    requires off + n <= buf.Length
    modifies buf
    ensures buf[..] == old(buf[..off]) + BE(v, n) + old(buf[off + n..])
  {
    var i, w := n, v;
    while i > 0
      invariant 0 <= i <= n
      invariant buf[..off] == old(buf[..off]) && buf[off + n..] == old(buf[off + n..])
      invariant BE(w, i) + buf[off + i..off + n] == BE(v, n)
    {
      i := i - 1;
      ghost var tail := buf[off + i + 1..off + n];
      buf[off + i] := w % 256;
      assert buf[off + i..off + n] == [w % 256] + tail;
      assert BE(w, i + 1) + tail == BE(w / 256, i) + ([w % 256] + tail);
      w := w / 256;
    }
    assert buf[off..off + n] == BE(v, n);
    assert buf[..] == buf[..off] + buf[off..off + n] + buf[off + n..];
  }

  method Serialize(h: Header) returns (buf: array<byte>)
    ensures fresh(buf)
    ensures buf[..] == Image(h)
  {
    buf := new byte[HEADER_SIZE](_ => 0);
    PutUint(buf, 0, 1, h.version);
    assert buf[..1] == BE(h.version, 1);
    PutUint(buf, 1, 4, h.seqNum);
    assert buf[..5] == BE(h.version, 1) + BE(h.seqNum, 4);
    PutUint(buf, 5, 8, ToUint64(h.timestamp));
    assert buf[..13] == BE(h.version, 1) + BE(h.seqNum, 4) + BE(ToUint64(h.timestamp), 8);
    PutUint(buf, 13, 2, h.payloadLen);
    assert buf[..15] == BE(h.version, 1) + BE(h.seqNum, 4) + BE(ToUint64(h.timestamp), 8) + BE(h.payloadLen, 2);
    PutUint(buf, 15, 2, h.fecInfo);
  }

  lemma FieldBounds(b: Bytes)
    requires |b| == HEADER_SIZE
    ensures FromBE(b[0..1]) < 0x100 && FromBE(b[1..5]) < 0x1_0000_0000
    ensures FromBE(b[5..13]) < 0x1_0000_0000_0000_0000
    ensures FromBE(b[13..15]) < 0x1_0000 && FromBE(b[15..17]) < 0x1_0000
  {
    FromBEBound(b[0..1]);
    FromBEBound(b[1..5]);
    FromBEBound(b[5..13]);
    FromBEBound(b[13..15]);
    FromBEBound(b[15..17]);
    Pow256Values();
  }

  lemma Pow256Values()
    ensures Pow256(1) == 0x100 && Pow256(2) == 0x1_0000 && Pow256(4) == 0x1_0000_0000
    ensures Pow256(8) == 0x1_0000_0000_0000_0000
  {
  }

  /** Parse the first 17 bytes; a shorter buffer is an error. */
  function Deserialize(buf: Bytes): Option<Header> {
    if |buf| < HEADER_SIZE then None
    else
      var b := buf[..HEADER_SIZE];
      FieldBounds(b);
      Some(Header(FromBE(b[0..1]), FromBE(b[1..5]), ToInt64(FromBE(b[5..13])), FromBE(b[13..15]), FromBE(b[15..17])))
  }

  /** Whatever follows it, a serialised header is read back unchanged. */
  lemma {:induction false} DeserializeImage(h: Header, rest: Bytes)
    ensures Deserialize(Image(h) + rest) == Some(h)
  {
    Pow256Values();
    var b := (Image(h) + rest)[..HEADER_SIZE];
    assert b == Image(h);
    assert b[0..1] == BE(h.version, 1) && b[1..5] == BE(h.seqNum, 4);
    assert b[5..13] == BE(ToUint64(h.timestamp), 8);
    assert b[13..15] == BE(h.payloadLen, 2) && b[15..17] == BE(h.fecInfo, 2);
    FromBEOfBE(h.version, 1);
    FromBEOfBE(h.seqNum, 4);
    FromBEOfBE(ToUint64(h.timestamp), 8);
    FromBEOfBE(h.payloadLen, 2);
    FromBEOfBE(h.fecInfo, 2);
  }

  /** Where each field lies on the wire. */
  lemma {:induction false} Layout(h: Header)
    ensures Image(h)[0] == h.version && FromBE(Image(h)[1..5]) == h.seqNum && FromBE(Image(h)[5..13]) == ToUint64(h.timestamp)
    ensures FromBE(Image(h)[13..15]) == h.payloadLen && FromBE(Image(h)[15..17]) == h.fecInfo
  {
    DeserializeImage(h, []);
    assert (Image(h) + [])[..HEADER_SIZE] == Image(h);
    Pow256Values();
    FromBEOfBE(ToUint64(h.timestamp), 8);
    assert Image(h)[5..13] == BE(ToUint64(h.timestamp), 8);
    assert Image(h)[0] == BE(h.version, 1)[0] == h.version % 256;
  }

  /** Every 17-byte buffer is the image of the header it parses to. */
  lemma {:induction false} ImageDeserialize(b: Bytes)
    requires |b| == HEADER_SIZE
    ensures Deserialize(b).Some? && Image(Deserialize(b).value) == b
  {
    assert b[..HEADER_SIZE] == b;
    FieldBounds(b);
    BEOfFromBE(b[0..1]);
    BEOfFromBE(b[1..5]);
    BEOfFromBE(b[5..13]);
    BEOfFromBE(b[13..15]);
    BEOfFromBE(b[15..17]);
    assert b == b[0..1] + b[1..5] + b[5..13] + b[13..15] + b[15..17];
  }

  // ---- The FEC field: flag (bit 15), group number (bits 14-4), index (bits 3-0)

  /** The field as numbers, for the indices that fit. */
  function FecField(parity: bool, groupNum: nat, index: nat): uint16
    requires groupNum < 2048 && index < 16
  {
    (if parity then 0x8000 else 0) + 16 * groupNum + index
  }

  predicate IsParity(fecInfo: uint16) {
    fecInfo >= 0x8000
  }

  function GroupOf(fecInfo: uint16): nat {
    fecInfo / 16 % 2048
  }

  function IndexOf(fecInfo: uint16): nat {
    fecInfo % 16
  }

  /** The field as the sender shifts and ors it together, for any index. */
  function PackData(groupNum: uint16, index: nat): nat {
    Or(Shl(groupNum, 4, 16), index % 0x1_0000)
  }

  function PackParity(groupNum: uint16, index: nat): nat {
    Or(Or(Shl(1, 15, 16), Shl(groupNum, 4, 16)), index % 0x1_0000)
  }

  lemma ShiftedGroup(g: uint16)
    requires g < 2048
    ensures Shl(g, 4, 16) == 16 * g
  {
    assert Pow2(16) == 0x1_0000 && Pow2(4) == 16;
  }

  lemma Truncated(i: nat)
    requires i < 0x1_0000
    ensures i % 0x1_0000 == i
  {
  }

  lemma OrIndex(x: nat, i: nat)
    requires i < 16
    ensures Or(16 * x, i) == 16 * x + i
  {
    assert Pow2(4) == 16;
    OrDisjoint(x, i, 4);
  }

  lemma OrFlag(x: nat)
    requires x < 0x8000
    ensures Or(0x8000, x) == 0x8000 + x
  {
    assert Pow2(15) == 0x8000;
    OrDisjoint(1, x, 15);
  }

  lemma PackDataIsSum(g: uint16, i: nat)
    requires g < 2048 && i < 16
    ensures PackData(g, i) == 16 * g + i
  {
    ShiftedGroup(g);
    OrIndex(g, i);
    Truncated(i);
  }

  lemma PackParityIsSum(g: uint16, i: nat)
    requires g < 2048 && i < 16
    ensures PackParity(g, i) == 0x8000 + 16 * g + i
  {
    ShiftedGroup(g);
    assert Pow2(15) == 0x8000 && Pow2(16) == 0x1_0000 && Shl(1, 15, 16) == 0x8000;
    OrFlag(16 * g);
    OrIndex(2048 + g, i);
    Truncated(i);
  }

  /** Up to sixteen packets a group, the shifts and ors of the sender build the field. */
  lemma PackIsField(g: uint16, i: nat)
    requires g < 2048 && i < 16
    ensures PackData(g, i) == FecField(false, g, i)
    ensures PackParity(g, i) == FecField(true, g, i)
  {
    PackDataIsSum(g, i);
    PackParityIsSum(g, i);
  }

  /** The shifts and masks of the receiver take any field apart. */
  lemma {:induction false} UnpackIsField(x: uint16)
    ensures (And(x, 0x8000) != 0) == IsParity(x)
    ensures And(Shr(x, 4), 0x7FF) == GroupOf(x)
    ensures And(x, 0x0F) == IndexOf(x)
  {
    FlagIs(x);
    GroupIs(x);
    IndexIs(x);
  }

  lemma FlagIs(x: uint16)
    ensures (And(x, 0x8000) != 0) == IsParity(x)
  {
    assert Pow2(15) == 0x8000;
    AndMaskIsBit(x, 15);
    BitIsDiv(x, 15);
  }

  lemma GroupIs(x: uint16)
    ensures And(Shr(x, 4), 0x7FF) == GroupOf(x)
  {
    assert Pow2(11) == 2048 && Pow2(4) == 16;
    AndLowMask(x / 16, 11);
  }

  lemma IndexIs(x: uint16)
    ensures And(x, 0x0F) == IndexOf(x)
  {
    assert Pow2(4) == 16;
    AndLowMask(x, 4);
  }

  lemma FieldParts(parity: bool, g: nat, i: nat)
    requires g < 2048 && i < 16
    ensures var x := FecField(parity, g, i); IsParity(x) == parity && GroupOf(x) == g && IndexOf(x) == i
  {
    assert FecField(parity, g, i) / 16 == (if parity then 2048 else 0) + g;
  }

  lemma PackFits(g: uint16, i: nat)
    ensures PackData(g, i) < 0x1_0000 && PackParity(g, i) < 0x1_0000
  {
    var s, x, f := Shl(g, 4, 16), i % 0x1_0000, Shl(1, 15, 16);
    assert Pow2(16) == 0x1_0000;
    OrFits(s, x, 16);
    OrFits(f, s, 16);
    OrFits(Or(f, s), x, 16);
  }

  /** The index survives the field exactly when it fits in four bits. */
  lemma IndexFitsIff(g: uint16, i: nat)
    requires g < 2048
    ensures PackData(g, i) < 0x1_0000 && (IndexOf(PackData(g, i)) == i <==> i < 16)
    ensures PackParity(g, i) < 0x1_0000 && (IndexOf(PackParity(g, i)) == i <==> i < 16)
  {
    PackFits(g, i);
    if i < 16 {
      PackIsField(g, i);
      FieldParts(false, g, i);
      FieldParts(true, g, i);
    }
  }
}
