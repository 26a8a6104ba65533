/** Unsigned machine words as natural numbers: the bitwise operators of the
    source (`|`, `&`, `<<`, `>>`) and big-endian byte strings, with the laws
    that relate them to arithmetic. */
module Words {

  type byte = x: int | 0 <= x < 0x100
  type uint16 = x: int | 0 <= x < 0x1_0000
  type uint32 = x: int | 0 <= x < 0x1_0000_0000
  type uint64 = x: int | 0 <= x < 0x1_0000_0000_0000_0000
  type int64 = x: int | -0x8000_0000_0000_0000 <= x < 0x8000_0000_0000_0000
  type Bytes = seq<byte>

  /** How many values a 32-bit word has. */
  const WRAP := 0x1_0000_0000

  function Pow2(m: nat): (p: nat)
    ensures p > 0
  {
    if m == 0 then 1 else 2 * Pow2(m - 1)
  }

  lemma Pow2Sum(a: nat, b: nat)
    ensures Pow2(a + b) == Pow2(a) * Pow2(b)
  {
    if a == 0 {
    } else {
      Pow2Sum(a - 1, b);
    }
  }

  lemma Pow2Word()
    ensures Pow2(16) == 0x1_0000 && Pow2(64) == 0x1_0000_0000_0000_0000
  {
    assert Pow2(4) == 16;
    Pow2Sum(4, 4);
    Pow2Sum(8, 8);
    Pow2Sum(16, 16);
    Pow2Sum(32, 32);
  }

  lemma Pow2Less(a: nat, b: nat)
    requires a < b
    ensures Pow2(a) < Pow2(b)
  {
    if a + 1 >= b {
    } else {
      Pow2Less(a, b - 1);
    }
  }

  /** Bit `i` of a word. */
  predicate Bit(w: nat, i: nat) {
    if i == 0 then w % 2 == 1 else Bit(w / 2, i - 1)
  }

  function Or(a: nat, b: nat): nat
    decreases a + b
  {
    if a == 0 && b == 0 then 0
    else 2 * Or(a / 2, b / 2) + if a % 2 == 1 || b % 2 == 1 then 1 else 0
  }

  function And(a: nat, b: nat): nat
    decreases a + b
  {
    if a == 0 && b == 0 then 0
    else 2 * And(a / 2, b / 2) + if a % 2 == 1 && b % 2 == 1 then 1 else 0
  }

  /** Left shift in a word of `width` bits: what leaves at the top is lost. */
  function Shl(w: nat, s: nat, width: nat): (r: nat)
    ensures r < Pow2(width)
  {
    (w * Pow2(s)) % Pow2(width)
  }

  function Shr(w: nat, s: nat): nat {
    DivNonNegative(w, Pow2(s));
    w / Pow2(s)
  }

  lemma DivNonNegative(w: nat, q: nat)
    requires q > 0
    ensures w / q >= 0
  {
  }

  // ---- Bits of the results ------------------------------------------------

  lemma BitZero(i: nat)
    ensures !Bit(0, i)
  {
    if i == 0 {
    } else {
      BitZero(i - 1);
    }
  }

  lemma {:induction false} BitOr(a: nat, b: nat, i: nat)
    ensures Bit(Or(a, b), i) == (Bit(a, i) || Bit(b, i))
    decreases i
  {
    if a == 0 && b == 0 {
      BitZero(i);
    } else if i > 0 {
      BitOr(a / 2, b / 2, i - 1);
    }
  }

  lemma HalfOfMod(w: nat, q: nat)
    requires q > 0
    ensures (w % (2 * q)) / 2 == (w / 2) % q
    ensures (w % (2 * q)) % 2 == w % 2
  {
    var r, t := w % (2 * q), w / (2 * q);
    assert w == t * (2 * q) + r;
    assert w / 2 == t * q + r / 2 by { assert t * (2 * q) == 2 * (t * q); }
    ModUnique(w / 2, t, r / 2, q);
    assert t * (2 * q) == 2 * (t * q);
  }

  lemma ModUnique(x: nat, t: nat, r: nat, q: nat)
    requires r < q && x == t * q + r
    ensures x % q == r && x / q == t
  {
    var t', r' := x / q, x % q;
    assert (t - t') * q == r' - r;
    assert (t' - t) * q == r - r';
    if t > t' {
      MulGe(t - t', q);
    } else if t < t' {
      MulGe(t' - t, q);
    }
  }

  lemma MulGe(a: nat, q: nat)
    requires a >= 1
    ensures a * q >= q
  {
  }

  lemma {:induction false} BitMod(w: nat, m: nat, i: nat)
    ensures Bit(w % Pow2(m), i) == (i < m && Bit(w, i))
    decreases i
  {
    if m == 0 {
      BitZero(i);
    } else {
      HalfOfMod(w, Pow2(m - 1));
      if i > 0 { BitMod(w / 2, m - 1, i - 1); }
    }
  }

  lemma {:induction false} BitMul(w: nat, s: nat, i: nat)
    ensures Bit(w * Pow2(s), i) == (i >= s && Bit(w, i - s))
    decreases s
  {
    if s == 0 {
    } else {
      assert w * Pow2(s) == 2 * (w * Pow2(s - 1));
      if i > 0 { BitMul(w, s - 1, i - 1); }
    }
  }

  lemma BitShl(w: nat, s: nat, width: nat, i: nat)
    ensures Bit(Shl(w, s, width), i) == (s <= i < width && Bit(w, i - s))
  {
    BitMod(w * Pow2(s), width, i);
    BitMul(w, s, i);
  }

  lemma DivTwice(w: nat, q: nat)
    requires q > 0
    ensures w / 2 / q == w / (2 * q)
  {
    var t, r := w / (2 * q), w % (2 * q);
    assert t * (2 * q) == 2 * (t * q);
    assert w / 2 == t * q + r / 2;
    ModUnique(w / 2, t, r / 2, q);
  }

  lemma BitIsDiv(w: nat, i: nat)
    ensures Bit(w, i) == (w / Pow2(i) % 2 == 1)
  {
    if i == 0 {
    } else {
      BitIsDiv(w / 2, i - 1);
      DivTwice(w, Pow2(i - 1));
    }
  }

  lemma BitPow2(o: nat, i: nat)
    ensures Bit(Pow2(o), i) == (i == o)
  {
    BitMul(1, o, i);
    if i > o { BitZero(i - o - 1); }
  }

  /** Testing a one-bit mask is reading that bit. */
  lemma {:induction false} AndMaskIsBit(w: nat, o: nat)
    ensures And(w, Pow2(o)) == (if Bit(w, o) then Pow2(o) else 0)
    decreases o
  {
    if o == 0 {
      AndZero(w / 2);
    } else {
      AndMaskIsBit(w / 2, o - 1);
    }
  }

  lemma AndZero(w: nat)
    ensures And(w, 0) == 0
  {
    if w == 0 {
    } else {
      AndZero(w / 2);
    }
  }

  /** An all-ones mask of `m` bits takes the remainder modulo `2^m`. */
  lemma {:induction false} AndLowMask(w: nat, m: nat)
    ensures And(w, Pow2(m) - 1) == w % Pow2(m)
    decreases m
  {
    if m == 0 {
      AndZero(w);
    } else {
      HalfOfMod(w, Pow2(m - 1));
      assert (Pow2(m) - 1) / 2 == Pow2(m - 1) - 1;
      AndLowMask(w / 2, m - 1);
    }
  }

  /** `|` of a multiple of `2^m` with something below `2^m` is addition. */
  lemma {:induction false} OrDisjoint(a: nat, b: nat, m: nat)
    requires b < Pow2(m)
    ensures Or(a * Pow2(m), b) == a * Pow2(m) + b
    decreases m
  {
    if m == 0 {
      OrZero(a);
    } else {
      assert a * Pow2(m) == 2 * (a * Pow2(m - 1));
      OrDisjoint(a, b / 2, m - 1);
    }
  }

  lemma OrZero(a: nat)
    ensures Or(a, 0) == a
  {
    if a == 0 {
    } else {
      OrZero(a / 2);
    }
  }

  lemma OrFits(a: nat, b: nat, m: nat)
    requires a < Pow2(m) && b < Pow2(m)
    ensures Or(a, b) < Pow2(m)
    decreases m
  {
    if m == 0 {
    } else {
      OrFits(a / 2, b / 2, m - 1);
    }
  }

  // ---- Big-endian byte strings --------------------------------------------

  function Pow256(n: nat): (p: nat)
    ensures p > 0
  {
    if n == 0 then 1 else 256 * Pow256(n - 1)
  }

  /** The `n` low bytes of `v`, most significant first. */
  function BE(v: nat, n: nat): (s: Bytes)
    ensures |s| == n
  {
    if n == 0 then [] else BE(v / 256, n - 1) + [v % 256]
  }

  function FromBE(s: Bytes): nat {
    if s == [] then 0 else 256 * FromBE(s[..|s| - 1]) + s[|s| - 1]
  }

  lemma FromBEBound(s: Bytes)
    ensures FromBE(s) < Pow256(|s|)
  {
    if s == [] {
    } else {
      FromBEBound(s[..|s| - 1]);
    }
  }

  lemma {:induction false} FromBEOfBE(v: nat, n: nat)
    requires v < Pow256(n)
    ensures FromBE(BE(v, n)) == v
    decreases n
  {
    if n == 0 {
    } else {
      FromBEOfBE(v / 256, n - 1);
      assert BE(v, n)[..n - 1] == BE(v / 256, n - 1);
    }
  }

  lemma {:induction false} BEOfFromBE(s: Bytes)
    ensures BE(FromBE(s), |s|) == s
    decreases |s|
  {
    if s == [] {
    } else {
      var t := s[..|s| - 1];
      BEOfFromBE(t);
      assert FromBE(s) / 256 == FromBE(t) && FromBE(s) % 256 == s[|s| - 1];
    }
  }

  /** The first byte is the most significant. */
  lemma {:induction false} LeadingByte(x: byte, s: Bytes)
    ensures FromBE([x] + s) == x * Pow256(|s|) + FromBE(s)
    decreases |s|
  {
    var front := ([x] + s)[..|s|];
    if s == [] {
      assert front == [];
    } else {
      var t := s[..|s| - 1];
      assert front == [x] + t;
      LeadingByte(x, t);
      assert 256 * (x * Pow256(|t|)) == x * (256 * Pow256(|t|));
    }
  }

  // ---- Two's complement ---------------------------------------------------

  function ToUint64(t: int64): uint64 {
    if t >= 0 then t else t + 0x1_0000_0000_0000_0000
  }

  function ToInt64(u: uint64): int64 {
    if u < 0x8000_0000_0000_0000 then u else u - 0x1_0000_0000_0000_0000
  }

  /** `copy` into a zeroed buffer of length `len`. */
  function Pad(p: Bytes, len: nat): (r: Bytes)
    requires |p| <= len
    ensures |r| == len && r[..|p|] == p
  {
    p + seq(len - |p|, _ => 0)
  }

  /** The indices below `m`. */
  function Upto(m: nat): (s: set<nat>)
    ensures |s| == m && forall i :: i in s <==> 0 <= i < m
  {
    if m == 0 then {} else Upto(m - 1) + {m - 1}
  }

  lemma SubsetSize<T>(a: set<T>, b: set<T>)
    requires a <= b
    ensures |a| <= |b|
    ensures |a| == |b| ==> a == b
  {
    assert b == a + (b - a);
    assert |b| == |a| + |b - a|;
  }

  function Max(a: int, b: int): int {
    if a >= b then a else b
  }
}
