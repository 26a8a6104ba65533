/** Loss statistics of the receiver: a 64-bit arrival bitmap behind the newest
    32-bit sequence number, compared as in section 3.2 of RFC 1982. */
module LossWindow {
  import opened Words

  const HALF := 0x8000_0000

  datatype Window = Window(hasLast: bool, last: uint32, lost: nat, total: nat, bits: uint64)

  const EMPTY := Window(false, 0, 0, 0, 0)

  /** The signed 32-bit difference of two sequence numbers. */
  function Diff(s: uint32, last: uint32): (d: int)
    ensures -HALF <= d < HALF
  {
    var u := (s - last) % WRAP;
    if u < HALF then u else u - WRAP
  }

  /** Negation of a signed 32-bit number, which wraps for the smallest one. */
  function Negated(d: int): (r: int)
    ensures -HALF <= r < HALF
  {
    var u := -d % WRAP;
    if u < HALF then u else u - WRAP
  }

  /** The number can be counted; otherwise the receiver stops at a negative shift count. */
  predicate Defined(w: Window, s: uint32) {
    w.hasLast ==> Diff(s, w.last) != -HALF
  }

  lemma NegatedIs(d: int)
    requires -HALF <= d <= 0
    ensures Negated(d) == if d == -HALF then -HALF else -d
  {
    if d < 0 { ModUnique(-d, 0, -d, WRAP); }
  }

  /** The shift count of a number that is not newer is negative at a distance
      of exactly half the number space, and at no other. */
  lemma {:induction false} ShiftIsNegativeIff(w: Window, s: uint32)
    ensures !Defined(w, s) <==> w.hasLast && Diff(s, w.last) <= 0 && Negated(Diff(s, w.last)) < 0
    ensures Defined(w, s) <==> w.hasLast ==> (s - w.last) % WRAP != HALF
  {
    if w.hasLast && Diff(s, w.last) <= 0 { NegatedIs(Diff(s, w.last)); }
  }

  lemma OrFitsWord(a: nat, b: nat)
    requires a < Pow2(64) && b < Pow2(64)
    ensures Or(a, b) < 0x1_0000_0000_0000_0000
  {
    Pow2Word();
    OrFits(a, b, 64);
  }

  function Shifted(bits: uint64, d: nat): uint64
    requires d < 64
  {
    Pow2Less(0, 64);
    OrFitsWord(Shl(bits, d, 64), 1);
    Or(Shl(bits, d, 64), 1)
  }

  function Marked(bits: uint64, offset: nat): uint64
    requires offset < 64
  {
    Pow2Word();
    OrFitsWord(bits, Shl(1, offset, 64));
    Or(bits, Shl(1, offset, 64))
  }

  predicate IsMarked(bits: uint64, offset: nat)
    requires offset < 64
  {
    And(bits, Shl(1, offset, 64)) != 0
  }

  /** The bitmap after an arrival at signed distance `d` from the newest. */
  function MovedBits(bits: uint64, d: int): uint64 {
    if d >= 64 then 1
    else if d > 0 then Shifted(bits, d)
    else if -d < 64 && !IsMarked(bits, -d) then Marked(bits, -d)
    else bits
  }

  /** The effect of sequence number `s` at signed distance `d` from the newest. */
  function Moved(w: Window, s: uint32, d: int): Window {
    var bits := MovedBits(w.bits, d);
    if d > 0 then Window(true, s, w.lost + (d - 1), w.total + 1, bits)
    else if -d < 64 && !IsMarked(w.bits, -d) then
      Window(true, w.last, if w.lost > 0 then w.lost - 1 else 0, w.total + 1, bits)
    else w.(total := w.total + 1)
  }

  function Update(w: Window, s: uint32): Window
    requires Defined(w, s)
  {
    if !w.hasLast then Window(true, s, w.lost, w.total + 1, 1)
    else Moved(w, s, Diff(s, w.last))
  }

  class StreamStats {
    var lastSeq: uint32
    var hasLastSeq: bool
    var lostPackets: nat
    var totalPackets: nat
    var window: uint64

    constructor ()
      ensures Value() == EMPTY
    {
      lastSeq, hasLastSeq, lostPackets, totalPackets, window := 0, false, 0, 0, 0;
    }

    function Value(): Window
      reads this
    {
      Window(hasLastSeq, lastSeq, lostPackets, totalPackets, window)
    }

    /** `ok` says that the receiver goes on; a negative shift count stops it. */
    method Record(s: uint32) returns (ok: bool)
      modifies this
      ensures ok <==> Defined(old(Value()), s)
      ensures Value() == if ok then Update(old(Value()), s) else old(Value()).(total := old(totalPackets) + 1)
    {
      totalPackets := totalPackets + 1;
      if !hasLastSeq {
        hasLastSeq := true;
        lastSeq := s;
        window := 1;
      } else {
        var diff := Diff(s, lastSeq);
        if diff > 0 {
          if diff < 64 {
            window := Shifted(window, diff);
          } else {
            window := 1;
          }
          var lostCount := diff - 1;
          if lostCount > 0 {
            lostPackets := lostPackets + lostCount;
          }
          lastSeq := s;
        } else {
          NegatedIs(diff);
          var offset := Negated(diff);
          if offset < 64 {
            if offset < 0 {
              return false;
            }
            if !IsMarked(window, offset) {
              window := Marked(window, offset);
              if lostPackets > 0 {
                lostPackets := lostPackets - 1;
              }
            }
          }
        }
      }
      ok := true;
    }
  }

  // ---- The bitmap operations, bit by bit ----------------------------------

  lemma ShiftedBit(bits: uint64, d: nat, i: nat)
    requires 0 < d < 64 && i < 64
    ensures Bit(Shifted(bits, d), i) == (i == 0 || (i >= d && Bit(bits, i - d)))
  {
    BitOr(Shl(bits, d, 64), 1, i);
    BitShl(bits, d, 64, i);
    BitPow2(0, i);
  }

  lemma MaskIs(offset: nat)
    requires offset < 64
    ensures Shl(1, offset, 64) == Pow2(offset)
  {
    Pow2Less(offset, 64);
    SmallMod(Pow2(offset), Pow2(64));
  }

  lemma SmallMod(x: nat, q: nat)
    requires x < q
    ensures x % q == x
  {
    ModUnique(x, 0, x, q);
  }

  lemma MarkedBit(bits: uint64, offset: nat, i: nat)
    requires offset < 64
    ensures IsMarked(bits, offset) == Bit(bits, offset)
    ensures Bit(Marked(bits, offset), i) == (i == offset || Bit(bits, i))
  {
    MaskIs(offset);
    AndMaskIsBit(bits, offset);
    BitOr(bits, Pow2(offset), i);
    BitPow2(offset, i);
  }

  lemma OneBit(i: nat)
    ensures Bit(1, i) == (i == 0)
  {
    BitPow2(0, i);
  }

  // ---- Runs over unwrapped sequence numbers -------------------------------

  function Wrapped(u: int): uint32 {
    u % WRAP
  }

  function Newest(us: seq<int>): int
    requires us != []
  {
    if |us| == 1 then us[0] else Max(Newest(us[..|us| - 1]), us[|us| - 1])
  }

  /** Every arrival is strictly within half the number space of the newest one before it. */
  predicate InRange(us: seq<int>) {
    |us| <= 1 ||
    (InRange(us[..|us| - 1]) && -HALF < us[|us| - 1] - Newest(us[..|us| - 1]) < HALF)
  }

  /** Serial-number comparison is exact within half the number space. */
  lemma DiffIsExact(u: int, v: int)
    requires -HALF < u - v < HALF
    ensures Diff(Wrapped(u), Wrapped(v)) == u - v
  {
    assert (Wrapped(u) - Wrapped(v)) % WRAP == (u - v) % WRAP by {
      assert u == (u / WRAP) * WRAP + Wrapped(u) && v == (v / WRAP) * WRAP + Wrapped(v);
      assert u - v == (u / WRAP - v / WRAP) * WRAP + (Wrapped(u) - Wrapped(v));
    }
  }

  /** The statistics after the whole run. */
  function Run(us: seq<int>): (w: Window)
    requires InRange(us)
    ensures w.hasLast <==> us != []
    ensures us != [] ==> w.last == Wrapped(Newest(us))
    ensures w.total == |us|
  {
    if us == [] then EMPTY
    else
      var front, u := us[..|us| - 1], us[|us| - 1];
      if front != [] then DiffIsExact(u, Newest(front)); Update(Run(front), Wrapped(u))
      else Update(EMPTY, Wrapped(u))
  }

  lemma RunStep(us: seq<int>)
    requires |us| > 1 && InRange(us)
    ensures var front, u := us[..|us| - 1], us[|us| - 1];
      && us == front + [u] && front != [] && front[0] == us[0] && InRange(front)
      && Run(us) == Moved(Run(front), Wrapped(u), u - Newest(front))
      && Run(us).bits == MovedBits(Run(front).bits, u - Newest(front))
      && Newest(us) == Max(Newest(front), u)
  {
    DiffIsExact(us[|us| - 1], Newest(us[..|us| - 1]));
  }

  lemma NewestBounds(us: seq<int>)
    requires us != []
    ensures Newest(us) in us && forall u :: u in us ==> u <= Newest(us)
  {
    if |us| <= 1 {
    } else {
      var front, u := us[..|us| - 1], us[|us| - 1];
      NewestBounds(front);
      assert us == front + [u];
      assert forall v :: v in us ==> v in front || v == u;
      assert Newest(us) == Max(Newest(front), u);
    }
  }

  /** Bit `i` says whether `newest - i` is among the arrivals. */
  predicate BitAgrees(bits: uint64, newest: int, us: seq<int>, i: nat) {
    Bit(bits, i) <==> newest - i in us
  }

  lemma NewerBit(bits: uint64, newest: int, us: seq<int>, u: int, i: nat)
    requires newest < u && i < 64 && forall v :: v in us ==> v <= newest
    requires i >= u - newest ==> BitAgrees(bits, newest, us, i - (u - newest))
    ensures BitAgrees(MovedBits(bits, u - newest), u, us + [u], i)
  {
    OneBit(i);
    if u - newest < 64 { ShiftedBit(bits, u - newest, i); }
  }

  lemma LateBit(bits: uint64, newest: int, us: seq<int>, u: int, i: nat)
    requires u <= newest && i < 64 && BitAgrees(bits, newest, us, i)
    requires newest - u < 64 ==> BitAgrees(bits, newest, us, newest - u)
    ensures BitAgrees(MovedBits(bits, u - newest), newest, us + [u], i)
  {
    if newest - u < 64 { MarkedBit(bits, newest - u, i); }
  }

  ghost predicate AllAgree(bits: uint64, newest: int, us: seq<int>) {
    forall i :: 0 <= i < 64 ==> BitAgrees(bits, newest, us, i)
  }

  lemma MovedAgrees(bits: uint64, newest: int, us: seq<int>, u: int)
    requires AllAgree(bits, newest, us) && forall v :: v in us ==> v <= newest
    ensures AllAgree(MovedBits(bits, u - newest), Max(newest, u), us + [u])
  {
    var bits', newest', us' := MovedBits(bits, u - newest), Max(newest, u), us + [u];
    forall i | 0 <= i < 64
      ensures BitAgrees(bits', newest', us', i)
    {
      if u > newest { NewerBit(bits, newest, us, u, i); } else { LateBit(bits, newest, us, u, i); }
    }
  }

  lemma SameAgrees(bits: uint64, newest: int, us: seq<int>, bits': uint64, newest': int, us': seq<int>)
    requires bits == bits' && newest == newest' && us == us' && AllAgree(bits, newest, us)
    ensures AllAgree(bits', newest', us')
  {
  }

  lemma {:induction false} RunAgrees(us: seq<int>)
    requires us != [] && InRange(us)
    ensures AllAgree(Run(us).bits, Newest(us), us)
  {
    if |us| == 1 {
      FirstBits(us);
    } else {
      var front, u := us[..|us| - 1], us[|us| - 1];
      RunStep(us);
      NewestBounds(front);
      RunAgrees(front);
      MovedAgrees(Run(front).bits, Newest(front), front, u);
      SameAgrees(MovedBits(Run(front).bits, u - Newest(front)), Max(Newest(front), u), front + [u],
                 Run(us).bits, Newest(us), us);
    }
  }

  lemma FirstBits(us: seq<int>)
    requires |us| == 1
    ensures AllAgree(Run(us).bits, Newest(us), us)
  {
    forall i | 0 <= i < 64
      ensures BitAgrees(1, us[0], us, i)
    {
      OneBit(i);
    }
  }

  /** The bitmap is the arrival set: bit i is set exactly when the sequence
      number i before the newest has arrived, through wrap-around, jumps,
      duplicates and late arrivals. */
  lemma {:induction false} BitmapIsArrivals(us: seq<int>, i: nat)
    requires us != [] && InRange(us) && i < 64
    ensures Bit(Run(us).bits, i) <==> Newest(us) - i in us
  {
    RunAgrees(us);
    assert BitAgrees(Run(us).bits, Newest(us), us, i);
  }

  // ---- Loss conservation --------------------------------------------------

  /** The arrivals that were credited: each new maximum, and each first late
      arrival still inside the window. */
  function Credited(us: seq<int>): (c: set<int>)
    ensures forall u :: u in c ==> u in us
  {
    if us == [] then {}
    else
      var front, u := us[..|us| - 1], us[|us| - 1];
      if front == [] || u > Newest(front) || (Newest(front) - u < 64 && u !in front)
      then Credited(front) + {u} else Credited(front)
  }

  /** Nothing older than the first arrival. */
  predicate NothingOlder(us: seq<int>) {
    forall i :: 0 <= i < |us| ==> us[i] >= us[0]
  }

  /** An arrival that undoes a loss: late, inside the window, seen for the first time. */
  predicate Recovers(us: seq<int>, u: int) {
    us != [] && u <= Newest(us) && Newest(us) - u < 64 && u !in us
  }

  lemma WindowBit(us: seq<int>, u: int)
    requires us != [] && InRange(us) && u <= Newest(us) && Newest(us) - u < 64
    ensures IsMarked(Run(us).bits, Newest(us) - u) <==> u in us
  {
    BitmapIsArrivals(us, Newest(us) - u);
    MarkedBit(Run(us).bits, Newest(us) - u, 0);
  }

  /** One arrival, in terms of the arrivals before it. */
  lemma LossStep(us: seq<int>)
    requires |us| > 1 && InRange(us)
    ensures var front, u := us[..|us| - 1], us[|us| - 1]; var before := Run(front).lost;
      Run(us).lost == if u > Newest(front) then before + (u - Newest(front) - 1)
                      else if Recovers(front, u) && before > 0 then before - 1 else before
  {
    var front, u := us[..|us| - 1], us[|us| - 1];
    RunStep(us);
    if u <= Newest(front) && Newest(front) - u < 64 { WindowBit(front, u); }
  }

  lemma CreditedStep(us: seq<int>)
    requires |us| > 1
    ensures var front, u := us[..|us| - 1], us[|us| - 1];
      |Credited(us)| == |Credited(front)| + if u > Newest(front) || Recovers(front, u) then 1 else 0
  {
    var front, u := us[..|us| - 1], us[|us| - 1];
    NewestBounds(front);
  }

  function Span(a: int, b: int): (s: set<int>)
    requires a <= b + 1
    ensures |s| == b - a + 1 && forall u :: u in s <==> a <= u <= b
    decreases b - a + 1
  {
    if a > b then {} else Span(a, b - 1) + {b}
  }

  /** Credited arrivals lie between the first and the newest. */
  lemma CreditedBelow(us: seq<int>, u: int)
    requires us != [] && NothingOlder(us) && us[0] <= u <= Newest(us) && u !in us
    ensures |Credited(us)| <= Newest(us) - us[0]
  {
    NewestBounds(us);
    SubsetSize(Credited(us), Span(us[0], Newest(us)) - {u});
  }

  /** The `lostPackets > 0` guard never stops a due decrement. */
  lemma GuardNeverBlocks(us: seq<int>, u: int)
    requires us != [] && InRange(us) && NothingOlder(us)
    requires us[0] <= u && Recovers(us, u)
    ensures Run(us).lost > 0
    decreases |us|, 1
  {
    LossConservation(us);
    CreditedBelow(us, u);
  }

  /** Losses and credited arrivals account for every number from the first to the newest. */
  lemma {:induction false} LossConservation(us: seq<int>)
    requires us != [] && InRange(us) && NothingOlder(us)
    ensures Run(us).lost + |Credited(us)| == Newest(us) - us[0] + 1
    decreases |us|, 0
  {
    var front, u := us[..|us| - 1], us[|us| - 1];
    if |us| == 1 {
      assert front == [];
      assert Credited(us) == {u};
    } else {
      RunStep(us);
      assert NothingOlder(front) by { assert forall i :: 0 <= i < |front| ==> us[i] == front[i]; }
      LossConservation(front);
      LossStep(us);
      CreditedStep(us);
      if Recovers(front, u) { GuardNeverBlocks(front, u); }
    }
  }

  /** Late arrivals all still inside the window when they come. */
  predicate LateInWindow(us: seq<int>) {
    |us| <= 1 || (LateInWindow(us[..|us| - 1]) && Newest(us[..|us| - 1]) - us[|us| - 1] < 64)
  }

  function SetOf(us: seq<int>): set<int> {
    set u | u in us
  }

  lemma AllCredited(us: seq<int>)
    requires LateInWindow(us)
    ensures Credited(us) == SetOf(us)
  {
    if us == [] {
    } else {
      var front, u := us[..|us| - 1], us[|us| - 1];
      assert us == front + [u];
      AllCredited(front);
      assert SetOf(us) == SetOf(front) + {u};
    }
  }

  /** How many sequence numbers from the first arrival to the newest never arrived. */
  function NeverArrived(us: seq<int>): nat
    requires us != []
  {
    NewestBounds(us);
    assert us[0] in us;
    |Span(us[0], Newest(us)) - SetOf(us)|
  }

  ghost predicate Exact(us: seq<int>)
    requires us != [] && InRange(us)
  {
    Run(us).lost == NeverArrived(us)
  }

  /** With nothing older than the first and every late arrival inside the
      window, the loss count is exactly the number that never arrived. */
  lemma {:induction false} LossIsExact(us: seq<int>)
    requires us != [] && InRange(us) && NothingOlder(us) && LateInWindow(us)
    ensures Exact(us)
  {
    LossConservation(us);
    AllCredited(us);
    NewestBounds(us);
    var span := Span(us[0], Newest(us));
    assert SetOf(us) <= span;
    assert span == SetOf(us) + (span - SetOf(us));
  }

  lemma GapJumps(first: int, newest: int, u: int, seen: set<int>)
    requires first <= newest < u && forall v :: v in seen ==> v <= newest
    ensures |Span(first, u) - (seen + {u})| == |Span(first, newest) - seen| + (u - newest - 1)
  {
    var gap, jump := Span(first, newest) - seen, Span(newest + 1, u - 1);
    assert Span(first, u) - (seen + {u}) == gap + jump;
    assert gap !! jump;
  }

  lemma GapShrinks(first: int, newest: int, u: int, seen: set<int>)
    requires first <= newest && u <= newest
    ensures |Span(first, newest) - (seen + {u})|
      == |Span(first, newest) - seen| - if u in seen || u < first then 0 else 1
  {
    var gap := Span(first, newest) - seen;
    if u in seen || u < first {
      assert Span(first, newest) - (seen + {u}) == gap;
    } else {
      assert Span(first, newest) - (seen + {u}) == gap - {u};
    }
  }

  lemma NeverArrivedStep(us: seq<int>)
    requires |us| > 1
    ensures var front, u := us[..|us| - 1], us[|us| - 1];
      NeverArrived(us) == if u > Newest(front) then NeverArrived(front) + (u - Newest(front) - 1)
                          else NeverArrived(front) - if u in front || u < us[0] then 0 else 1
  {
    var front, u := us[..|us| - 1], us[|us| - 1];
    NewestBounds(front);
    assert us[0] == front[0] && front[0] in front;
    assert us == front + [u];
    assert SetOf(us) == SetOf(front) + {u};
    if u > Newest(front) {
      GapJumps(us[0], Newest(front), u, SetOf(front));
    } else {
      GapShrinks(us[0], Newest(front), u, SetOf(front));
    }
  }

  /** When an exact count stays exact, for any arrival: it goes wrong exactly
      on a number seen for the first time that either is older than the first
      arrival, still inside the window, and meets a positive count (it is taken
      for the recovery of a loss), or is not older but already out of the window. */
  lemma {:induction false} ExactnessKeptIff(us: seq<int>)
    requires |us| > 1 && InRange(us) && Exact(us[..|us| - 1])
    ensures var front, u := us[..|us| - 1], us[|us| - 1];
      Exact(us) <==> u in front || u > Newest(front)
                     || (if u >= us[0] then Newest(front) - u < 64
                         else Newest(front) - u >= 64 || Run(front).lost == 0)
  {
    RunStep(us);
    LossStep(us);
    NeverArrivedStep(us);
  }

  lemma OneArrival(f: int)
    ensures var us := [f]; Newest(us) == f && InRange(us) && Run(us).lost == 0 && NeverArrived(us) == 0
  {
    var us := [f];
    assert us[..0] == [];
    assert SetOf(us) == {f} && Span(f, f) - SetOf(us) == {};
  }

  lemma TwoArrivals(f: int)
    ensures var us := [f, f + 2]; Newest(us) == f + 2 && InRange(us) && Run(us).lost == 1 && NeverArrived(us) == 1
  {
    var us := [f, f + 2];
    assert us[..1] == [f];
    OneArrival(f);
    LossStep(us);
    NeverArrivedStep(us);
  }

  /** From any start f, the arrivals f, f+2, f-1: number f+1 never arrives, yet
      the loss count is back to zero. */
  lemma OlderThanFirstMiscounts(f: int)
    ensures var us := [f, f + 2, f - 1]; InRange(us) && Run(us).lost == 0 && NeverArrived(us) == 1
  {
    var us := [f, f + 2, f - 1];
    assert us[..2] == [f, f + 2];
    TwoArrivals(f);
    assert f - 1 !in us[..2];
    LossStep(us);
    NeverArrivedStep(us);
  }
}
