/** What one FEC group lets through, told by packet indices alone: a set of
    distinct receptions, pass-through of data indices, and at the k-th distinct
    reception the release of every data index still missing, after which the
    group is forgotten. */
module ReleaseOrder {
  import opened Words

  /** The data indices from `j` on that are not in `seen`, in order. */
  function Missing(k: nat, seen: set<nat>, j: nat): seq<nat>
    decreases k - j
  {
    if j >= k then []
    else if j in seen then Missing(k, seen, j + 1)
    else [j] + Missing(k, seen, j + 1)
  }

  datatype History = History(seen: set<nat>, released: seq<nat>)

  function Releases(k: nat, seen: set<nat>, i: nat): seq<nat> {
    if i in seen then []
    else (if i < k then [i] else []) + (if |seen + {i}| >= k then Missing(k, seen + {i}, 0) else [])
  }

  function Seen(k: nat, seen: set<nat>, i: nat): set<nat> {
    if i in seen then seen
    else if |seen + {i}| >= k then {} else seen + {i}
  }

  /** The effect of a whole sequence of arrivals, oldest first. */
  function Run(k: nat, arrivals: seq<nat>): History {
    if arrivals == [] then History({}, [])
    else
      var h := Run(k, arrivals[..|arrivals| - 1]);
      var i := arrivals[|arrivals| - 1];
      History(Seen(k, h.seen, i), h.released + Releases(k, h.seen, i))
  }

  function SetOf(s: seq<nat>): set<nat> {
    set i | i in s
  }

  /** How often data index `j` was released. */
  function Times(k: nat, arrivals: seq<nat>, j: nat): nat {
    multiset(Run(k, arrivals).released)[j]
  }

  ghost predicate Distinct(s: seq<nat>) {
    forall a, b :: 0 <= a < b < |s| ==> s[a] != s[b]
  }

  ghost predicate Increasing(s: seq<nat>) {
    forall a, b :: 0 <= a < b < |s| ==> s[a] < s[b]
  }

  lemma {:induction false} MissingCount(k: nat, seen: set<nat>, j: nat, x: nat)
    ensures multiset(Missing(k, seen, j))[x] == (if j <= x < k && x !in seen then 1 else 0)
    decreases k - j
  {
    if j >= k {
    } else {
      MissingCount(k, seen, j + 1, x);
      if j !in seen { MultisetConcat([j], Missing(k, seen, j + 1)); }
    }
  }

  lemma MultisetConcat<T>(a: seq<T>, b: seq<T>)
    ensures multiset(a + b) == multiset(a) + multiset(b)
  {
  }

  lemma MissingBelow(k: nat, seen: set<nat>, j: nat)
    ensures forall x :: x in Missing(k, seen, j) ==> j <= x < k && x !in seen
    decreases k - j
  {
    if j >= k {
    } else {
      MissingBelow(k, seen, j + 1);
    }
  }

  lemma SeenBelow(k: nat, arrivals: seq<nat>)
    requires k > 0
    ensures |Run(k, arrivals).seen| < k
  {
    if arrivals == [] {
    } else {
      SeenBelow(k, arrivals[..|arrivals| - 1]);
    }
  }

  lemma ReleasesCount(k: nat, seen: set<nat>, i: nat, x: nat)
    requires i !in seen
    ensures multiset(Releases(k, seen, i))[x] ==
      (if x < k && (x == i || (|seen + {i}| >= k && x !in seen)) then 1 else 0)
  {
    MissingCount(k, seen + {i}, 0, x);
    var now := if i < k then [i] else [];
    var later := if |seen + {i}| >= k then Missing(k, seen + {i}, 0) else [];
    MultisetConcat(now, later);
  }

  /** One more arrival, in terms of how often `x` is released. */
  lemma StepCount(k: nat, arrivals: seq<nat>, x: nat)
    requires |arrivals| > 0
    ensures var h := Run(k, arrivals[..|arrivals| - 1]); var i := arrivals[|arrivals| - 1];
      Times(k, arrivals, x) == Times(k, arrivals[..|arrivals| - 1], x) +
        (if i !in h.seen && x < k && (x == i || (|h.seen + {i}| >= k && x !in h.seen)) then 1 else 0)
  {
    var h := Run(k, arrivals[..|arrivals| - 1]);
    var i := arrivals[|arrivals| - 1];
    MultisetConcat(h.released, Releases(k, h.seen, i));
    if i !in h.seen { ReleasesCount(k, h.seen, i, x); }
  }

  lemma SetOfSnoc(arrivals: seq<nat>)
    requires |arrivals| > 0
    ensures SetOf(arrivals) == SetOf(arrivals[..|arrivals| - 1]) + {arrivals[|arrivals| - 1]}
  {
    var front, last := arrivals[..|arrivals| - 1], arrivals[|arrivals| - 1];
    assert arrivals == front + [last];
  }

  /** Fewer than k distinct arrivals, in any order and with any repetition:
      exactly the data packets that arrived are released, once each. */
  lemma {:induction false} PartialGroup(k: nat, arrivals: seq<nat>, x: nat)
    requires |SetOf(arrivals)| < k
    ensures Run(k, arrivals).seen == SetOf(arrivals)
    ensures Times(k, arrivals, x) == (if x < k && x in SetOf(arrivals) then 1 else 0)
  {
    if arrivals == [] {
    } else {
      var front := arrivals[..|arrivals| - 1];
      SetOfSnoc(arrivals);
      SubsetSize(SetOf(front), SetOf(arrivals));
      PartialGroup(k, front, x);
      StepCount(k, arrivals, x);
    }
  }

  /** The k-th distinct arrival, whichever it is, completes the release of all
      k data packets, once each, and the group is forgotten. */
  lemma {:induction false} CompletingArrival(k: nat, arrivals: seq<nat>, x: nat)
    requires |arrivals| > 0 && |SetOf(arrivals[..|arrivals| - 1])| < k == |SetOf(arrivals)|
    ensures Run(k, arrivals).seen == {}
    ensures Times(k, arrivals, x) == (if x < k then 1 else 0)
  {
    SetOfSnoc(arrivals);
    PartialGroup(k, arrivals[..|arrivals| - 1], x);
    StepCount(k, arrivals, x);
  }

  /** Over any arrivals at all, data index `x` is released at least once iff
      it arrived itself or k distinct indices did. */
  lemma {:induction false} EverReleased(k: nat, arrivals: seq<nat>, x: nat)
    requires 0 < k && x < k
    ensures Times(k, arrivals, x) > 0 <==> x in arrivals || |SetOf(arrivals)| >= k
  {
    if |SetOf(arrivals)| < k {
      PartialGroup(k, arrivals, x);
    } else if arrivals != [] {
      var front := arrivals[..|arrivals| - 1];
      SetOfSnoc(arrivals);
      StepCount(k, arrivals, x);
      if |SetOf(front)| >= k {
        EverReleased(k, front, x);
      } else {
        CompletingArrival(k, arrivals, x);
      }
    }
  }

  /** The arrivals after the last completed run of k. */
  function Tail(k: nat, arrivals: seq<nat>): (r: seq<nat>)
    requires k > 0
    ensures |r| == |arrivals| % k
  {
    arrivals[|arrivals| - |arrivals| % k..]
  }

  lemma Regroup<T>(s: seq<T>, done: seq<T>, tail: seq<T>)
    requires |s| > 0 && s[..|s| - 1] == done + tail
    ensures s == done + (tail + [s[|s| - 1]])
  {
  }

  /** One more distinct arrival on top of the left-over `tail`. */
  lemma NextDistinct(k: nat, arrivals: seq<nat>, tail: seq<nat>, x: nat)
    requires |arrivals| > 0 && arrivals[|arrivals| - 1] !in tail
    requires Run(k, arrivals[..|arrivals| - 1]).seen == SetOf(tail) && |SetOf(tail)| == |tail| < k
    ensures var i := arrivals[|arrivals| - 1];
      && Run(k, arrivals).seen == (if |tail| + 1 == k then {} else SetOf(tail + [i]))
      && |SetOf(tail + [i])| == |tail| + 1
      && Times(k, arrivals, x) == Times(k, arrivals[..|arrivals| - 1], x) +
         (if x < k && (x == i || (|tail| + 1 == k && x !in tail)) then 1 else 0)
  {
    var i := arrivals[|arrivals| - 1];
    assert SetOf(tail + [i]) == SetOf(tail) + {i};
    StepCount(k, arrivals, x);
  }

  lemma DistinctSnoc(s: seq<nat>)
    requires Distinct(s) && |s| > 0
    ensures Distinct(s[..|s| - 1]) && s[|s| - 1] !in s[..|s| - 1]
  {
  }

  /** The arrivals since the last completed run of k, and the number of completed runs. */
  function Split(k: nat, arrivals: seq<nat>): (r: (nat, seq<nat>))
    requires k > 0
    ensures |r.1| < k
    ensures forall y :: y in r.1 ==> y in arrivals
  {
    if arrivals == [] then (0, [])
    else
      var (q, tail) := Split(k, arrivals[..|arrivals| - 1]);
      var longer := tail + [arrivals[|arrivals| - 1]];
      if |longer| == k then (q + 1, []) else (q, longer)
  }

  lemma {:induction false} SplitSize(k: nat, arrivals: seq<nat>)
    requires k > 0
    ensures var (q, tail) := Split(k, arrivals); |arrivals| == q * k + |tail|
  {
    if arrivals == [] {
    } else {
      SplitSize(k, arrivals[..|arrivals| - 1]);
      var q := Split(k, arrivals[..|arrivals| - 1]).0;
      assert (q + 1) * k == q * k + k;
    }
  }

  lemma {:induction false} SplitSuffix(k: nat, arrivals: seq<nat>) returns (done: seq<nat>)
    requires k > 0
    ensures arrivals == done + Split(k, arrivals).1
  {
    if arrivals == [] {
      done := [];
    } else {
      var front := arrivals[..|arrivals| - 1];
      done := SplitSuffix(k, front);
      Regroup(arrivals, done, Split(k, front).1);
      if Split(k, arrivals).1 == [] { done := arrivals; }
    }
  }

  lemma SplitIsTail(k: nat, arrivals: seq<nat>)
    requires k > 0
    ensures Split(k, arrivals) == (|arrivals| / k, Tail(k, arrivals))
  {
    SplitSize(k, arrivals);
    var done := SplitSuffix(k, arrivals);
    var (q, tail) := Split(k, arrivals);
    ModUnique(|arrivals|, q, |tail|, k);
  }

  lemma {:induction false} DistinctSeen(k: nat, arrivals: seq<nat>)
    requires k > 0 && Distinct(arrivals)
    ensures var tail := Split(k, arrivals).1; Run(k, arrivals).seen == SetOf(tail) && |SetOf(tail)| == |tail|
  {
    if arrivals == [] {
    } else {
      DistinctSnoc(arrivals);
      DistinctSeen(k, arrivals[..|arrivals| - 1]);
      NextDistinct(k, arrivals, Split(k, arrivals[..|arrivals| - 1]).1, 0);
    }
  }

  lemma {:induction false} DistinctTimes(k: nat, arrivals: seq<nat>, x: nat)
    requires k > 0 && Distinct(arrivals)
    ensures var (q, tail) := Split(k, arrivals);
      Times(k, arrivals, x) == if x < k then q + (if x in tail then 1 else 0) else 0
  {
    if arrivals == [] {
    } else {
      DistinctSnoc(arrivals);
      DistinctSeen(k, arrivals[..|arrivals| - 1]);
      DistinctTimes(k, arrivals[..|arrivals| - 1], x);
      NextDistinct(k, arrivals, Split(k, arrivals[..|arrivals| - 1]).1, x);
    }
  }

  /** Without duplicates, in any order: every k arrivals complete the group
      afresh, so each data packet is released once per k arrivals, and once
      more if it is among the arrivals left over. */
  lemma {:induction false} DistinctArrivals(k: nat, arrivals: seq<nat>, x: nat)
    requires k > 0 && Distinct(arrivals)
    ensures Run(k, arrivals).seen == SetOf(Tail(k, arrivals)) && |SetOf(Tail(k, arrivals))| == |arrivals| % k
    ensures Times(k, arrivals, x) ==
      if x < k then |arrivals| / k + (if x in Tail(k, arrivals) then 1 else 0) else 0
  {
    SplitIsTail(k, arrivals);
    DistinctSeen(k, arrivals);
    DistinctTimes(k, arrivals, x);
  }

  // ---- Any arrivals, repeated or not ------------------------------------------

  /** How often the group is completed. */
  function Completions(k: nat, arrivals: seq<nat>): nat {
    if arrivals == [] then 0
    else
      var seen, i := Run(k, arrivals[..|arrivals| - 1]).seen, arrivals[|arrivals| - 1];
      Completions(k, arrivals[..|arrivals| - 1]) + if i !in seen && |seen + {i}| >= k then 1 else 0
  }

  /** Over any arrivals, in any order and with any repetition: a data packet is
      released once for each completion of its group, and once more if it is
      among the packets held now. */
  lemma {:induction false} AnyArrivals(k: nat, arrivals: seq<nat>, x: nat)
    requires k > 0
    ensures Times(k, arrivals, x) ==
      if x < k then Completions(k, arrivals) + (if x in Run(k, arrivals).seen then 1 else 0) else 0
  {
    if arrivals == [] {
    } else {
      var front, i := arrivals[..|arrivals| - 1], arrivals[|arrivals| - 1];
      AnyArrivals(k, front, x);
      var seen := Run(k, front).seen;
      if i !in seen { ReleasesCount(k, seen, i, x); }
    }
  }

  /** Each data packet is released exactly once iff the group was completed once
      and holds no data of a second time. */
  lemma {:induction false} OnceIff(k: nat, arrivals: seq<nat>)
    requires k > 0
    ensures (forall x: nat :: x < k ==> Times(k, arrivals, x) == 1) <==>
      Completions(k, arrivals) == 1 && forall x: nat :: x < k ==> x !in Run(k, arrivals).seen
  {
    SeenBelow(k, arrivals);
    var seen := Run(k, arrivals).seen;
    if Upto(k) <= seen { SubsetSize(Upto(k), seen); }
    var y :| y in Upto(k) && y !in seen;
    AnyArrivals(k, arrivals, y);
    forall x: nat | x < k
      ensures Times(k, arrivals, x) == Completions(k, arrivals) + if x in seen then 1 else 0
    {
      AnyArrivals(k, arrivals, x);
    }
  }

  lemma IncreasingAtLeast(s: seq<nat>, p: nat)
    requires Increasing(s) && p < |s|
    ensures s[p] >= p
  {
    if p == 0 {
    } else {
      IncreasingAtLeast(s, p - 1);
    }
  }

  lemma TailBeyondData(k: nat, arrivals: seq<nat>)
    requires k > 0 && Increasing(arrivals) && |arrivals| >= k
    ensures forall x :: x in Tail(k, arrivals) ==> x >= k
  {
    var m := |arrivals|;
    assert m - m % k >= k by {
      assert m == (m / k) * k + m % k;
      assert m / k >= 1;
      MulGe(m / k, k);
    }
    forall p | m - m % k <= p < m
      ensures arrivals[p] >= k
    {
      IncreasingAtLeast(arrivals, p);
    }
  }

  /** In order and with losses only: a data packet is released floor(m/k)
      times when m >= k packets of the group arrive, and otherwise exactly
      when it arrives. */
  lemma {:induction false} InOrderArrivals(k: nat, arrivals: seq<nat>, x: nat)
    requires k > 0 && Increasing(arrivals) && x < k
    ensures Times(k, arrivals, x) ==
      if |arrivals| >= k then |arrivals| / k else if x in arrivals then 1 else 0
  {
    DistinctArrivals(k, arrivals, x);
    if |arrivals| >= k {
      TailBeyondData(k, arrivals);
    } else {
      ModUnique(|arrivals|, 0, |arrivals|, k);
      assert Tail(k, arrivals) == arrivals;
    }
  }

  /** On an order-preserving, loss-only channel all data packets are released
      exactly once iff at least k and fewer than 2k packets of the group arrive. */
  lemma {:induction false} ExactlyOnceIff(k: nat, arrivals: seq<nat>)
    requires k > 0 && Increasing(arrivals)
    ensures (forall x: nat :: x < k ==> Times(k, arrivals, x) == 1) <==> k <= |arrivals| < 2 * k
  {
    var m := |arrivals|;
    forall x: nat | x < k
      ensures m >= k ==> Times(k, arrivals, x) == m / k
      ensures m < k ==> Times(k, arrivals, x) == if x in arrivals then 1 else 0
    {
      InOrderArrivals(k, arrivals, x);
    }
    if k <= m {
      QuotientOne(m, k);
      assert Times(k, arrivals, 0) == m / k;
    } else {
      AbsentIndex(k, arrivals);
    }
  }

  lemma QuotientOne(m: nat, k: nat)
    requires 0 < k <= m
    ensures m / k == 1 <==> m < 2 * k
  {
    if m < 2 * k { ModUnique(m, 1, m - k, k); }
  }

  lemma AbsentIndex(k: nat, arrivals: seq<nat>)
    requires |arrivals| < k
    ensures exists x: nat :: x < k && x !in arrivals
  {
    SetOfSize(arrivals);
    if forall x: nat :: x < k ==> x in arrivals {
      SubsetSize(Upto(k), SetOf(arrivals));
    }
  }

  lemma SetOfSize(s: seq<nat>)
    ensures |SetOf(s)| <= |s|
  {
    if s == [] {
    } else {
      SetOfSnoc(s);
      SetOfSize(s[..|s| - 1]);
    }
  }

  /** A lossless in-order channel releases every data packet floor(n/k) times. */
  lemma {:induction false} LosslessInOrder(k: nat, n: nat, x: nat)
    requires x < k <= n
    ensures Times(k, seq(n, i => i), x) == n / k
  {
    InOrderArrivals(k, seq(n, i => i), x);
  }
}
