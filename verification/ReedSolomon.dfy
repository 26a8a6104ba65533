/** The erasure-coding engine, known only by its contract: an MDS code over
    shards of equal length. A shard of length zero stands for a missing one,
    as in the engine's own interface. */
module ReedSolomon {
  import opened Words
  import opened Wrappers

  /** `parity` maps k data shards to the n - k parity shards; `rebuild` fills in missing shards. */
  datatype Engine = Engine(k: nat, n: nat, parity: seq<Bytes> -> seq<Bytes>, rebuild: seq<Bytes> -> seq<Bytes>)

  ghost predicate AllLength(shards: seq<Bytes>, len: nat) {
    forall i :: 0 <= i < |shards| ==> |shards[i]| == len
  }

  /** Every present shard has length `len`. */
  ghost predicate PresentLength(shards: seq<Bytes>, len: nat) {
    forall i :: 0 <= i < |shards| ==> shards[i] == [] || |shards[i]| == len
  }

  function Present(shards: seq<Bytes>): (s: set<nat>)
    ensures forall i :: i in s <==> 0 <= i < |shards| && shards[i] != []
  {
    set i: nat | i < |shards| && shards[i] != []
  }

  function Codeword(e: Engine, data: seq<Bytes>): seq<Bytes> {
    data + e.parity(data)
  }

  /** `shards` is `word` with some positions missing. */
  ghost predicate Erasure(shards: seq<Bytes>, word: seq<Bytes>) {
    && |shards| == |word|
    && forall i :: 0 <= i < |word| ==> shards[i] == [] || shards[i] == word[i]
  }

  /** k data shards of one positive length give n - k parity shards of that length. */
  ghost predicate EncodesShape(e: Engine) {
    forall data: seq<Bytes>, len: nat {:trigger e.parity(data), AllLength(data, len)} ::
      len > 0 && |data| == e.k && AllLength(data, len)
      ==> |e.parity(data)| == e.n - e.k && AllLength(e.parity(data), len)
  }

  /** `rebuild` works on n shards in place: it never returns fewer. */
  ghost predicate RebuildsInPlace(e: Engine) {
    forall shards: seq<Bytes> {:trigger e.rebuild(shards)} ::
      |shards| == e.n ==> |e.rebuild(shards)| == e.n
  }

  /** Any k shards of a codeword determine all of it. */
  ghost predicate RecoversCodewords(e: Engine) {
    forall data: seq<Bytes>, len: nat, shards: seq<Bytes>
      {:trigger AllLength(data, len), Erasure(shards, Codeword(e, data))} ::
      len > 0 && |data| == e.k && AllLength(data, len)
      && Erasure(shards, Codeword(e, data)) && |Present(shards)| >= e.k
      ==> e.rebuild(shards) == Codeword(e, data)
  }

  /** What a working engine guarantees on any input, codeword or not. */
  ghost predicate WellFormed(e: Engine) {
    && 0 < e.k < e.n
    && EncodesShape(e)
    && RebuildsInPlace(e)
  }

  ghost predicate MDS(e: Engine) {
    && WellFormed(e)
    && RecoversCodewords(e)
  }

  predicate SameSize(shards: seq<Bytes>) {
    forall i, j :: 0 <= i < |shards| && 0 <= j < |shards| && shards[i] != [] && shards[j] != []
      ==> |shards[i]| == |shards[j]|
  }

  /** The engine's reconstruction call: it refuses when all shards are empty,
      sizes differ, or fewer than k are present. */
  function Reconstruct(e: Engine, shards: seq<Bytes>): Option<seq<Bytes>> {
    if Present(shards) == {} || !SameSize(shards) || |Present(shards)| < e.k then None
    else Some(e.rebuild(shards))
  }

  /** The engine's encoding call: it refuses when all shards are empty. */
  function Encode(e: Engine, data: seq<Bytes>): Option<seq<Bytes>> {
    if Present(data) == {} || !SameSize(data) then None
    else Some(e.parity(data))
  }

  // ---- The contract is not vacuous: one parity shard that makes every byte
  // ---- column sum to zero modulo 256 is an MDS code for every k > 0.

  function Column(shards: seq<Bytes>, p: nat): nat {
    if shards == [] then 0
    else (if p < |shards[0]| then shards[0][p] else 0) + Column(shards[1..], p)
  }

  function Negate(x: nat): byte {
    (256 - x % 256) % 256
  }

  function Balance(shards: seq<Bytes>, len: nat): (r: Bytes)
    ensures |r| == len
  {
    seq(len, p requires 0 <= p < len => Negate(Column(shards, p)))
  }

  function FirstLength(shards: seq<Bytes>): nat {
    if shards == [] then 0
    else if shards[0] != [] then |shards[0]|
    else FirstLength(shards[1..])
  }

  function Fill(shards: seq<Bytes>): (r: seq<Bytes>)
    ensures |r| == |shards|
  {
    seq(|shards|, i requires 0 <= i < |shards| =>
      if shards[i] == [] then Balance(shards, FirstLength(shards)) else shards[i])
  }

  function SumEngine(k: nat): Engine {
    Engine(k, k + 1, (data: seq<Bytes>) => [Balance(data, FirstLength(data))], (shards: seq<Bytes>) => Fill(shards))
  }

  lemma FirstLengthIs(shards: seq<Bytes>, len: nat, i: nat)
    requires PresentLength(shards, len) && i < |shards| && shards[i] != []
    ensures FirstLength(shards) == len
  {
    if shards[0] != [] {
    } else {
      assert PresentLength(shards[1..], len) by {
        assert forall j :: 0 <= j < |shards[1..]| ==> shards[1..][j] == shards[j + 1];
      }
      FirstLengthIs(shards[1..], len, i - 1);
    }
  }

  lemma ColumnAppend(s: seq<Bytes>, t: seq<Bytes>, p: nat)
    ensures Column(s + t, p) == Column(s, p) + Column(t, p)
  {
    if s == [] {
      assert s + t == t;
    } else {
      assert (s + t)[1..] == s[1..] + t;
      ColumnAppend(s[1..], t, p);
    }
  }

  /** Emptying shard `m` removes its byte from each column. */
  lemma ColumnWithout(word: seq<Bytes>, m: nat, p: nat)
    requires m < |word| && p < |word[m]|
    ensures Column(word[m := []], p) + word[m][p] == Column(word, p)
  {
    assert word == word[..m] + [word[m]] + word[m + 1..];
    assert word[m := []] == word[..m] + [[]] + word[m + 1..];
    ColumnAppend(word[..m] + [word[m]], word[m + 1..], p);
    ColumnAppend(word[..m], [word[m]], p);
    ColumnAppend(word[..m] + [[]], word[m + 1..], p);
    ColumnAppend(word[..m], [[]], p);
  }

  lemma NegateIs(x: nat, r: nat, t: int)
    requires r < 256 && x + r == 256 * t
    ensures Negate(x) == r
  {
    if r == 0 { ModUnique(x, t, 0, 256); } else { ModUnique(x, t - 1, 256 - r, 256); }
  }

  lemma NegateSum(x: nat) returns (t: nat)
    ensures x + Negate(x) as int == 256 * t
  {
    t := if x % 256 == 0 then x / 256 else x / 256 + 1;
  }

  lemma SumCodewordBalanced(k: nat, data: seq<Bytes>, len: nat, p: nat)
    requires 0 < k && |data| == k && len > 0 && AllLength(data, len) && p < len
    ensures var w := Codeword(SumEngine(k), data);
      |w| == k + 1 && AllLength(w, len) && Column(w, p) % 256 == 0
  {
    FirstLengthIs(data, len, 0);
    var parity := Balance(data, len);
    assert Codeword(SumEngine(k), data) == data + [parity];
    ColumnAppend(data, [parity], p);
    OneColumn(parity, p);
    var t := NegateSum(Column(data, p));
  }

  lemma OneColumn(b: Bytes, p: nat)
    requires p < |b|
    ensures Column([b], p) == b[p]
  {
    assert [b][1..] == [];
  }

  lemma PresentCount(shards: seq<Bytes>)
    ensures |Present(shards)| <= |shards|
    ensures (exists i :: 0 <= i < |shards| && shards[i] == []) ==> |Present(shards)| < |shards|
    ensures (exists i, j :: 0 <= i < j < |shards| && shards[i] == [] && shards[j] == [])
      ==> |Present(shards)| < |shards| - 1
  {
    var all := Upto(|shards|);
    SubsetSize(Present(shards), all);
    if i :| 0 <= i < |shards| && shards[i] == [] {
      SubsetSize(Present(shards), all - {i});
      if j :| 0 <= j < |shards| && shards[j] == [] && i != j {
        SubsetSize(Present(shards), all - {i} - {j});
      }
    }
  }

  lemma SumRecovers(k: nat, data: seq<Bytes>, len: nat, shards: seq<Bytes>)
    requires 0 < k && |data| == k && len > 0 && AllLength(data, len)
    requires Erasure(shards, Codeword(SumEngine(k), data)) && |Present(shards)| >= k
    ensures Fill(shards) == Codeword(SumEngine(k), data)
  {
    var word := Codeword(SumEngine(k), data);
    SumCodewordBalanced(k, data, len, 0);
    PresentCount(shards);
    forall m | 0 <= m < |word|
      ensures Fill(shards)[m] == word[m]
    {
      if shards[m] == [] {
        assert shards == word[m := []];
        FirstLengthIs(shards, len, if m == 0 then 1 else 0);
        SumFills(k, data, len, m);
      }
    }
  }

  lemma SumFills(k: nat, data: seq<Bytes>, len: nat, m: nat)
    requires 0 < k && |data| == k && len > 0 && AllLength(data, len) && m <= k
    ensures var word := Codeword(SumEngine(k), data);
      |word| == k + 1 && Balance(word[m := []], len) == word[m]
  {
    var word := Codeword(SumEngine(k), data);
    SumCodewordBalanced(k, data, len, 0);
    forall p | 0 <= p < len
      ensures Balance(word[m := []], len)[p] == word[m][p]
    {
      SumCodewordBalanced(k, data, len, p);
      ColumnWithout(word, m, p);
      NegateIs(Column(word[m := []], p), word[m][p], Column(word, p) / 256);
    }
  }

  /** The contract has an instance for every k, with n = k + 1. */
  lemma SumEngineIsMDS(k: nat)
    requires k > 0
    ensures MDS(SumEngine(k)) && SumEngine(k).k == k && SumEngine(k).n == k + 1
  {
    var e := SumEngine(k);
    assert EncodesShape(e) by {
      forall data: seq<Bytes>, len: nat | len > 0 && |data| == k && AllLength(data, len)
        ensures |e.parity(data)| == 1 && AllLength(e.parity(data), len)
      {
        FirstLengthIs(data, len, 0);
      }
    }
    forall data: seq<Bytes>, len: nat, shards: seq<Bytes> |
      len > 0 && |data| == k && AllLength(data, len)
      && Erasure(shards, Codeword(e, data)) && |Present(shards)| >= k
      ensures e.rebuild(shards) == Codeword(e, data)
    {
      SumRecovers(k, data, len, shards);
    }
  }
}
