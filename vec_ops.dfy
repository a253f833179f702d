/**
 * The vector kernel of the recommender (src/vec_ops.rs): dot product,
 * min-max normalisation, clipping, brute-force top-k similarity search,
 * the weighted centroid of rated embeddings and the taste-query policy.
 *
 * Scores are modelled as mathematical reals: there is no rounding and no
 * NaN, so the `partial_cmp(..).unwrap()` of the sort never panics.
 */
module VecOps {
  import opened Wrappers
  import opened Types

  /** Weights of the positive and negative taste vectors, and the clip bound. */
  const POS_WEIGHT: real := 1.0
  const NEG_WEIGHT: real := 1.0
  const CLIP_VALUE: real := 10.0

  function Min(a: nat, b: nat): nat { if a <= b then a else b }

  // ---------------------------------------------------------------------
  // Dot product
  // ---------------------------------------------------------------------

  /** `a.iter().zip(b).map(|(x, y)| x * y).sum()`: `zip` stops at the shorter input. */
  function Dot(a: seq<real>, b: seq<real>): real
    decreases |a|
  {
    if |a| == 0 || |b| == 0 then 0.0 else a[0] * b[0] + Dot(a[1..], b[1..])
  }

  /** Reference definition: the sum of `a[i] * b[i]` for `i < n`, added left to right. */
  function ProductSum(a: seq<real>, b: seq<real>, n: nat): real
    requires n <= |a| && n <= |b|
  {
    if n == 0 then 0.0 else ProductSum(a, b, n - 1) + a[n - 1] * b[n - 1]
  }

  lemma {:induction false} ProductSumShift(a: seq<real>, b: seq<real>, n: nat)
    requires 0 < n <= |a| && n <= |b|
    ensures ProductSum(a, b, n) == a[0] * b[0] + ProductSum(a[1..], b[1..], n - 1)
  {
    if n > 1 {
      ProductSumShift(a, b, n - 1);
    }
  }

  /** The dot product sums the pairwise products of the first `min(|a|, |b|)` positions. */
  lemma {:induction false} DotIsProductSum(a: seq<real>, b: seq<real>)
    ensures Dot(a, b) == ProductSum(a, b, Min(|a|, |b|))
    decreases |a|
  {
    if |a| != 0 && |b| != 0 {
      DotIsProductSum(a[1..], b[1..]);
      ProductSumShift(a, b, Min(|a|, |b|));
    }
  }

  /** The dot product is symmetric, whichever input is longer. */
  lemma {:induction false} DotSymmetric(a: seq<real>, b: seq<real>)
    ensures Dot(a, b) == Dot(b, a)
    decreases |a|
  {
    if |a| != 0 && |b| != 0 {
      DotSymmetric(a[1..], b[1..]);
    }
  }

  // ---------------------------------------------------------------------
  // Normalisation
  // ---------------------------------------------------------------------

  /** `f32::clamp`, which panics unless `lo <= hi`. */
  function Clamp(x: real, lo: real, hi: real): (r: real)
    requires lo <= hi
    ensures lo <= r <= hi
    ensures lo <= x <= hi ==> r == x
    ensures x < lo ==> r == lo
    ensures hi < x ==> r == hi
  {
    if x < lo then lo else if hi < x then hi else x
  }

  /** Where a quotient by a positive denominator falls relative to 0 and 1. */
  lemma QuotientBounds(x: real, d: real)
    requires 0.0 < d
    ensures x <= 0.0 ==> x / d <= 0.0
    ensures d <= x ==> 1.0 <= x / d
  {
    assert (x / d) * d == x;
  }

  /** Min-max normalisation into [0, 1]; a degenerate range maps everything to 0. */
  function Norm(value: real, min: real, max: real): (r: real)
    ensures 0.0 <= r <= 1.0
    ensures max <= min ==> r == 0.0
    ensures min < max && value <= min ==> r == 0.0
    ensures min < max && max <= value ==> r == 1.0
    ensures min < max && min <= value <= max ==> r == (value - min) / (max - min)
  {
    if max <= min then 0.0
    else
      var t := (value - min) / (max - min);
      QuotientBounds(value - min, max - min);
      Clamp(t, 0.0, 1.0)
  }

  lemma DivMonotone(x: real, y: real, d: real)
    requires x <= y && 0.0 < d
    ensures x / d <= y / d
  {
    assert y / d - x / d == (y - x) / d;
  }

  /** For a fixed range, normalisation never decreases as the value grows. */
  lemma NormMonotone(v1: real, v2: real, min: real, max: real)
    requires v1 <= v2
    ensures Norm(v1, min, max) <= Norm(v2, min, max)
  {
    if min < max {
      DivMonotone(v1 - min, v2 - min, max - min);
    }
  }

  /**
   * `norm(ln(value + 1), minLog, maxLog)`. The natural logarithm is a
   * parameter `ln`; only `ln(1) == 0` is ever assumed about it.
   */
  function LogNorm(value: U32, minLog: real, maxLog: real, ln: real -> real): (r: real)
    ensures 0.0 <= r <= 1.0
    ensures maxLog <= minLog ==> r == 0.0
  {
    Norm(ln(value as real + 1.0), minLog, maxLog)
  }

  /** A zero count is normalised as the value 0, because ln(1) = 0. */
  lemma LogNormOfZero(minLog: real, maxLog: real, ln: real -> real)
    requires ln(1.0) == 0.0
    ensures LogNorm(0, minLog, maxLog, ln) == Norm(0.0, minLog, maxLog)
  {
  }

  // ---------------------------------------------------------------------
  // Clipping
  // ---------------------------------------------------------------------

  /** The value of a vector after every component has been clamped into [-c, c]. */
  function Clipped(v: seq<real>, c: real): (r: seq<real>)
    requires 0.0 <= c
    ensures |r| == |v|
    ensures forall i :: 0 <= i < |r| ==> -c <= r[i] <= c
    ensures forall i :: 0 <= i < |r| && -c <= v[i] <= c ==> r[i] == v[i]
    ensures forall i :: 0 <= i < |r| && v[i] < -c ==> r[i] == -c
    ensures forall i :: 0 <= i < |r| && c < v[i] ==> r[i] == c
  {
    seq(|v|, i requires 0 <= i < |v| => Clamp(v[i], -c, c))
  }

  /** A vector already inside [-c, c] is left as it is. */
  lemma ClippedInRange(v: seq<real>, c: real)
    requires 0.0 <= c
    requires forall i :: 0 <= i < |v| ==> -c <= v[i] <= c
    ensures Clipped(v, c) == v
  {
    assert forall i :: 0 <= i < |v| ==> Clipped(v, c)[i] == v[i];
  }

  /** Clipping twice is clipping once. */
  lemma ClippedIdempotent(v: seq<real>, c: real)
    requires 0.0 <= c
    ensures Clipped(Clipped(v, c), c) == Clipped(v, c)
  {
    ClippedInRange(Clipped(v, c), c);
  }

  /** Clamps the vector in place; Rust's `clamp(-c, c)` panics when `c < 0`. */
  method Clip(v: array<real>, c: real)
    requires 0.0 <= c
    modifies v
    ensures v[..] == Clipped(old(v[..]), c)
  {
    for i := 0 to v.Length
      invariant forall j :: 0 <= j < i ==> v[j] == Clamp(old(v[j]), -c, c)
      invariant forall j :: i <= j < v.Length ==> v[j] == old(v[j])
    {
      v[i] := Clamp(v[i], -c, c);
    }
  }

  // ---------------------------------------------------------------------
  // Brute-force similarity search
  // ---------------------------------------------------------------------

  /** An `(index, score)` pair produced by the search. */
  type Scored = (nat, real)

  /** The score of every embedding against the query, in catalog order. */
  function Scores(query: seq<real>, embeddings: seq<seq<real>>): (s: seq<real>)
    ensures |s| == |embeddings|
    ensures forall i :: 0 <= i < |s| ==> s[i] == Dot(query, embeddings[i])
  {
    seq(|embeddings|, i requires 0 <= i < |embeddings| => Dot(query, embeddings[i]))
  }

  /**
   * The order a stable descending sort leaves index-ordered pairs in:
   * higher score first, and on equal scores the smaller index first.
   */
  predicate Before(p: Scored, q: Scored) {
    p.1 > q.1 || (p.1 == q.1 && p.0 < q.0)
  }

  /** Every earlier pair comes strictly `Before` every later one. */
  predicate Ranked(s: seq<Scored>) {
    forall j, l :: 0 <= j < l < |s| ==> Before(s[j], s[l])
  }

  function Indices(s: seq<Scored>): (r: seq<nat>)
    ensures |r| == |s|
    ensures forall j :: 0 <= j < |s| ==> r[j] == s[j].0
  {
    seq(|s|, j requires 0 <= j < |s| => s[j].0)
  }

  /**
   * `top` is the top-`k` of `scores`: `min(k, |scores|)` pairs, each an
   * index into `scores` with its own score, ranked by `Before`, and every
   * index left out ranks after the last one returned.
   */
  predicate IsTopK(scores: seq<real>, k: nat, top: seq<Scored>) {
    |top| == Min(k, |scores|) &&
    (forall j :: 0 <= j < |top| ==> top[j].0 < |scores| && top[j].1 == scores[top[j].0]) &&
    Ranked(top) &&
    (0 < |top| ==> forall i :: 0 <= i < |scores| && i !in Indices(top) ==> Before(top[|top| - 1], (i, scores[i])))
  }

  /** What a top-k result promises its caller. */
  lemma TopKProperties(scores: seq<real>, k: nat, top: seq<Scored>)
    requires IsTopK(scores, k, top)
    ensures |top| <= k && |top| <= |scores|
    ensures k == 0 ==> top == []
    ensures forall j, l :: 0 <= j < l < |top| ==> top[j].0 != top[l].0
    ensures forall j, l :: 0 <= j < l < |top| ==> top[j].1 >= top[l].1
    ensures forall j, l :: 0 <= j < l < |top| && top[j].1 == top[l].1 ==> top[j].0 < top[l].0
    ensures 0 < |top| ==> forall i :: 0 <= i < |scores| && i !in Indices(top) ==> scores[i] <= top[|top| - 1].1
  {
  }

  /** The position of an index that a top-k result leaves out. */
  lemma {:induction false} TopKNotBefore(scores: seq<real>, k: nat, t1: seq<Scored>, t2: seq<Scored>, j: nat)
    requires IsTopK(scores, k, t1) && IsTopK(scores, k, t2)
    requires j < |t1| && t1[..j] == t2[..j]
    ensures !Before(t1[j], t2[j])
  {
    var x, y := t1[j], t2[j];
    assert x.0 < |scores| && x.1 == scores[x.0];
    if x.0 in Indices(t2) {
      var l :| 0 <= l < |t2| && Indices(t2)[l] == x.0;
      TopKFound(scores, k, t1, t2, j, l);
    } else {
      assert Before(t2[|t2| - 1], (x.0, scores[x.0]));
      if |t2| - 1 != j {
        assert Before(y, t2[|t2| - 1]);
      }
    }
  }

  /** Where `t1[j]` reappears in an agreeing top-k result `t2`, it does not precede `t2[j]`. */
  lemma TopKFound(scores: seq<real>, k: nat, t1: seq<Scored>, t2: seq<Scored>, j: nat, l: nat)
    requires IsTopK(scores, k, t1) && IsTopK(scores, k, t2)
    requires j < |t1| && t1[..j] == t2[..j]
    requires l < |t2| && t2[l].0 == t1[j].0
    ensures j <= l && !Before(t1[j], t2[j])
  {
    var x := t1[j];
    forall m | 0 <= m < j
      ensures t2[m] != x
    {
      assert t2[m] == t2[..j][m] == t1[m];
      assert Before(t1[m], x);
    }
    assert t2[l] == x;
    if l > j {
      assert Before(t2[j], t2[l]);
    }
  }

  lemma {:induction false} TopKAgree(scores: seq<real>, k: nat, t1: seq<Scored>, t2: seq<Scored>, j: nat)
    requires IsTopK(scores, k, t1) && IsTopK(scores, k, t2)
    requires j <= |t1|
    ensures t1[..j] == t2[..j]
  {
    if j > 0 {
      TopKAgree(scores, k, t1, t2, j - 1);
      TopKNotBefore(scores, k, t1, t2, j - 1);
      TopKNotBefore(scores, k, t2, t1, j - 1);
      BeforeTotal(t1[j - 1], t2[j - 1]);
      PrefixStep(t1, t2, j - 1);
    }
  }

  /** `Before` is a total order: two pairs neither of which precedes the other are equal. */
  lemma BeforeTotal(x: Scored, y: Scored)
    requires !Before(x, y) && !Before(y, x)
    ensures x == y
  {
  }

  lemma PrefixStep(t1: seq<Scored>, t2: seq<Scored>, j: nat)
    requires j < |t1| && j < |t2| && t1[..j] == t2[..j] && t1[j] == t2[j]
    ensures t1[..j + 1] == t2[..j + 1]
  {
    assert t1[..j + 1] == t1[..j] + [t1[j]];
    assert t2[..j + 1] == t2[..j] + [t2[j]];
  }

  /**
   * The top-k contract leaves no freedom: ties are broken by index, so
   * there is exactly one result for given scores and `k`.
   */
  lemma TopKUnique(scores: seq<real>, k: nat, t1: seq<Scored>, t2: seq<Scored>)
    requires IsTopK(scores, k, t1) && IsTopK(scores, k, t2)
    ensures t1 == t2
  {
    TopKAgree(scores, k, t1, t2, |t1|);
    assert t1 == t1[..|t1|] && t2 == t2[..|t2|];
  }

  /** `s` with the elements at positions `p` and `q` exchanged. */
  function Swapped(s: seq<Scored>, p: nat, q: nat): (r: seq<Scored>)
    requires p < |s| && q < |s|
    ensures |r| == |s|
    ensures multiset(r) == multiset(s)
  {
    s[p := s[q]][q := s[p]]
  }

  /**
   * Midway through inserting `x = s[j]` into the ranked prefix `s[..i + 1]`:
   * the other prefix elements are ranked, `x` outscores everything it has
   * passed, and `x` carries the largest index of the prefix.
   */
  ghost predicate Inserting(s: seq<Scored>, i: nat, j: nat, x: Scored) {
    j <= i < |s| && s[j] == x &&
    (forall p, q :: 0 <= p < q <= i && p != j && q != j ==> Before(s[p], s[q])) &&
    (forall q :: j < q <= i ==> x.1 > s[q].1) &&
    (forall p :: 0 <= p <= i && p != j ==> s[p].0 < x.0) &&
    (forall p, q :: 0 <= p <= i < q < |s| ==> s[p].0 < s[q].0)
  }

  lemma InsertingSwap(s: seq<Scored>, i: nat, j: nat, x: Scored)
    requires Inserting(s, i, j, x) && 0 < j && s[j - 1].1 < x.1
    ensures Inserting(Swapped(s, j - 1, j), i, j - 1, x)
  {
    var t := Swapped(s, j - 1, j);
    assert t[j - 1] == x && t[j] == s[j - 1];
    assert forall p :: 0 <= p < |s| && p != j - 1 && p != j ==> t[p] == s[p];
  }

  lemma InsertingDone(s: seq<Scored>, i: nat, j: nat, x: Scored)
    requires Inserting(s, i, j, x) && (j == 0 || s[j - 1].1 >= x.1)
    ensures Ranked(s[..i + 1])
  {
    forall p, q | 0 <= p < q <= i
      ensures Before(s[p], s[q])
    {
      if q == j && p < j - 1 {
        assert Before(s[p], s[j - 1]);
      }
    }
  }

  /** The whole loop state of one insertion step, against the array contents `s0` it started from. */
  ghost predicate InsertState(s: seq<Scored>, s0: seq<Scored>, i: nat, j: nat, x: Scored) {
    Inserting(s, i, j, x) && |s| == |s0| && s[i + 1..] == s0[i + 1..] && multiset(s) == multiset(s0)
  }

  lemma InsertStateStart(s: seq<Scored>, i: nat)
    requires i < |s| && Ranked(s[..i])
    requires forall p :: 0 <= p < i ==> s[p].0 < s[i].0
    requires forall p, q :: 0 <= p <= i < q < |s| ==> s[p].0 < s[q].0
    ensures InsertState(s, s, i, i, s[i])
  {
    assert forall p :: 0 <= p < i ==> s[..i][p] == s[p];
  }

  lemma InsertStateSwap(s: seq<Scored>, s0: seq<Scored>, i: nat, j: nat, x: Scored)
    requires InsertState(s, s0, i, j, x) && 0 < j && s[j - 1].1 < x.1
    ensures InsertState(Swapped(s, j - 1, j), s0, i, j - 1, x)
  {
    InsertingSwap(s, i, j, x);
    var t := Swapped(s, j - 1, j);
    assert t[i + 1..] == s[i + 1..];
  }

  lemma InsertStateDone(s: seq<Scored>, s0: seq<Scored>, i: nat, j: nat, x: Scored)
    requires InsertState(s, s0, i, j, x) && (j == 0 || s[j - 1].1 >= x.1)
    ensures Ranked(s[..i + 1])
    ensures forall p, q :: 0 <= p <= i < q < |s| ==> s[p].0 < s[q].0
  {
    InsertingDone(s, i, j, x);
  }

  /** Exchanges `a[j - 1]` and `a[j]`. */
  method SwapAdjacent(a: array<Scored>, j: nat)
    requires 0 < j < a.Length
    modifies a
    ensures a[..] == Swapped(old(a[..]), j - 1, j)
  {
    a[j - 1], a[j] := a[j], a[j - 1];
  }

  /**
   * Moves `a[i]` left past every pair with a strictly lower score, as a
   * stable sort does: it stops at the first pair scoring at least as high.
   */
  method InsertLast(a: array<Scored>, i: nat)
    requires i < a.Length
    requires Ranked(a[..i])
    requires forall p :: 0 <= p < i ==> a[p].0 < a[i].0
    requires forall p, q :: 0 <= p <= i < q < a.Length ==> a[p].0 < a[q].0
    modifies a
    ensures Ranked(a[..i + 1])
    ensures forall p, q :: 0 <= p <= i < q < a.Length ==> a[p].0 < a[q].0
    ensures a[i + 1..] == old(a[i + 1..])
    ensures multiset(a[..]) == multiset(old(a[..]))
  {
    ghost var x := a[i];
    InsertStateStart(a[..], i);
    ghost var s := a[..];
    var j := i;
    while 0 < j && a[j - 1].1 < a[j].1
      invariant a[..] == s && InsertState(s, old(a[..]), i, j, x)
      decreases j
    {
      InsertStateSwap(s, old(a[..]), i, j, x);
      SwapAdjacent(a, j);
      s := Swapped(s, j - 1, j);
      j := j - 1;
    }
    InsertStateDone(s, old(a[..]), i, j, x);
    assert a[..i + 1] == a[..][..i + 1];
  }

  /**
   * `scores.sort_by(|a, b| b.1.partial_cmp(&a.1).unwrap())` on pairs whose
   * indices ascend: a stable sort by descending score.
   */
  method SortByScoreDescending(a: array<Scored>)
    requires forall p, q :: 0 <= p < q < a.Length ==> a[p].0 < a[q].0
    modifies a
    ensures Ranked(a[..])
    ensures multiset(a[..]) == multiset(old(a[..]))
  {
    for i := 0 to a.Length
      invariant Ranked(a[..i])
      invariant forall p, q :: 0 <= p < i <= q < a.Length ==> a[p].0 < a[q].0
      invariant forall p, q :: i <= p < q < a.Length ==> a[p].0 < a[q].0
      invariant multiset(a[..]) == multiset(old(a[..]))
    {
      InsertLast(a, i);
    }
    assert a[..] == a[..a.Length];
  }

  /** The `(index, score)` pairs in index order, as the indexed parallel map collects them. */
  predicate Enumerated(all: seq<Scored>, scores: seq<real>) {
    |all| == |scores| && forall i :: 0 <= i < |all| ==> all[i] == (i, scores[i])
  }

  /** Truncating a ranked permutation of the enumerated pairs to `k` yields the top-`k`. */
  lemma RankedPrefixIsTopK(scores: seq<real>, all: seq<Scored>, sorted: seq<Scored>, k: nat)
    requires Enumerated(all, scores)
    requires Ranked(sorted) && multiset(sorted) == multiset(all)
    ensures IsTopK(scores, k, sorted[..Min(k, |sorted|)])
  {
    var n := |scores|;
    assert |sorted| == n by {
      assert |multiset(sorted)| == |multiset(all)|;
    }
    var top := sorted[..Min(k, n)];
    forall j | 0 <= j < |top|
      ensures top[j].0 < n && top[j].1 == scores[top[j].0]
    {
      assert sorted[j] in multiset(all);
    }
    forall i | 0 <= i < n && i !in Indices(top) && 0 < |top|
      ensures Before(top[|top| - 1], (i, scores[i]))
    {
      assert all[i] in multiset(sorted);
      assert forall p :: 0 <= p < |top| ==> sorted[p].0 == Indices(top)[p] != i;
      var p :| 0 <= p < n && sorted[p] == all[i];
    }
  }

  /**
   * Scores every embedding against the query, sorts the `(index, score)`
   * pairs by descending score and keeps the first `k`.
   */
  method SearchSimilarity(query: seq<real>, embeddings: seq<seq<real>>, k: nat) returns (top: seq<Scored>)
    ensures IsTopK(Scores(query, embeddings), k, top)
  {
    var n := |embeddings|;
    var scores := new Scored[n];
    for i := 0 to n
      invariant forall j :: 0 <= j < i ==> scores[j] == (j, Dot(query, embeddings[j]))
    {
      scores[i] := (i, Dot(query, embeddings[i]));
    }
    ghost var all := scores[..];
    assert Enumerated(all, Scores(query, embeddings));
    SortByScoreDescending(scores);
    RankedPrefixIsTopK(Scores(query, embeddings), all, scores[..], k);
    top := scores[..Min(k, n)];
  }

  // ---------------------------------------------------------------------
  // Weighted centroid
  // ---------------------------------------------------------------------

  /** An embedding with its signed preference weight. */
  type WeightedEmbedding = (seq<real>, real)

  function Abs(x: real): real { if x < 0.0 then -x else x }

  /** A pair takes part in the centroid when it has the fixed dimension and a nonzero weight. */
  predicate Kept(p: WeightedEmbedding, dim: nat) {
    |p.0| == dim && Abs(p.1) != 0.0
  }

  /** What one pair adds to the weight sum: `|weight|` if kept, else nothing. */
  function WeightOf(p: WeightedEmbedding, dim: nat): real {
    if Kept(p, dim) then Abs(p.1) else 0.0
  }

  /** What one pair adds to component `j` of the accumulator. */
  function TermOf(p: WeightedEmbedding, dim: nat, j: nat): real
    requires j < dim
  {
    if Kept(p, dim) then p.0[j] * Abs(p.1) else 0.0
  }

  /** The sum of a sequence of reals, accumulated from the front. */
  function Sum(xs: seq<real>): real {
    if xs == [] then 0.0 else Sum(xs[..|xs| - 1]) + xs[|xs| - 1]
  }

  /** What each pair adds to the weight sum. */
  function Weights(ps: seq<WeightedEmbedding>, dim: nat): (r: seq<real>)
    ensures |r| == |ps| && forall i :: 0 <= i < |ps| ==> r[i] == WeightOf(ps[i], dim)
  {
    seq(|ps|, i requires 0 <= i < |ps| => WeightOf(ps[i], dim))
  }

  /** What each pair adds to component `j` of the accumulator. */
  function Terms(ps: seq<WeightedEmbedding>, dim: nat, j: nat): (r: seq<real>)
    requires j < dim
    ensures |r| == |ps| && forall i :: 0 <= i < |ps| ==> r[i] == TermOf(ps[i], dim, j)
  {
    seq(|ps|, i requires 0 <= i < |ps| => TermOf(ps[i], dim, j))
  }

  /** The sum of `|weight|` over the kept pairs. */
  function WeightSum(ps: seq<WeightedEmbedding>, dim: nat): real {
    Sum(Weights(ps, dim))
  }

  /** The sum of `emb[j] * |weight|` over the kept pairs. */
  function WeightedSum(ps: seq<WeightedEmbedding>, dim: nat, j: nat): real
    requires j < dim
  {
    Sum(Terms(ps, dim, j))
  }

  lemma WeightSumEmpty(dim: nat)
    ensures WeightSum([], dim) == 0.0
    ensures forall j :: 0 <= j < dim ==> WeightedSum([], dim, j) == 0.0
  {
    assert Weights([], dim) == [];
    forall j | 0 <= j < dim
      ensures WeightedSum([], dim, j) == 0.0
    {
      assert Terms([], dim, j) == [];
    }
  }

  /** The running sums grow by the contribution of the last pair. */
  lemma WeightSumLast(ps: seq<WeightedEmbedding>, dim: nat)
    requires ps != []
    ensures WeightSum(ps, dim) == WeightSum(ps[..|ps| - 1], dim) + WeightOf(ps[|ps| - 1], dim)
    ensures forall j :: 0 <= j < dim ==>
      WeightedSum(ps, dim, j) == WeightedSum(ps[..|ps| - 1], dim, j) + TermOf(ps[|ps| - 1], dim, j)
  {
    var n := |ps| - 1;
    assert Weights(ps, dim)[..n] == Weights(ps[..n], dim);
    forall j | 0 <= j < dim
      ensures WeightedSum(ps, dim, j) == WeightedSum(ps[..n], dim, j) + TermOf(ps[n], dim, j)
    {
      assert Terms(ps, dim, j)[..n] == Terms(ps[..n], dim, j);
    }
  }

  /**
   * The centroid of the pairs: the dimension is that of `pairs[0]`, whether
   * or not `pairs[0]` itself is kept; the weighted mean of the kept
   * embeddings, clipped to [-10, 10]; nothing when no weight is left.
   */
  function Centroid(pairs: seq<WeightedEmbedding>): Option<seq<real>> {
    if pairs == [] then None
    else
      var dim := |pairs[0].0|;
      var total := WeightSum(pairs, dim);
      if total == 0.0 then None
      else Some(Clipped(seq(dim, j requires 0 <= j < dim => WeightedSum(pairs, dim, j) / total), 10.0))
  }

  /** A sum of non-negative reals is non-negative, and zero exactly when every summand is. */
  lemma {:induction false} SumZeroIff(xs: seq<real>)
    requires forall i :: 0 <= i < |xs| ==> 0.0 <= xs[i]
    ensures 0.0 <= Sum(xs)
    ensures Sum(xs) == 0.0 <==> forall i :: 0 <= i < |xs| ==> xs[i] == 0.0
  {
    if xs != [] {
      var init := xs[..|xs| - 1];
      SumZeroIff(init);
      assert forall i :: 0 <= i < |init| ==> init[i] == xs[i];
    }
  }

  /** The weight sum is never negative, and it is zero exactly when no pair is kept. */
  lemma WeightSumZeroIff(ps: seq<WeightedEmbedding>, dim: nat)
    ensures 0.0 <= WeightSum(ps, dim)
    ensures WeightSum(ps, dim) == 0.0 <==> forall i :: 0 <= i < |ps| ==> !Kept(ps[i], dim)
  {
    SumZeroIff(Weights(ps, dim));
  }

  /** No centroid exactly when there are no pairs or every pair is skipped. */
  lemma CentroidNoneIff(pairs: seq<WeightedEmbedding>)
    ensures Centroid(pairs).None? <==>
      pairs == [] || forall i :: 0 <= i < |pairs| ==> !Kept(pairs[i], |pairs[0].0|)
  {
    if pairs != [] {
      WeightSumZeroIff(pairs, |pairs[0].0|);
    }
  }

  /** A centroid has the dimension of `pairs[0]` and every component in [-10, 10]. */
  lemma CentroidShape(pairs: seq<WeightedEmbedding>)
    requires Centroid(pairs).Some?
    ensures |Centroid(pairs).value| == |pairs[0].0|
    ensures forall j :: 0 <= j < |pairs[0].0| ==> -10.0 <= Centroid(pairs).value[j] <= 10.0
  {
  }

  /** Two pair lists with the same embeddings and the same weight magnitudes. */
  predicate SameMagnitudes(ps: seq<WeightedEmbedding>, qs: seq<WeightedEmbedding>) {
    |ps| == |qs| && forall i :: 0 <= i < |ps| ==> ps[i].0 == qs[i].0 && Abs(ps[i].1) == Abs(qs[i].1)
  }

  lemma SumsOnlySeeMagnitudes(ps: seq<WeightedEmbedding>, qs: seq<WeightedEmbedding>, dim: nat)
    requires SameMagnitudes(ps, qs)
    ensures WeightSum(ps, dim) == WeightSum(qs, dim)
    ensures forall j :: 0 <= j < dim ==> WeightedSum(ps, dim, j) == WeightedSum(qs, dim, j)
  {
    assert Weights(ps, dim) == Weights(qs, dim);
    forall j | 0 <= j < dim
      ensures WeightedSum(ps, dim, j) == WeightedSum(qs, dim, j)
    {
      forall i | 0 <= i < |ps|
        ensures TermOf(ps[i], dim, j) == TermOf(qs[i], dim, j)
      {
      }
      assert Terms(ps, dim, j) == Terms(qs, dim, j);
    }
  }

  /** Only the magnitude of each weight matters: negating any weights leaves the centroid unchanged. */
  lemma CentroidSignInvariant(pairs: seq<WeightedEmbedding>, flipped: seq<WeightedEmbedding>)
    requires SameMagnitudes(pairs, flipped)
    ensures Centroid(flipped) == Centroid(pairs)
  {
    if pairs != [] {
      var dim := |pairs[0].0|;
      SumsOnlySeeMagnitudes(pairs, flipped, dim);
      var total := WeightSum(pairs, dim);
      if total != 0.0 {
        var mean := seq(dim, j requires 0 <= j < dim => WeightedSum(pairs, dim, j) / total);
        var mean' := seq(dim, j requires 0 <= j < dim => WeightedSum(flipped, dim, j) / total);
        assert mean' == mean;
      }
    }
  }

  function ScaleWeight(p: WeightedEmbedding, c: real): WeightedEmbedding {
    (p.0, c * p.1)
  }

  /** Every weight multiplied by `c`. */
  function Scaled(ps: seq<WeightedEmbedding>, c: real): (r: seq<WeightedEmbedding>)
    ensures |r| == |ps| && forall i :: 0 <= i < |ps| ==> r[i] == ScaleWeight(ps[i], c)
  {
    seq(|ps|, i requires 0 <= i < |ps| => ScaleWeight(ps[i], c))
  }

  lemma AbsScale(c: real, w: real)
    requires 0.0 < c
    ensures Abs(c * w) == c * Abs(w)
    ensures Abs(c * w) != 0.0 <==> Abs(w) != 0.0
  {
    if w < 0.0 {
      assert c * w < 0.0;
    } else if w > 0.0 {
      assert c * w > 0.0;
    }
  }

  lemma WeightOfScale(p: WeightedEmbedding, c: real, dim: nat)
    requires 0.0 < c
    ensures WeightOf(ScaleWeight(p, c), dim) == c * WeightOf(p, dim)
  {
    AbsScale(c, p.1);
  }

  lemma TermOfScale(p: WeightedEmbedding, c: real, dim: nat, j: nat)
    requires 0.0 < c && j < dim
    ensures TermOf(ScaleWeight(p, c), dim, j) == c * TermOf(p, dim, j)
  {
    AbsScale(c, p.1);
    if Kept(p, dim) {
      assert p.0[j] * (c * Abs(p.1)) == c * (p.0[j] * Abs(p.1));
    }
  }

  lemma Distrib(c: real, a: real, b: real)
    ensures c * (a + b) == c * a + c * b
  {
  }

  /** Every element multiplied by `c`. */
  function ScaleAll(xs: seq<real>, c: real): (r: seq<real>)
    ensures |r| == |xs| && forall i :: 0 <= i < |xs| ==> r[i] == c * xs[i]
  {
    seq(|xs|, i requires 0 <= i < |xs| => c * xs[i])
  }

  /** Multiplying every summand by `c` multiplies the sum by `c`. */
  lemma {:induction false} SumScaled(xs: seq<real>, c: real)
    ensures Sum(ScaleAll(xs, c)) == c * Sum(xs)
  {
    if xs != [] {
      var n := |xs| - 1;
      SumScaled(xs[..n], c);
      assert ScaleAll(xs, c)[..n] == ScaleAll(xs[..n], c) by {
        forall i | 0 <= i < n
          ensures ScaleAll(xs, c)[i] == ScaleAll(xs[..n], c)[i]
        {
          assert xs[..n][i] == xs[i];
        }
      }
      Distrib(c, Sum(xs[..n]), xs[n]);
    } else {
      assert ScaleAll(xs, c) == [];
    }
  }

  lemma WeightsScaled(ps: seq<WeightedEmbedding>, c: real, dim: nat)
    requires 0.0 < c
    ensures Weights(Scaled(ps, c), dim) == ScaleAll(Weights(ps, dim), c)
  {
    forall i | 0 <= i < |ps|
      ensures Weights(Scaled(ps, c), dim)[i] == ScaleAll(Weights(ps, dim), c)[i]
    {
      WeightOfScale(ps[i], c, dim);
    }
  }

  lemma TermsScaled(ps: seq<WeightedEmbedding>, c: real, dim: nat, j: nat)
    requires 0.0 < c && j < dim
    ensures Terms(Scaled(ps, c), dim, j) == ScaleAll(Terms(ps, dim, j), c)
  {
    forall i | 0 <= i < |ps|
      ensures Terms(Scaled(ps, c), dim, j)[i] == ScaleAll(Terms(ps, dim, j), c)[i]
    {
      TermOfScale(ps[i], c, dim, j);
    }
  }

  lemma WeightSumScale(ps: seq<WeightedEmbedding>, c: real, dim: nat)
    requires 0.0 < c
    ensures WeightSum(Scaled(ps, c), dim) == c * WeightSum(ps, dim)
  {
    WeightsScaled(ps, c, dim);
    SumScaled(Weights(ps, dim), c);
  }

  lemma WeightedSumScale(ps: seq<WeightedEmbedding>, c: real, dim: nat, j: nat)
    requires 0.0 < c && j < dim
    ensures WeightedSum(Scaled(ps, c), dim, j) == c * WeightedSum(ps, dim, j)
  {
    TermsScaled(ps, c, dim, j);
    SumScaled(Terms(ps, dim, j), c);
  }

  lemma QuotientScale(x: real, d: real, c: real)
    requires d != 0.0 && c != 0.0
    ensures (c * x) / (c * d) == x / d
  {
    assert (x / d) * (c * d) == c * x;
  }

  /** The centroid is a weighted mean: scaling every weight by `c > 0` leaves it unchanged. */
  lemma CentroidScaleInvariant(pairs: seq<WeightedEmbedding>, c: real)
    requires 0.0 < c
    ensures Centroid(Scaled(pairs, c)) == Centroid(pairs)
  {
    if pairs != [] {
      var dim := |pairs[0].0|;
      var scaled := Scaled(pairs, c);
      WeightSumScale(pairs, c, dim);
      forall j | 0 <= j < dim
        ensures WeightedSum(scaled, dim, j) == c * WeightedSum(pairs, dim, j)
      {
        WeightedSumScale(pairs, c, dim, j);
      }
      var total := WeightSum(pairs, dim);
      if total != 0.0 {
        MeanScale(pairs, c, dim, total);
      }
    }
  }

  lemma MeanScale(pairs: seq<WeightedEmbedding>, c: real, dim: nat, total: real)
    requires 0.0 < c && total != 0.0
    requires WeightSum(Scaled(pairs, c), dim) == c * total
    requires forall j :: 0 <= j < dim ==> WeightedSum(Scaled(pairs, c), dim, j) == c * WeightedSum(pairs, dim, j)
    ensures seq(dim, j requires 0 <= j < dim => WeightedSum(Scaled(pairs, c), dim, j) / WeightSum(Scaled(pairs, c), dim))
         == seq(dim, j requires 0 <= j < dim => WeightedSum(pairs, dim, j) / total)
  {
    forall j | 0 <= j < dim
      ensures WeightedSum(Scaled(pairs, c), dim, j) / WeightSum(Scaled(pairs, c), dim) == WeightedSum(pairs, dim, j) / total
    {
      var x := WeightedSum(pairs, dim, j);
      assert WeightedSum(Scaled(pairs, c), dim, j) == c * x;
      QuotientScale(x, total, c);
    }
  }

  /** `acc += v * w`, component-wise, in place. */
  method AddScaled(acc: array<real>, v: seq<real>, w: real)
    requires |v| == acc.Length
    modifies acc
    ensures forall j :: 0 <= j < acc.Length ==> acc[j] == old(acc[j]) + v[j] * w
  {
    for i := 0 to acc.Length
      invariant forall j :: 0 <= j < i ==> acc[j] == old(acc[j]) + v[j] * w
      invariant forall j :: i <= j < acc.Length ==> acc[j] == old(acc[j])
    {
      acc[i] := acc[i] + v[i] * w;
    }
  }

  /** `acc /= d`, component-wise, in place. */
  method DivideAll(acc: array<real>, d: real)
    requires d != 0.0
    modifies acc
    ensures forall j :: 0 <= j < acc.Length ==> acc[j] == old(acc[j]) / d
  {
    for i := 0 to acc.Length
      invariant forall j :: 0 <= j < i ==> acc[j] == old(acc[j]) / d
      invariant forall j :: i <= j < acc.Length ==> acc[j] == old(acc[j])
    {
      acc[i] := acc[i] / d;
    }
  }

  /**
   * The accumulation loop: adds `emb * |weight|` into `acc` and `|weight|`
   * into a running sum for every pair of dimension `dim` with a nonzero
   * weight, skipping the others.
   */
  method Accumulate(pairs: seq<WeightedEmbedding>, dim: nat) returns (acc: array<real>, weightSum: real)
    ensures fresh(acc) && acc.Length == dim
    ensures weightSum == WeightSum(pairs, dim)
    ensures forall j :: 0 <= j < dim ==> acc[j] == WeightedSum(pairs, dim, j)
  {
    acc := new real[dim](_ => 0.0);
    weightSum := 0.0;
    WeightSumEmpty(dim);
    for p := 0 to |pairs|
      invariant weightSum == WeightSum(pairs[..p], dim)
      invariant forall j :: 0 <= j < dim ==> acc[j] == WeightedSum(pairs[..p], dim, j)
    {
      var (emb, weight) := pairs[p];
      assert pairs[..p + 1][..p] == pairs[..p];
      WeightSumLast(pairs[..p + 1], dim);
      if |emb| != dim {
        continue;
      }
      var w := Abs(weight);
      if w == 0.0 {
        continue;
      }
      weightSum := weightSum + w;
      AddScaled(acc, emb, w);
    }
    assert pairs[..|pairs|] == pairs;
  }

  /**
   * Accumulates over the pairs, divides the accumulator by the weight sum
   * in place and clips it.
   */
  method WeightedCentroid(pairs: seq<WeightedEmbedding>) returns (r: Option<seq<real>>)
    ensures r == Centroid(pairs)
  {
    if |pairs| == 0 {
      return None;
    }
    var dim := |pairs[0].0|;
    var acc, weightSum := Accumulate(pairs, dim);
    if weightSum == 0.0 {
      return None;
    }
    DivideAll(acc, weightSum);
    assert acc[..] == seq(dim, j requires 0 <= j < dim => WeightedSum(pairs, dim, j) / weightSum);
    Clip(acc, 10.0);
    r := Some(acc[..]);
  }

  // ---------------------------------------------------------------------
  // Taste query
  // ---------------------------------------------------------------------

  function Negated(v: seq<real>): (r: seq<real>)
    ensures |r| == |v| && forall i :: 0 <= i < |v| ==> r[i] == -v[i]
  {
    seq(|v|, i requires 0 <= i < |v| => -v[i])
  }

  /** `POS_WEIGHT * p - NEG_WEIGHT * n`, component-wise, for vectors of equal length. */
  function Combined(p: seq<real>, n: seq<real>): (r: seq<real>)
    requires |p| == |n|
    ensures |r| == |p| && forall i :: 0 <= i < |p| ==> r[i] == p[i] - n[i]
  {
    seq(|p|, i requires 0 <= i < |p| => POS_WEIGHT * p[i] - NEG_WEIGHT * n[i])
  }

  /**
   * The four-way taste-query policy: no signal gives no query; a lone
   * positive vector is clipped; a lone negative vector is negated and
   * clipped; both together are subtracted when their lengths agree, and
   * otherwise the negative vector is dropped.
   */
  function TasteQuery(positive: Option<seq<real>>, negative: Option<seq<real>>): (r: Option<seq<real>>)
    ensures r.None? <==> positive.None? && negative.None?
    ensures r.Some? ==> |r.value| == if positive.Some? then |positive.value| else |negative.value|
    ensures r.Some? ==> forall i :: 0 <= i < |r.value| ==> -CLIP_VALUE <= r.value[i] <= CLIP_VALUE
  {
    match (positive, negative)
    case (None, None) => None
    case (Some(p), None) => Some(Clipped(p, CLIP_VALUE))
    case (None, Some(n)) => Some(Clipped(Negated(n), CLIP_VALUE))
    case (Some(p), Some(n)) =>
      if |p| != |n| then Some(Clipped(p, CLIP_VALUE)) else Some(Clipped(Combined(p, n), CLIP_VALUE))
  }

  /** Builds the query in arrays the way the source mutates its vectors. */
  method BuildTasteQuery(positive: Option<seq<real>>, negative: Option<seq<real>>) returns (r: Option<seq<real>>)
    ensures r == TasteQuery(positive, negative)
  {
    match (positive, negative)
    case (None, None) =>
      r := None;
    case (Some(p), None) =>
      var pos := new real[|p|](i requires 0 <= i < |p| => p[i]);
      assert pos[..] == p;
      Clip(pos, CLIP_VALUE);
      r := Some(pos[..]);
    case (None, Some(n)) =>
      var neg := new real[|n|](i requires 0 <= i < |n| => n[i]);
      for i := 0 to neg.Length
        invariant forall j :: 0 <= j < i ==> neg[j] == -n[j]
        invariant forall j :: i <= j < neg.Length ==> neg[j] == n[j]
      {
        neg[i] := -neg[i];
      }
      assert neg[..] == Negated(n);
      Clip(neg, CLIP_VALUE);
      r := Some(neg[..]);
    case (Some(p), Some(n)) =>
      var pos := new real[|p|](i requires 0 <= i < |p| => p[i]);
      if |p| != |n| {
        assert pos[..] == p;
        Clip(pos, CLIP_VALUE);
        return Some(pos[..]);
      }
      for i := 0 to pos.Length
        invariant forall j :: 0 <= j < i ==> pos[j] == POS_WEIGHT * p[j] - NEG_WEIGHT * n[j]
        invariant forall j :: i <= j < pos.Length ==> pos[j] == p[j]
      {
        pos[i] := POS_WEIGHT * pos[i] - NEG_WEIGHT * n[i];
      }
      assert pos[..] == Combined(p, n);
      Clip(pos, CLIP_VALUE);
      r := Some(pos[..]);
  }
}
