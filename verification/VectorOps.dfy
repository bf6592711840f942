/**
 Vector kernels over the reals: the eight-lane dot product and squared distance against their
 scalar sums, cosine similarity, and brute-force nearest neighbours.
 */
module VectorOps {
  import opened Sequences
  import opened Ranking
  import opened Vectors


  // ------------------------------------------------------------------ scalar sums

  function Times(x: real, y: real): real {
    x * y
  }

  /** The sum of a[i] * b[i] over the first n coordinates. */
  ghost function Dot(a: Vector, b: Vector, n: nat): real
    requires n <= |a| && |a| == |b|
  {
    if n == 0 then 0.0 else Dot(a, b, n - 1) + Times(a[n-1], b[n-1])
  }

  ghost function Diff(a: Vector, b: Vector): (d: Vector)
    requires |a| == |b|
    ensures |d| == |a| && forall i :: 0 <= i < |a| ==> d[i] == a[i] - b[i]
  {
    seq(|a|, i requires 0 <= i < |a| => a[i] - b[i])
  }

  method DotProductScalar(a: Vector, b: Vector) returns (sum: real)
    requires |a| == |b|
    ensures sum == Dot(a, b, |a|)
  {
    sum := 0.0;
    for i := 0 to |a|
      invariant sum == Dot(a, b, i)
    {
      sum := sum + Times(a[i], b[i]);
    }
  }

  // ------------------------------------------------------------------ eight lanes

  /** Fused multiply-add, lane by lane. */
  function FmAdd(a: seq<real>, b: seq<real>, c: seq<real>): (r: seq<real>)
    requires |a| == |b| == |c| == 8
    ensures |r| == 8 && forall i :: 0 <= i < 8 ==> r[i] == Times(a[i], b[i]) + c[i]
  {
    seq(8, i requires 0 <= i < 8 => Times(a[i], b[i]) + c[i])
  }

  function Sub(a: seq<real>, b: seq<real>): (r: seq<real>)
    requires |a| == |b| == 8
    ensures |r| == 8 && forall i :: 0 <= i < 8 ==> r[i] == a[i] - b[i]
  {
    seq(8, i requires 0 <= i < 8 => a[i] - b[i])
  }

  /** hadd of a 128-bit register with itself: neighbouring lanes are added pairwise. */
  function HAdd(v: seq<real>): seq<real>
    requires |v| == 4
  {
    [v[0] + v[1], v[2] + v[3], v[0] + v[1], v[2] + v[3]]
  }

  /** Upper half onto lower half, then two pairwise additions; lane 0 is the result. */
  function HorizontalSum(v: seq<real>): real
    requires |v| == 8
  {
    var hi := v[4..];
    var lo := v[..4];
    var sum128 := [lo[0] + hi[0], lo[1] + hi[1], lo[2] + hi[2], lo[3] + hi[3]];
    HAdd(HAdd(sum128))[0]
  }

  ghost function LaneSum(v: seq<real>): real
    requires |v| == 8
  {
    v[0] + v[1] + v[2] + v[3] + v[4] + v[5] + v[6] + v[7]
  }

  lemma DotOfEight(a: Vector, b: Vector, i: nat)
    requires |a| == |b| && i + 8 <= |a|
    ensures Dot(a, b, i + 8) == Dot(a, b, i)
            + (Times(a[i], b[i]) + Times(a[i+1], b[i+1]) + Times(a[i+2], b[i+2]) + Times(a[i+3], b[i+3])
               + Times(a[i+4], b[i+4]) + Times(a[i+5], b[i+5]) + Times(a[i+6], b[i+6]) + Times(a[i+7], b[i+7]))
  {
    assert Dot(a, b, i + 2) == Dot(a, b, i) + Times(a[i], b[i]) + Times(a[i+1], b[i+1]);
    assert Dot(a, b, i + 4) == Dot(a, b, i + 2) + Times(a[i+2], b[i+2]) + Times(a[i+3], b[i+3]);
    assert Dot(a, b, i + 6) == Dot(a, b, i + 4) + Times(a[i+4], b[i+4]) + Times(a[i+5], b[i+5]);
    assert Dot(a, b, i + 8) == Dot(a, b, i + 6) + Times(a[i+6], b[i+6]) + Times(a[i+7], b[i+7]);
  }

  lemma LanesAdvance(a: Vector, b: Vector, i: nat, sum: seq<real>, next: seq<real>)
    requires |a| == |b| && i + 8 <= |a| && |sum| == 8
    requires next == FmAdd(a[i..i+8], b[i..i+8], sum)
    ensures LaneSum(next) - LaneSum(sum) == Dot(a, b, i + 8) - Dot(a, b, i)
  {
    DotOfEight(a, b, i);
    assert next[0] == Times(a[i], b[i]) + sum[0];
    assert next[1] == Times(a[i+1], b[i+1]) + sum[1];
    assert next[2] == Times(a[i+2], b[i+2]) + sum[2];
    assert next[3] == Times(a[i+3], b[i+3]) + sum[3];
    assert next[4] == Times(a[i+4], b[i+4]) + sum[4];
    assert next[5] == Times(a[i+5], b[i+5]) + sum[5];
    assert next[6] == Times(a[i+6], b[i+6]) + sum[6];
    assert next[7] == Times(a[i+7], b[i+7]) + sum[7];
  }

  /** One step of a vector loop: the lanes together gain the next eight products. */
  method Accumulate(va: seq<real>, vb: seq<real>, sum: seq<real>, ghost a: Vector, ghost b: Vector, ghost i: nat)
    returns (next: seq<real>)
    requires |a| == |b| && i + 8 <= |a| && |sum| == 8
    requires va == a[i..i+8] && vb == b[i..i+8]
    requires LaneSum(sum) == Dot(a, b, i)
    ensures |next| == 8 && LaneSum(next) == Dot(a, b, i + 8)
  {
    next := FmAdd(va, vb, sum);
    LanesAdvance(a, b, i, sum, next);
  }

  /** The vectorised dot product equals the scalar one for every length. */
  method DotProductAvx2(a: Vector, b: Vector) returns (result: real)
    requires |a| == |b|
    ensures result == Dot(a, b, |a|)
  {
    var sum := seq(8, _ => 0.0);
    var i := 0;
    while i + 8 <= |a|
      invariant i <= |a| && |sum| == 8
      invariant LaneSum(sum) == Dot(a, b, i)
    {
      sum := Accumulate(a[i..i+8], b[i..i+8], sum, a, b, i);
      i := i + 8;
    }
    result := HorizontalSum(sum);
    while i < |a|
      invariant i <= |a|
      invariant result == Dot(a, b, i)
    {
      result := result + Times(a[i], b[i]);
      i := i + 1;
    }
  }

  /** Squared Euclidean distance: the dot product of the difference with itself. */
  ghost function L2Squared(a: Vector, b: Vector, farthest: real): real {
    if |a| == |b| then Dot(Diff(a, b), Diff(a, b), |a|) else farthest
  }

  /** The vectorised loop computes the squared distance. */
  method L2SquaredAvx2(a: Vector, b: Vector, farthest: real) returns (sum: real)
    ensures sum == L2Squared(a, b, farthest)
  {
    if |a| != |b| {
      return farthest;
    }
    ghost var d := Diff(a, b);
    var vsum := seq(8, _ => 0.0);
    var i := 0;
    while i + 8 <= |a|
      invariant i <= |a| && |vsum| == 8
      invariant LaneSum(vsum) == Dot(d, d, i)
    {
      var diff := Sub(a[i..i+8], b[i..i+8]);
      assert diff == d[i..i+8];
      vsum := Accumulate(diff, diff, vsum, d, d, i);
      i := i + 8;
    }
    sum := HorizontalSum(vsum);
    while i < |a|
      invariant i <= |a|
      invariant sum == Dot(d, d, i)
    {
      var diff := a[i] - b[i];
      sum := sum + Times(diff, diff);
      i := i + 1;
    }
  }

  // ------------------------------------------------------------ cosine similarity

  /** Any function that returns a non-negative root serves as the square root. */
  ghost predicate IsSqrt(sqrt: real -> real) {
    forall x: real :: x >= 0.0 ==> sqrt(x) >= 0.0 && sqrt(x) * sqrt(x) == x
  }

  lemma {:induction false} DotSelfNonNegative(a: Vector, n: nat)
    requires n <= |a|
    ensures Dot(a, a, n) >= 0.0
  {
    if n > 0 {
      DotSelfNonNegative(a, n - 1);
      assert a[n-1] * a[n-1] >= 0.0;
    }
  }

  /** The cross terms of one more coordinate. */
  lemma {:induction false} SquareStep(ab: real, aa: real, bb: real, x: real, y: real, cross: real)
    requires ab * ab <= aa * bb
    requires cross == aa * (y * y) + bb * (x * x) - 2.0 * (ab * (x * y))
    requires cross >= 0.0
    ensures (ab + x * y) * (ab + x * y) <= (aa + x * x) * (bb + y * y)
  {
    var p := x * y;
    assert (x * x) * (y * y) == p * p;
    assert (ab + p) * (ab + p) == ab * ab + 2.0 * (ab * p) + p * p;
    assert (aa + x * x) * (bb + y * y) == aa * bb + aa * (y * y) + bb * (x * x) + (x * x) * (y * y);
  }

  /** aa*y^2 + bb*x^2 >= 2*ab*x*y, since it is the squared length of y*a - x*b. */
  lemma {:induction false} CrossIsSquare(a: Vector, b: Vector, n: nat, x: real, y: real)
    requires |a| == |b| && n <= |a|
    ensures Dot(a, a, n) * (y * y) + Dot(b, b, n) * (x * x) - 2.0 * (Dot(a, b, n) * (x * y)) >= 0.0
  {
    if n > 0 {
      CrossIsSquare(a, b, n - 1, x, y);
      var u, v := a[n-1], b[n-1];
      var aa, bb, ab := Dot(a, a, n - 1), Dot(b, b, n - 1), Dot(a, b, n - 1);
      SquareOfDifference(u, v, x, y);
      assert (aa + u * u) * (y * y) == aa * (y * y) + (u * u) * (y * y);
      assert (bb + v * v) * (x * x) == bb * (x * x) + (v * v) * (x * x);
      assert (ab + u * v) * (x * y) == ab * (x * y) + (u * v) * (x * y);
    }
  }

  lemma SquareOfDifference(u: real, v: real, x: real, y: real)
    ensures (u * u) * (y * y) + (v * v) * (x * x) - 2.0 * ((u * v) * (x * y)) >= 0.0
  {
    var p, q := u * y, v * x;
    assert (u * u) * (y * y) == p * p;
    assert (v * v) * (x * x) == q * q;
    assert (u * v) * (x * y) == p * q;
    assert p * p + q * q - 2.0 * (p * q) == (p - q) * (p - q);
    assert (p - q) * (p - q) >= 0.0;
  }

  ghost predicate Bounded(ab: real, aa: real, bb: real) { ab * ab <= aa * bb }

  ghost predicate CrossNonNegative(ab: real, aa: real, bb: real, x: real, y: real) {
    aa * (y * y) + bb * (x * x) - 2.0 * (ab * (x * y)) >= 0.0
  }

  lemma BoundedStep(ab: real, aa: real, bb: real, x: real, y: real)
    requires Bounded(ab, aa, bb) && CrossNonNegative(ab, aa, bb, x, y)
    ensures Bounded(ab + Times(x, y), aa + Times(x, x), bb + Times(y, y))
  {
    SquareStep(ab, aa, bb, x, y, aa * (y * y) + bb * (x * x) - 2.0 * (ab * (x * y)));
  }

  lemma {:induction false} DotBounded(a: Vector, b: Vector, n: nat)
    requires |a| == |b| && n <= |a|
    ensures Bounded(Dot(a, b, n), Dot(a, a, n), Dot(b, b, n))
  {
    if n == 0 {
      assert Dot(a, b, 0) == 0.0 && Dot(a, a, 0) == 0.0;
    } else {
      DotBounded(a, b, n - 1);
      CrossIsSquare(a, b, n - 1, a[n-1], b[n-1]);
      assert CrossNonNegative(Dot(a, b, n - 1), Dot(a, a, n - 1), Dot(b, b, n - 1), a[n-1], b[n-1]);
      hide Bounded, CrossNonNegative, Times;
      BoundedStep(Dot(a, b, n - 1), Dot(a, a, n - 1), Dot(b, b, n - 1), a[n-1], b[n-1]);
    }
  }

  lemma CauchySchwarz(a: Vector, b: Vector, n: nat)
    requires |a| == |b| && n <= |a|
    ensures Dot(a, b, n) * Dot(a, b, n) <= Dot(a, a, n) * Dot(b, b, n)
  {
    DotBounded(a, b, n);
    hide Dot;
  }

  method DotProduct(a: Vector, b: Vector) returns (d: real)
    ensures d == if |a| != |b| then 0.0 else Dot(a, b, |a|)
  {
    if |a| != |b| || |a| == 0 {
      return 0.0;
    }
    d := DotProductAvx2(a, b);
  }

  /** The length of a vector. */
  ghost function Norm(v: Vector, sqrt: real -> real): real {
    sqrt(Dot(v, v, |v|))
  }

  const TINY: real := 0.000000001

  /** Cosine similarity never leaves [-1, 1]; it is the quotient it claims to be unless a vector is
      (nearly) zero or the dimensions differ, and then it is zero. */
  method CosineSimilarity(a: Vector, b: Vector, sqrt: real -> real) returns (c: real)
    requires IsSqrt(sqrt)
    ensures -1.0 <= c <= 1.0
    ensures if |a| != |b| || Norm(a, sqrt) < TINY || Norm(b, sqrt) < TINY then c == 0.0
            else c * (Norm(a, sqrt) * Norm(b, sqrt)) == Dot(a, b, |a|)
  {
    if |a| != |b| || |a| == 0 {
      RootOfZero(sqrt);
      return 0.0;
    }
    var dot := DotProduct(a, b);
    var aa := DotProduct(a, a);
    var bb := DotProduct(b, b);
    var normA := sqrt(aa);
    var normB := sqrt(bb);
    if normA < TINY || normB < TINY {
      return 0.0;
    }
    DotSelfNonNegative(a, |a|);
    DotSelfNonNegative(b, |b|);
    CauchySchwarz(a, b, |a|);
    QuotientBounded(dot, normA, normB, aa, bb);
    c := dot / (normA * normB);
  }

  lemma RootOfZero(sqrt: real -> real)
    requires IsSqrt(sqrt)
    ensures sqrt(0.0) < TINY
  {
    var r := sqrt(0.0);
    assert r >= 0.0 && r * r == 0.0;
    if r >= TINY {
      MulGreater(r, 0.0, r);
    }
  }

  lemma QuotientBounded(dot: real, normA: real, normB: real, aa: real, bb: real)
    requires normA > 0.0 && normB > 0.0
    requires normA * normA == aa && normB * normB == bb
    requires dot * dot <= aa * bb
    ensures normA * normB > 0.0
    ensures -1.0 <= dot / (normA * normB) <= 1.0
    ensures dot / (normA * normB) * (normA * normB) == dot
  {
    var m := normA * normB;
    MulGreater(normA, 0.0, normB);
    assert m * m == (normA * normA) * (normB * normB);
    BoundedBySquares(dot, m);
    var c := dot / m;
    assert c * m == dot;
    if c > 1.0 {
      MulGreater(c, 1.0, m);
    }
    if c < -1.0 {
      MulGreater(-c, 1.0, m);
    }
  }

  lemma MulGreater(a: real, b: real, m: real)
    requires a > b && m > 0.0
    ensures a * m > b * m
  {
    assert (a - b) * m > 0.0;
  }

  lemma BoundedBySquares(x: real, m: real)
    requires m > 0.0 && x * x <= m * m
    ensures -m <= x <= m
  {
    if x > m {
      SquareGreater(x, m);
    }
    if -x > m {
      assert (-x) * (-x) == x * x;
      SquareGreater(-x, m);
    }
  }

  lemma SquareGreater(x: real, m: real)
    requires x > m > 0.0
    ensures x * x > m * m
  {
    MulGreater(x, m, x);
    MulGreater(x, m, m);
  }

  // ------------------------------------------------------- brute-force neighbours

  type Metric = (Vector, Vector) -> real

  /** Distance of each stored vector, by position. */
  ghost function Positions(query: Vector, vectors: seq<Vector>, metric: Metric): map<nat, real> {
    map i: nat | i < |vectors| :: metric(query, vectors[i])
  }

  /** Exactly the k nearest positions, nearest first. */
  method BruteForceKnn(query: Vector, vectors: seq<Vector>, k: nat, metric: Metric) returns (best: seq<SearchResult>)
    ensures ShowsBest(Positions(query, vectors, metric), k, best)
  {
    var all: seq<SearchResult> := [];
    for i := 0 to |vectors|
      invariant |all| == i
      invariant forall j :: 0 <= j < i ==> all[j] == SearchResult(j, metric(query, vectors[j]))
    {
      all := all + [SearchResult(i, metric(query, vectors[i]))];
    }
    var cut := Min(k, |all|);
    var sorted := PartialSort(all, cut);
    best := sorted[..cut];
    PartialSortShowsBest(Positions(query, vectors, metric), k, all, sorted);
  }

  /** The smallest `cut` results to the front in ascending order; the rest in any order behind. */
  method PartialSort(results: seq<SearchResult>, cut: nat) returns (sorted: seq<SearchResult>)
    requires cut <= |results|
    ensures |sorted| == |results| && multiset(sorted) == multiset(results)
    ensures SortedUpTo(sorted, cut)
  {
    sorted := results;
    for i := 0 to cut
      invariant |sorted| == |results| && multiset(sorted) == multiset(results)
      invariant SortedUpTo(sorted, i)
    {
      var least := FindLeast(sorted, i);
      SwapKeepsElements(sorted, i, least);
      sorted := sorted[i := sorted[least]][least := sorted[i]];
    }
  }

  method FindLeast(s: seq<SearchResult>, i: nat) returns (least: nat)
    requires i < |s|
    ensures i <= least < |s| && forall b :: i <= b < |s| ==> s[least].distance <= s[b].distance
  {
    least := i;
    for j := i + 1 to |s|
      invariant i <= least < |s|
      invariant forall b :: i <= b < j ==> s[least].distance <= s[b].distance
    {
      if s[j].distance < s[least].distance {
        least := j;
      }
    }
  }

  /** The first `cut` results are in order, and none of the others is nearer than they are. */
  ghost predicate SortedUpTo(s: seq<SearchResult>, cut: nat) {
    forall i, j :: 0 <= i < j < |s| && i < cut ==> s[i].distance <= s[j].distance
  }

  lemma SwapKeepsElements(s: seq<SearchResult>, i: nat, j: nat)
    requires i <= j < |s|
    ensures multiset(s[i := s[j]][j := s[i]]) == multiset(s)
  {}

  lemma PartialSortShowsBest(table: map<nat, real>, k: nat, all: seq<SearchResult>, sorted: seq<SearchResult>)
    requires forall i: nat :: i in table <==> i < |all|
    requires forall i :: 0 <= i < |all| ==> all[i] == SearchResult(i, table[i])
    requires |sorted| == |all| && multiset(sorted) == multiset(all)
    requires SortedUpTo(sorted, Min(k, |all|))
    ensures ShowsBest(table, k, sorted[..Min(k, |all|)])
  {
    var cut := Min(k, |all|);
    PermutationMembers(all, sorted);
    assert NoDup(all);
    PermutationNoDup(all, sorted);
    forall r | r in sorted
      ensures r.id in table && r.distance == table[r.id]
    {
      assert r in all;
    }
    var best := Ids(sorted[..cut]);
    assert |table| == |all| by {
      var positions := seq(|all|, i => i);
      assert NoDup(positions);
      NoDupLength(positions);
      forall i: nat | i in table
        ensures i in SetOf(positions)
      {
        assert positions[i] == i;
      }
      assert table.Keys == SetOf(positions);
    }
    forall i | 0 <= i < |sorted|
      ensures sorted[i].id in table && sorted[i] == SearchResult(sorted[i].id, table[sorted[i].id])
    {
      assert sorted[i] in sorted;
    }
    forall x, i | x in table && x !in best && 0 <= i < cut
      ensures table[best[i]] <= table[x]
    {
      assert all[x] in sorted;
      var j :| 0 <= j < |sorted| && sorted[j] == all[x];
      FrontIds(sorted, cut, j);
    }
  }

  lemma FrontIds(sorted: seq<SearchResult>, cut: nat, j: nat)
    requires cut <= |sorted| && j < |sorted|
    ensures j < cut ==> sorted[j].id in Ids(sorted[..cut])
  {
    if j < cut {
      assert Ids(sorted[..cut])[j] == sorted[j].id;
    }
  }
}
