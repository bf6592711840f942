/**
 Lloyd's k-means as the product quantizer trains it, over the reals.
 */
module KMeans {
  import opened Sequences
  import opened Vectors

  // ------------------------------------------------------------- squared distance

  function Mul(x: real, y: real): real {
    x * y
  }

  lemma MulPositive(x: real, y: real)
    requires x > 0.0 && y > 0.0
    ensures Mul(x, y) > 0.0
  {
  }

  lemma MulNegative(x: real, y: real)
    requires x < 0.0 && y < 0.0
    ensures Mul(x, y) > 0.0
  {
  }

  function Square(d: real): (r: real)
    ensures r >= 0.0
    ensures d != 0.0 ==> r > 0.0
    ensures d == 0.0 ==> r == 0.0
  {
    if d > 0.0 then
      MulPositive(d, d);
      Mul(d, d)
    else if d < 0.0 then
      MulNegative(d, d);
      Mul(d, d)
    else
      Mul(d, d)
  }

  /** Squared Euclidean distance over the first n coordinates. */
  ghost function SqDistN(a: Vector, b: Vector, n: nat): real
    requires n <= |a| && n <= |b|
  {
    if n == 0 then 0.0 else SqDistN(a, b, n - 1) + Square(a[n-1] - b[n-1])
  }

  ghost function SqDist(a: Vector, b: Vector): real
    requires |a| == |b|
  {
    SqDistN(a, b, |a|)
  }

  method SquaredEuclidean(a: Vector, b: Vector) returns (sum: real)
    requires |a| == |b|
    ensures sum == SqDist(a, b)
  {
    sum := 0.0;
    for i := 0 to |a|
      invariant sum == SqDistN(a, b, i)
    {
      var diff := a[i] - b[i];
      sum := sum + Square(diff);
    }
  }

  lemma {:induction false} SqDistNonNegative(a: Vector, b: Vector, n: nat)
    requires n <= |a| && n <= |b|
    ensures SqDistN(a, b, n) >= 0.0
  {
    if n > 0 {
      SqDistNonNegative(a, b, n - 1);
    }
  }

  /** Different vectors have positive distance, equal ones none. */
  lemma {:induction false} SqDistZero(a: Vector, b: Vector, n: nat)
    requires n <= |a| && n <= |b|
    ensures a[..n] != b[..n] ==> SqDistN(a, b, n) > 0.0
    ensures a[..n] == b[..n] ==> SqDistN(a, b, n) == 0.0
  {
    if n > 0 {
      SqDistZero(a, b, n - 1);
      SqDistNonNegative(a, b, n - 1);
      assert a[..n] == a[..n-1] + [a[n-1]];
      assert b[..n] == b[..n-1] + [b[n-1]];
    }
  }

  // --------------------------------------------------------------- nearest centroid

  ghost predicate Codebook(cs: seq<Vector>, dim: nat) {
    forall c :: 0 <= c < |cs| ==> |cs[c]| == dim
  }

  /** `best` is the first of the nearest centroids. */
  ghost predicate FirstNearest(x: Vector, cs: seq<Vector>, best: nat)
    requires Codebook(cs, |x|)
  {
    && best < |cs|
    && (forall c :: 0 <= c < |cs| ==> SqDist(x, cs[best]) <= SqDist(x, cs[c]))
    && (forall c :: 0 <= c < best ==> SqDist(x, cs[best]) < SqDist(x, cs[c]))
  }

  /** The scan starts from a distance larger than any other. */
  method FindNearest(x: Vector, cs: seq<Vector>) returns (best: nat)
    requires |cs| > 0 && Codebook(cs, |x|)
    ensures FirstNearest(x, cs, best)
  {
    best := 0;
    var minDist := 0.0;
    for c := 0 to |cs|
      invariant c > 0 ==> best < c && minDist == SqDist(x, cs[best])
      invariant c > 0 ==> forall b :: 0 <= b < c ==> minDist <= SqDist(x, cs[b])
      invariant c > 0 ==> forall b :: 0 <= b < best ==> minDist < SqDist(x, cs[b])
      invariant c == 0 ==> best == 0
    {
      var d := SquaredEuclidean(x, cs[c]);
      if c == 0 || d < minDist {
        minDist := d;
        best := c;
      }
    }
  }

  // -------------------------------------------------------------------- distortion

  ghost predicate Assignment(xs: seq<Vector>, cs: seq<Vector>, assign: seq<nat>) {
    |assign| == |xs| && forall i :: 0 <= i < |assign| ==> assign[i] < |cs|
  }

  ghost predicate Training(xs: seq<Vector>, cs: seq<Vector>, dim: nat) {
    Codebook(xs, dim) && Codebook(cs, dim)
  }

  /** Total squared distance of the first n points to the centroids they are assigned to. */
  ghost function Cost(xs: seq<Vector>, cs: seq<Vector>, assign: seq<nat>, dim: nat, n: nat): real
    requires Training(xs, cs, dim) && Assignment(xs, cs, assign) && n <= |xs|
  {
    if n == 0 then 0.0 else Cost(xs, cs, assign, dim, n - 1) + SqDist(xs[n-1], cs[assign[n-1]])
  }

  /** Distance to the nearest of the first k centroids. */
  ghost function Least(x: Vector, cs: seq<Vector>, k: nat): real
    requires 1 <= k <= |cs| && Codebook(cs, |x|)
  {
    var d := SqDist(x, cs[k-1]);
    if k == 1 then d
    else
      var rest := Least(x, cs, k - 1);
      if d < rest then d else rest
  }

  /** Total distortion: every point is charged its distance to the nearest centroid. */
  ghost function Distortion(xs: seq<Vector>, cs: seq<Vector>, dim: nat, n: nat): real
    requires Training(xs, cs, dim) && |cs| > 0 && n <= |xs|
  {
    if n == 0 then 0.0 else Distortion(xs, cs, dim, n - 1) + Least(xs[n-1], cs, |cs|)
  }

  lemma {:induction false} LeastIsLeast(x: Vector, cs: seq<Vector>, k: nat, c: nat)
    requires 1 <= k <= |cs| && Codebook(cs, |x|) && c < k
    ensures Least(x, cs, k) <= SqDist(x, cs[c])
    ensures exists b :: 0 <= b < k && Least(x, cs, k) == SqDist(x, cs[b])
  {
    if k == 1 {
      assert Least(x, cs, k) == SqDist(x, cs[0]);
    } else {
      LeastIsLeast(x, cs, k - 1, if c < k - 1 then c else 0);
      if SqDist(x, cs[k-1]) < Least(x, cs, k - 1) {
        assert Least(x, cs, k) == SqDist(x, cs[k-1]);
      }
    }
  }

  /** No assignment costs less than the distortion. */
  lemma {:induction false} CostBound(xs: seq<Vector>, cs: seq<Vector>, assign: seq<nat>, dim: nat, n: nat)
    requires Training(xs, cs, dim) && |cs| > 0 && Assignment(xs, cs, assign) && n <= |xs|
    ensures Distortion(xs, cs, dim, n) <= Cost(xs, cs, assign, dim, n)
  {
    if n > 0 {
      CostBound(xs, cs, assign, dim, n - 1);
      LeastIsLeast(xs[n-1], cs, |cs|, assign[n-1]);
    }
  }

  ghost predicate AllNearest(xs: seq<Vector>, cs: seq<Vector>, assign: seq<nat>, dim: nat, n: nat)
    requires Training(xs, cs, dim) && n <= |xs| && n <= |assign|
  {
    forall i :: 0 <= i < n ==> FirstNearest(xs[i], cs, assign[i])
  }

  /** Assigning every point to a nearest centroid attains the distortion. */
  lemma {:induction false} NearestAttains(xs: seq<Vector>, cs: seq<Vector>, assign: seq<nat>, dim: nat, n: nat)
    requires Training(xs, cs, dim) && |cs| > 0 && Assignment(xs, cs, assign) && n <= |xs|
    requires AllNearest(xs, cs, assign, dim, n)
    ensures Cost(xs, cs, assign, dim, n) == Distortion(xs, cs, dim, n)
  {
    if n > 0 {
      NearestAttains(xs, cs, assign, dim, n - 1);
      assert FirstNearest(xs[n-1], cs, assign[n-1]);
      LeastIsLeast(xs[n-1], cs, |cs|, assign[n-1]);
    }
  }

  // ---------------------------------------------------------- clusters and their means

  ghost function Count(assign: seq<nat>, c: nat, n: nat): nat
    requires n <= |assign|
  {
    if n == 0 then 0 else Count(assign, c, n - 1) + if assign[n-1] == c then 1 else 0
  }

  /** Sum of coordinate d over the points of cluster c among the first n. */
  ghost function SumAt(xs: seq<Vector>, assign: seq<nat>, c: nat, d: nat, dim: nat, n: nat): real
    requires Codebook(xs, dim) && |assign| == |xs| && d < dim && n <= |xs|
  {
    if n == 0 then 0.0
    else SumAt(xs, assign, c, d, dim, n - 1) + if assign[n-1] == c then xs[n-1][d] else 0.0
  }

  ghost function ClusterCost(xs: seq<Vector>, assign: seq<nat>, c: nat, v: Vector, n: nat): real
    requires Codebook(xs, |v|) && |assign| == |xs| && n <= |xs|
  {
    if n == 0 then 0.0
    else ClusterCost(xs, assign, c, v, n - 1) + if assign[n-1] == c then SqDist(xs[n-1], v) else 0.0
  }

  ghost predicate IsMean(xs: seq<Vector>, assign: seq<nat>, c: nat, m: Vector, dim: nat)
    requires Codebook(xs, dim) && |assign| == |xs|
  {
    |m| == dim && forall d :: 0 <= d < dim ==>
        m[d] * (Count(assign, c, |xs|) as real) == SumAt(xs, assign, c, d, dim, |xs|)
  }

  /** What moving a cluster's centre from m to v costs in coordinate d, in terms of the cluster's size
      and coordinate sum. */
  ghost function Move(count: real, sum: real, v: real, m: real): real {
    count * (v * v - m * m) - 2.0 * (v - m) * sum
  }

  ghost function Moves(xs: seq<Vector>, assign: seq<nat>, c: nat, v: Vector, m: Vector, n: nat, dims: nat): real
    requires |v| == |m| && Codebook(xs, |v|) && |assign| == |xs| && n <= |xs| && dims <= |v|
  {
    if dims == 0 then 0.0
    else Moves(xs, assign, c, v, m, n, dims - 1)
         + Move(Count(assign, c, n) as real, SumAt(xs, assign, c, dims - 1, |v|, n), v[dims-1], m[dims-1])
  }

  lemma MoveStep(count: real, sum: real, x: real, v: real, m: real)
    ensures Move(count + 1.0, sum + x, v, m) == Move(count, sum, v, m) + Square(x - v) - Square(x - m)
  {
  }

  lemma MoveAtStep(xs: seq<Vector>, assign: seq<nat>, c: nat, v: Vector, m: Vector, n: nat, d: nat)
    requires |v| == |m| && Codebook(xs, |v|) && |assign| == |xs| && 0 < n <= |xs| && d < |v|
    ensures var x := xs[n-1][d];
            Move(Count(assign, c, n) as real, SumAt(xs, assign, c, d, |v|, n), v[d], m[d])
            == Move(Count(assign, c, n - 1) as real, SumAt(xs, assign, c, d, |v|, n - 1), v[d], m[d])
               + if assign[n-1] == c then Square(x - v[d]) - Square(x - m[d]) else 0.0
  {
    var count, sum := Count(assign, c, n - 1), SumAt(xs, assign, c, d, |v|, n - 1);
    if assign[n-1] == c {
      assert Count(assign, c, n) as real == count as real + 1.0;
      MoveStep(count as real, sum, xs[n-1][d], v[d], m[d]);
    }
  }

  /** One more point of the cluster changes the move cost by that point's change of distance. */
  lemma {:induction false} MovesStep(xs: seq<Vector>, assign: seq<nat>, c: nat, v: Vector, m: Vector, n: nat, dims: nat)
    requires |v| == |m| && Codebook(xs, |v|) && |assign| == |xs| && 0 < n <= |xs| && dims <= |v|
    ensures Moves(xs, assign, c, v, m, n, dims) == Moves(xs, assign, c, v, m, n - 1, dims)
            + if assign[n-1] == c then SqDistN(xs[n-1], v, dims) - SqDistN(xs[n-1], m, dims) else 0.0
  {
    if dims > 0 {
      MovesStep(xs, assign, c, v, m, n, dims - 1);
      MoveAtStep(xs, assign, c, v, m, n, dims - 1);
    }
  }

  lemma {:induction false} ClusterCostMoves(xs: seq<Vector>, assign: seq<nat>, c: nat, v: Vector, m: Vector, n: nat)
    requires |v| == |m| && Codebook(xs, |v|) && |assign| == |xs| && n <= |xs|
    ensures ClusterCost(xs, assign, c, v, n) - ClusterCost(xs, assign, c, m, n) == Moves(xs, assign, c, v, m, n, |v|)
  {
    if n == 0 {
      MovesOfNothing(xs, assign, c, v, m, |v|);
    } else {
      ClusterCostMoves(xs, assign, c, v, m, n - 1);
      MovesStep(xs, assign, c, v, m, n, |v|);
    }
  }

  lemma {:induction false} MovesOfNothing(xs: seq<Vector>, assign: seq<nat>, c: nat, v: Vector, m: Vector, dims: nat)
    requires |v| == |m| && Codebook(xs, |v|) && |assign| == |xs| && dims <= |v|
    ensures Moves(xs, assign, c, v, m, 0, dims) == 0.0
  {
    if dims > 0 {
      MovesOfNothing(xs, assign, c, v, m, dims - 1);
    }
  }

  lemma MoveFromMean(count: nat, sum: real, v: real, m: real)
    requires m * (count as real) == sum
    ensures Move(count as real, sum, v, m) >= 0.0
  {
    var n := count as real;
    assert Move(n, sum, v, m) == n * Square(v - m);
    assert n * Square(v - m) >= 0.0;
  }

  lemma {:induction false} MovesFromMean(xs: seq<Vector>, assign: seq<nat>, c: nat, v: Vector, m: Vector, dims: nat)
    requires |v| == |m| && Codebook(xs, |v|) && |assign| == |xs| && dims <= |v|
    requires IsMean(xs, assign, c, m, |v|)
    ensures Moves(xs, assign, c, v, m, |xs|, dims) >= 0.0
  {
    if dims > 0 {
      MovesFromMean(xs, assign, c, v, m, dims - 1);
      MoveFromMean(Count(assign, c, |xs|), SumAt(xs, assign, c, dims - 1, |v|, |xs|), v[dims-1], m[dims-1]);
    }
  }

  /** The mean of a cluster minimises the sum of squared distances to its points. */
  lemma MeanMinimises(xs: seq<Vector>, assign: seq<nat>, c: nat, m: Vector, v: Vector)
    requires |v| == |m| && Codebook(xs, |v|) && |assign| == |xs|
    requires IsMean(xs, assign, c, m, |v|)
    ensures ClusterCost(xs, assign, c, m, |xs|) <= ClusterCost(xs, assign, c, v, |xs|)
  {
    ClusterCostMoves(xs, assign, c, v, m, |xs|);
    MovesFromMean(xs, assign, c, v, m, |v|);
  }

  /** Replacing one centroid changes the cost by its own cluster's change only. */
  lemma {:induction false} ReplaceOne(xs: seq<Vector>, cs: seq<Vector>, assign: seq<nat>, dim: nat, c: nat, v: Vector,
                                      n: nat)
    requires Training(xs, cs, dim) && Assignment(xs, cs, assign) && n <= |xs| && c < |cs| && |v| == dim
    ensures Cost(xs, cs[c := v], assign, dim, n) - Cost(xs, cs, assign, dim, n)
            == ClusterCost(xs, assign, c, v, n) - ClusterCost(xs, assign, c, cs[c], n)
  {
    if n > 0 {
      ReplaceOne(xs, cs, assign, dim, c, v, n - 1);
    }
  }

  // ------------------------------------------------------------------- iterations

  /** One iteration: a centroid moves to the mean of the points nearest to it, and stays where it is
      when there are none. */
  ghost predicate LloydStep(xs: seq<Vector>, cs: seq<Vector>, assign: seq<nat>, next: seq<Vector>, dim: nat)
    requires Training(xs, cs, dim)
  {
    && Assignment(xs, cs, assign) && AllNearest(xs, cs, assign, dim, |xs|)
    && |next| == |cs| && Codebook(next, dim)
    && forall c :: 0 <= c < |cs| ==>
                     if Count(assign, c, |xs|) == 0 then next[c] == cs[c] else IsMean(xs, assign, c, next[c], dim)
  }

  /** Assignment step: nearest centroid of every point, and the size of every cluster. */
  method Assign(xs: seq<Vector>, cs: seq<Vector>, dim: nat) returns (assign: seq<nat>, counts: seq<nat>)
    requires Training(xs, cs, dim) && |cs| > 0
    ensures Assignment(xs, cs, assign) && AllNearest(xs, cs, assign, dim, |xs|)
    ensures |counts| == |cs| && forall c :: 0 <= c < |cs| ==> counts[c] == Count(assign, c, |xs|)
  {
    assign := [];
    counts := seq(|cs|, _ => 0);
    for i := 0 to |xs|
      invariant |assign| == i && |counts| == |cs|
      invariant forall j :: 0 <= j < i ==> assign[j] < |cs|
      invariant AllNearest(xs, cs, assign, dim, i)
      invariant forall c :: 0 <= c < |cs| ==> counts[c] == Count(assign, c, i)
    {
      var best := FindNearest(xs[i], cs);
      ghost var before := assign;
      assign := assign + [best];
      counts := counts[best := counts[best] + 1];
      forall c | 0 <= c < |cs|
        ensures Count(assign, c, i) == Count(before, c, i)
      {
        CountPrefix(before, assign, c, i);
      }
    }
  }

  lemma {:induction false} CountPrefix(a: seq<nat>, b: seq<nat>, c: nat, n: nat)
    requires n <= |a| && a <= b
    ensures Count(a, c, n) == Count(b, c, n)
  {
    if n > 0 {
      CountPrefix(a, b, c, n - 1);
    }
  }

  /** The mean of one non-empty cluster, accumulated and divided coordinate by coordinate. */
  method Mean(xs: seq<Vector>, assign: seq<nat>, c: nat, count: nat, dim: nat) returns (m: Vector)
    requires Codebook(xs, dim) && |assign| == |xs|
    requires count == Count(assign, c, |xs|) && count > 0
    ensures IsMean(xs, assign, c, m, dim)
  {
    m := seq(dim, _ => 0.0);
    for i := 0 to |xs|
      invariant |m| == dim
      invariant forall d :: 0 <= d < dim ==> m[d] == SumAt(xs, assign, c, d, dim, i)
    {
      if assign[i] == c {
        m := AddTo(m, xs[i]);
      }
    }
    m := DivideBy(m, count);
  }

  method AddTo(sums: Vector, x: Vector) returns (m: Vector)
    requires |sums| == |x|
    ensures |m| == |x| && forall d :: 0 <= d < |x| ==> m[d] == sums[d] + x[d]
  {
    m := sums;
    for d := 0 to |x|
      invariant |m| == |x|
      invariant forall e :: 0 <= e < d ==> m[e] == sums[e] + x[e]
      invariant forall e :: d <= e < |x| ==> m[e] == sums[e]
    {
      m := m[d := m[d] + x[d]];
    }
  }

  method DivideBy(sums: Vector, count: nat) returns (m: Vector)
    requires count > 0
    ensures |m| == |sums| && forall d :: 0 <= d < |sums| ==> m[d] * (count as real) == sums[d]
  {
    m := sums;
    for d := 0 to |sums|
      invariant |m| == |sums|
      invariant forall e :: 0 <= e < d ==> m[e] * (count as real) == sums[e]
      invariant forall e :: d <= e < |sums| ==> m[e] == sums[e]
    {
      var quotient := m[d] / (count as real);
      assert quotient * (count as real) == m[d];
      m := m[d := quotient];
    }
  }

  /** Assignment and update. No iteration ever increases the total distortion. */
  method Iterate(xs: seq<Vector>, cs: seq<Vector>, dim: nat) returns (next: seq<Vector>, ghost assign: seq<nat>)
    requires Training(xs, cs, dim) && |cs| > 0
    ensures LloydStep(xs, cs, assign, next, dim)
    ensures Distortion(xs, next, dim, |xs|) <= Distortion(xs, cs, dim, |xs|)
  {
    var assignments, counts := Assign(xs, cs, dim);
    assign := assignments;
    NearestAttains(xs, cs, assign, dim, |xs|);
    next := cs;
    for c := 0 to |cs|
      invariant |next| == |cs| && Codebook(next, dim)
      invariant forall b :: c <= b < |cs| ==> next[b] == cs[b]
      invariant forall b :: 0 <= b < c ==>
                              if counts[b] == 0 then next[b] == cs[b] else IsMean(xs, assign, b, next[b], dim)
      invariant Cost(xs, next, assign, dim, |xs|) <= Cost(xs, cs, assign, dim, |xs|)
    {
      if counts[c] == 0 {
        continue;
      }
      var m := Mean(xs, assignments, c, counts[c], dim);
      ReplaceOne(xs, next, assign, dim, c, m, |xs|);
      MeanMinimises(xs, assign, c, m, next[c]);
      next := next[c := m];
    }
    CostBound(xs, next, assign, dim, |xs|);
  }

  // ------------------------------------------------------------ the whole training

  /** As many iterations as asked for, one after the other: books[i] is the codebook after i of them. */
  ghost predicate LloydRun(xs: seq<Vector>, books: seq<seq<Vector>>, iterations: nat, k: nat, dim: nat)
    requires Codebook(xs, dim)
  {
    && |books| == iterations + 1
    && (forall i :: 0 <= i <= iterations ==> |books[i]| == k && Codebook(books[i], dim))
    && forall i :: 0 <= i < iterations ==> Iterated(xs, books[i], books[i+1], dim)
  }

  ghost predicate Iterated(xs: seq<Vector>, cs: seq<Vector>, next: seq<Vector>, dim: nat)
    requires Training(xs, cs, dim)
  {
    exists assign :: LloydStep(xs, cs, assign, next, dim)
  }

  lemma RunOneMore(xs: seq<Vector>, books: seq<seq<Vector>>, iterations: nat, k: nat, dim: nat, assign: seq<nat>,
                   next: seq<Vector>)
    requires Codebook(xs, dim) && LloydRun(xs, books, iterations, k, dim)
    requires LloydStep(xs, books[iterations], assign, next, dim)
    ensures LloydRun(xs, books + [next], iterations + 1, k, dim)
  {
    var longer := books + [next];
    assert Iterated(xs, books[iterations], next, dim);
    hide Iterated;
    forall i | 0 <= i <= iterations
      ensures Iterated(xs, longer[i], longer[i+1], dim)
    {
      if i < iterations {
        assert Iterated(xs, books[i], books[i+1], dim);
      }
    }
  }

  /** The training points that have centroid c as the first of their nearest. */
  ghost function Cluster(xs: seq<Vector>, cs: seq<Vector>, c: nat, dim: nat): set<nat>
    requires Training(xs, cs, dim)
  {
    set i: nat | i < |xs| && FirstNearest(xs[i], cs, c)
  }

  /** Coordinate d of the points of cluster c, zero for every other point. */
  ghost function ClusterColumn(xs: seq<Vector>, cs: seq<Vector>, c: nat, d: nat, dim: nat): seq<real>
    requires Training(xs, cs, dim) && d < dim
  {
    seq(|xs|, i requires 0 <= i < |xs| => if FirstNearest(xs[i], cs, c) then xs[i][d] else 0.0)
  }

  /** Every centroid of `next` is the mean of the training points nearest to its place in `cs`, and is where it
      was when there are none. */
  ghost predicate MovedToMeans(xs: seq<Vector>, cs: seq<Vector>, next: seq<Vector>, dim: nat)
    requires Training(xs, cs, dim) && |next| == |cs| && Codebook(next, dim)
  {
    forall c :: 0 <= c < |cs| ==>
                  if Cluster(xs, cs, c, dim) == {} then next[c] == cs[c]
                  else forall d :: 0 <= d < dim ==>
                                     next[c][d] == Sum(ClusterColumn(xs, cs, c, d, dim))
                                                   / (|Cluster(xs, cs, c, dim)| as real)
  }

  /** No two centroids are the first nearest of one point. */
  lemma FirstNearestIsOne(x: Vector, cs: seq<Vector>, a: nat, b: nat)
    requires Codebook(cs, |x|) && FirstNearest(x, cs, a) && FirstNearest(x, cs, b)
    ensures a == b
  {
    assert SqDist(x, cs[a]) == SqDist(x, cs[b]);
  }

  lemma {:induction false} CountIsCluster(xs: seq<Vector>, cs: seq<Vector>, assign: seq<nat>, c: nat, dim: nat, n: nat)
    requires Training(xs, cs, dim) && Assignment(xs, cs, assign) && AllNearest(xs, cs, assign, dim, |xs|)
    requires n <= |xs|
    ensures Count(assign, c, n) == |set i: nat | i < n && FirstNearest(xs[i], cs, c)|
  {
    hide FirstNearest, AllNearest;
    var part := set i: nat | i < n && FirstNearest(xs[i], cs, c);
    if n == 0 {
      assert part == {};
    } else {
      CountIsCluster(xs, cs, assign, c, dim, n - 1);
      var before := set i: nat | i < n - 1 && FirstNearest(xs[i], cs, c);
      NearestOne(xs, cs, assign, c, dim, n - 1);
      assert part == if assign[n-1] == c then before + {n - 1} else before;
    }
  }

  lemma NearestOne(xs: seq<Vector>, cs: seq<Vector>, assign: seq<nat>, c: nat, dim: nat, i: nat)
    requires Training(xs, cs, dim) && Assignment(xs, cs, assign) && AllNearest(xs, cs, assign, dim, |xs|)
    requires i < |xs|
    ensures assign[i] == c <==> FirstNearest(xs[i], cs, c)
  {
    if FirstNearest(xs[i], cs, c) {
      FirstNearestIsOne(xs[i], cs, assign[i], c);
    }
  }

  lemma {:induction false} SumIsColumn(xs: seq<Vector>, cs: seq<Vector>, assign: seq<nat>, c: nat, d: nat, dim: nat,
                                       n: nat)
    requires Training(xs, cs, dim) && Assignment(xs, cs, assign) && AllNearest(xs, cs, assign, dim, |xs|)
    requires n <= |xs| && d < dim
    ensures SumAt(xs, assign, c, d, dim, n) == Sum(ClusterColumn(xs, cs, c, d, dim)[..n])
  {
    hide AllNearest, FirstNearest;
    if n > 0 {
      SumIsColumn(xs, cs, assign, c, d, dim, n - 1);
      NearestOne(xs, cs, assign, c, dim, n - 1);
      var column := ClusterColumn(xs, cs, c, d, dim);
      assert column[..n][..n-1] == column[..n-1];
    }
  }

  /** One iteration moves every centroid to the mean of the points nearest to it. */
  lemma StepMovesToMeans(xs: seq<Vector>, cs: seq<Vector>, assign: seq<nat>, next: seq<Vector>, dim: nat)
    requires Training(xs, cs, dim) && LloydStep(xs, cs, assign, next, dim)
    ensures MovedToMeans(xs, cs, next, dim)
  {
    forall c | 0 <= c < |cs|
      ensures if Cluster(xs, cs, c, dim) == {} then next[c] == cs[c]
              else forall d :: 0 <= d < dim ==>
                                 next[c][d] == Sum(ClusterColumn(xs, cs, c, d, dim))
                                               / (|Cluster(xs, cs, c, dim)| as real)
    {
      CountIsCluster(xs, cs, assign, c, dim, |xs|);
      assert Cluster(xs, cs, c, dim) == set i: nat | i < |xs| && FirstNearest(xs[i], cs, c);
      if Cluster(xs, cs, c, dim) != {} {
        MeanIsQuotient(xs, cs, assign, c, next[c], dim);
      }
    }
  }

  lemma MeanIsQuotient(xs: seq<Vector>, cs: seq<Vector>, assign: seq<nat>, c: nat, m: Vector, dim: nat)
    requires Training(xs, cs, dim) && Assignment(xs, cs, assign) && AllNearest(xs, cs, assign, dim, |xs|)
    requires Cluster(xs, cs, c, dim) != {} && Count(assign, c, |xs|) == |Cluster(xs, cs, c, dim)|
    requires IsMean(xs, assign, c, m, dim)
    ensures forall d :: 0 <= d < dim ==>
                          m[d] == Sum(ClusterColumn(xs, cs, c, d, dim)) / (|Cluster(xs, cs, c, dim)| as real)
  {
    hide AllNearest, Cluster, ClusterColumn, Count, SumAt;
    forall d | 0 <= d < dim
      ensures m[d] == Sum(ClusterColumn(xs, cs, c, d, dim)) / (|Cluster(xs, cs, c, dim)| as real)
    {
      WholeColumn(xs, cs, assign, c, d, dim);
      assert |Cluster(xs, cs, c, dim)| > 0;
      QuotientOf(m[d], |Cluster(xs, cs, c, dim)| as real, Sum(ClusterColumn(xs, cs, c, d, dim)));
    }
  }

  lemma WholeColumn(xs: seq<Vector>, cs: seq<Vector>, assign: seq<nat>, c: nat, d: nat, dim: nat)
    requires Training(xs, cs, dim) && Assignment(xs, cs, assign) && AllNearest(xs, cs, assign, dim, |xs|)
    requires d < dim
    ensures SumAt(xs, assign, c, d, dim, |xs|) == Sum(ClusterColumn(xs, cs, c, d, dim))
  {
    SumIsColumn(xs, cs, assign, c, d, dim, |xs|);
    var column := ClusterColumn(xs, cs, c, d, dim);
    assert column[..|xs|] == column;
  }

  lemma QuotientOf(m: real, size: real, sum: real)
    requires size > 0.0 && m * size == sum
    ensures m == sum / size
  {
  }

  /** Each of the iterations of a training run moves all centroids to the means of their clusters. */
  lemma RunMovesToMeans(xs: seq<Vector>, books: seq<seq<Vector>>, iterations: nat, k: nat, dim: nat, i: nat)
    requires Codebook(xs, dim) && LloydRun(xs, books, iterations, k, dim)
    requires i < iterations
    ensures |books| == iterations + 1 && |books[i]| == k == |books[i+1]|
    ensures Codebook(books[i], dim) && Codebook(books[i+1], dim) && MovedToMeans(xs, books[i], books[i+1], dim)
  {
    var assign :| LloydStep(xs, books[i], assign, books[i+1], dim);
    StepMovesToMeans(xs, books[i], assign, books[i+1], dim);
  }

  /** Seed c is new, unless the seeds before it already are all there is to draw from. */
  ghost predicate Spread(xs: seq<Vector>, cs: seq<Vector>, c: nat)
    requires c < |cs|
  {
    cs[c] !in cs[..c] || forall x :: x in xs ==> x in cs[..c]
  }

  /** The distance of every point to the nearest seed so far. */
  ghost predicate Weighted(xs: seq<Vector>, cs: seq<Vector>, dim: nat, weights: seq<real>, n: nat)
    requires Training(xs, cs, dim) && 1 <= n <= |cs|
  {
    |weights| == |xs| && forall i :: 0 <= i < |xs| ==> weights[i] == Least(xs[i], cs, n)
  }

  /** A point has weight zero exactly when it is a seed already. */
  lemma WeightZero(xs: seq<Vector>, cs: seq<Vector>, dim: nat, weights: seq<real>, i: nat)
    requires Training(xs, cs, dim) && |cs| > 0 && i < |xs| && Weighted(xs, cs, dim, weights, |cs|)
    ensures weights[i] > 0.0 <==> xs[i] !in cs
    ensures weights[i] >= 0.0
  {
    var x := xs[i];
    LeastIsLeast(x, cs, |cs|, 0);
    var b :| 0 <= b < |cs| && Least(x, cs, |cs|) == SqDist(x, cs[b]);
    SqDistNonNegative(x, cs[b], dim);
    SqDistZero(x, cs[b], dim);
    assert x[..dim] == x && cs[b][..dim] == cs[b];
    if x in cs {
      var c :| 0 <= c < |cs| && cs[c] == x;
      LeastIsLeast(x, cs, |cs|, c);
      SqDistZero(x, cs[c], dim);
    }
  }

  /** The weights after one more seed. */
  method Reweigh(xs: seq<Vector>, cs: seq<Vector>, dim: nat, weights0: seq<real>) returns (weights: seq<real>)
    requires Training(xs, cs, dim) && |cs| > 0
    requires |weights0| == |xs| && (|cs| > 1 ==> Weighted(xs, cs, dim, weights0, |cs| - 1))
    ensures Weighted(xs, cs, dim, weights, |cs|)
  {
    weights := weights0;
    for i := 0 to |xs|
      invariant |weights| == |xs|
      invariant forall j :: 0 <= j < i ==> weights[j] == Least(xs[j], cs, |cs|)
      invariant forall j :: i <= j < |xs| ==> weights[j] == weights0[j]
    {
      var d := SquaredEuclidean(xs[i], cs[|cs|-1]);
      if |cs| == 1 || d < weights[i] {
        weights := weights[i := d];
      }
    }
  }

  /** A draw in proportion to the weights never takes a point of weight zero while there are others. */
  method Draw(weights: seq<real>) returns (pick: nat)
    requires weights != []
    ensures pick < |weights|
    ensures (exists i :: 0 <= i < |weights| && weights[i] > 0.0) ==> weights[pick] > 0.0
  {
    if i :| 0 <= i < |weights| && weights[i] > 0.0 {
      pick := i;
    } else {
      pick :| 0 <= pick < |weights|;
    }
  }

  /** k-means++: the first seed is any training point, and each further one is drawn in proportion to the
      squared distance to the nearest seed so far. */
  method Seeds(xs: seq<Vector>, k: nat, dim: nat) returns (cs: seq<Vector>)
    requires Codebook(xs, dim) && |xs| > 0 && k > 0
    ensures |cs| == k && Codebook(cs, dim)
    ensures forall c :: 0 <= c < k ==> cs[c] in xs && Spread(xs, cs, c)
    ensures forall c :: 0 <= c < k && (exists x :: x in xs && x !in cs[..c]) ==> cs[c] !in cs[..c]
  {
    var first :| 0 <= first < |xs|;
    cs := [xs[first]];
    var weights := seq(|xs|, i => 0.0);
    for c := 1 to k
      invariant |cs| == c && Codebook(cs, dim) && |weights| == |xs|
      invariant c > 1 ==> Weighted(xs, cs, dim, weights, c - 1)
      invariant forall b :: 0 <= b < c ==> cs[b] in xs && Spread(xs, cs, b)
    {
      weights := Reweigh(xs, cs, dim, weights);
      var pick := Draw(weights);
      SeedIsNew(xs, cs, dim, weights, pick);
      ghost var before := cs;
      cs := cs + [xs[pick]];
      OneMoreSeed(xs, before, dim, weights, xs[pick]);
    }
  }

  lemma SeedIsNew(xs: seq<Vector>, cs: seq<Vector>, dim: nat, weights: seq<real>, pick: nat)
    requires Training(xs, cs, dim) && |cs| > 0 && pick < |xs| && Weighted(xs, cs, dim, weights, |cs|)
    requires (exists i :: 0 <= i < |weights| && weights[i] > 0.0) ==> weights[pick] > 0.0
    ensures xs[pick] !in cs || forall x :: x in xs ==> x in cs
  {
    WeightZero(xs, cs, dim, weights, pick);
    if x :| x in xs && x !in cs {
      var i :| 0 <= i < |xs| && xs[i] == x;
      WeightZero(xs, cs, dim, weights, i);
    }
  }

  /** A further seed leaves the weights and the spread of the earlier ones as they were. */
  lemma OneMoreSeed(xs: seq<Vector>, cs: seq<Vector>, dim: nat, weights: seq<real>, seed: Vector)
    requires Training(xs, cs, dim) && |cs| > 0 && |seed| == dim && Weighted(xs, cs, dim, weights, |cs|)
    requires forall b :: 0 <= b < |cs| ==> Spread(xs, cs, b)
    requires seed !in cs || forall x :: x in xs ==> x in cs
    ensures Weighted(xs, cs + [seed], dim, weights, |cs|)
    ensures forall b :: 0 <= b <= |cs| ==> Spread(xs, cs + [seed], b)
  {
    forall i | 0 <= i < |xs|
      ensures Least(xs[i], cs + [seed], |cs|) == Least(xs[i], cs, |cs|)
    {
      LeastOfPrefix(xs[i], cs, cs + [seed], |cs|);
    }
    forall b | 0 <= b <= |cs|
      ensures Spread(xs, cs + [seed], b)
    {
      assert (cs + [seed])[..b] == cs[..b];
      assert cs[..|cs|] == cs;
      assert b < |cs| ==> Spread(xs, cs, b);
    }
  }

  lemma {:induction false} LeastOfPrefix(x: Vector, cs: seq<Vector>, longer: seq<Vector>, n: nat)
    requires 1 <= n <= |cs| && cs <= longer && Codebook(longer, |x|) && Codebook(cs, |x|)
    ensures Least(x, longer, n) == Least(x, cs, n)
  {
    if n > 1 {
      LeastOfPrefix(x, cs, longer, n - 1);
    }
  }

  /** Training of one subquantizer: whichever seeds the draw allows and however many iterations are
      asked for, they lead from the seeds to the codebook, which is at least as good as the seeds. */
  method Train(xs: seq<Vector>, k: nat, iterations: nat, dim: nat)
    returns (cs: seq<Vector>, ghost books: seq<seq<Vector>>)
    requires Codebook(xs, dim) && |xs| > 0 && k > 0
    ensures LloydRun(xs, books, iterations, k, dim) && books[iterations] == cs
    ensures forall c :: 0 <= c < k ==> books[0][c] in xs && Spread(xs, books[0], c)
    ensures Distortion(xs, cs, dim, |xs|) <= Distortion(xs, books[0], dim, |xs|)
  {
    cs := Seeds(xs, k, dim);
    ghost var seeds := cs;
    books := [cs];
    for iter := 0 to iterations
      invariant LloydRun(xs, books, iter, k, dim) && books[iter] == cs && books[0] == seeds
      invariant Distortion(xs, cs, dim, |xs|) <= Distortion(xs, seeds, dim, |xs|)
    {
      ghost var assign;
      cs, assign := Iterate(xs, cs, dim);
      RunOneMore(xs, books, iter, k, dim, assign, cs);
      books := books + [cs];
    }
  }
}
