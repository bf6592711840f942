/**
 The bound of 2M + 1 elements in `SmallRunConnected` cannot be raised: for every M there is an insert-only
 run of 2M + 2 points, ordered by Euclidean distance, whose last element no list names.  Point i lies at
 distance i on an axis of its own.  The first M points are hubs that take every node into their lists until
 these are full; the last point is farther away than all they hold.
 */
module HnswTightness {
  import opened Ranking
  import opened HnswGraph
  import opened HnswBeam
  import opened HnswState
  import opened HnswRuns
  import opened VectorOps
  import opened Vectors

  // -------------------------------------------------------------------- the distances

  /** The squared Euclidean distance as the index uses it. */
  ghost function SquaredEuclidean(farthest: real): Space {
    Space((a: Vector, b: Vector) => L2Squared(a, b, farthest), farthest)
  }

  /** The Euclidean distance as the index uses it. */
  ghost function Euclidean(sqrt: real -> real, farthest: real): Space {
    Space((a: Vector, b: Vector) => sqrt(L2Squared(a, b, farthest)), farthest)
  }

  /** Vectors of one dimension are as near as their Euclidean distance says. */
  ghost predicate OrderedByL2(space: Space) {
    forall a: Vector, b: Vector, c: Vector, d: Vector :: |a| == |b| == |c| == |d| ==>
      (space.distance(a, b) <= space.distance(c, d) <==> L2Squared(a, b, 0.0) <= L2Squared(c, d, 0.0))
  }

  lemma SquaredEuclideanOrders(farthest: real)
    ensures OrderedByL2(SquaredEuclidean(farthest))
  {
  }

  lemma EuclideanOrders(sqrt: real -> real, farthest: real)
    requires IsSqrt(sqrt)
    ensures OrderedByL2(Euclidean(sqrt, farthest))
  {
    var space := Euclidean(sqrt, farthest);
    forall a: Vector, b: Vector, c: Vector, d: Vector | |a| == |b| == |c| == |d|
      ensures space.distance(a, b) <= space.distance(c, d) <==> L2Squared(a, b, 0.0) <= L2Squared(c, d, 0.0)
    {
      assert space.distance(a, b) == sqrt(L2Squared(a, b, farthest));
      assert space.distance(c, d) == sqrt(L2Squared(c, d, farthest));
      DotSelfNonNegative(Diff(a, b), |a|);
      DotSelfNonNegative(Diff(c, d), |a|);
      RootMonotone(sqrt, L2Squared(a, b, 0.0), L2Squared(c, d, 0.0));
    }
  }

  lemma RootMonotone(sqrt: real -> real, x: real, y: real)
    requires IsSqrt(sqrt) && x >= 0.0 && y >= 0.0
    ensures sqrt(x) <= sqrt(y) <==> x <= y
  {
    var p, q := sqrt(x), sqrt(y);
    assert p >= 0.0 && q >= 0.0 && p * p == x && q * q == y;
    if p > q {
      SquareGrows(q, p);
      assert p * p != q * q by { assert (p - q) * (p + q) > 0.0; }
    } else {
      SquareGrows(p, q);
    }
  }

  lemma SquareGrows(x: real, y: real)
    requires 0.0 <= x <= y
    ensures x * x <= y * y
  {
    assert (y - x) * (y + x) >= 0.0;
  }

  lemma OrderApplies(space: Space, a: Vector, b: Vector, c: Vector, d: Vector)
    requires OrderedByL2(space) && |a| == |b| == |c| == |d|
    requires L2Squared(a, b, 0.0) <= L2Squared(c, d, 0.0)
    ensures space.distance(a, b) <= space.distance(c, d)
  {
  }

  // ------------------------------------------------------------------------ the points

  /** Point i lies at distance i on axis i. */
  function Point(d: nat, i: nat): (p: Vector)
    ensures |p| == d
  {
    seq(d, k => if k == i then i as real else 0.0)
  }

  function Height(i: nat): real { Times(i as real, i as real) }

  /** Squares of the first n coordinates of the difference of two points. */
  lemma {:induction false} AxisDots(d: nat, i: nat, j: nat, n: nat)
    requires n <= d && i != j
    ensures var diff := Diff(Point(d, i), Point(d, j));
            Dot(diff, diff, n) == (if i < n then Height(i) else 0.0) + (if j < n then Height(j) else 0.0)
  {
    hide Point, Height;
    if n > 0 {
      AxisDots(d, i, j, n - 1);
      AxisCoordinate(d, i, j, n - 1);
    }
  }

  lemma AxisCoordinate(d: nat, i: nat, j: nat, k: nat)
    requires k < d && i != j
    ensures var diff := Diff(Point(d, i), Point(d, j));
            Times(diff[k], diff[k]) == (if k == i then Height(i) else 0.0) + (if k == j then Height(j) else 0.0)
  {
    var x, diff := k as real, Diff(Point(d, i), Point(d, j));
    assert diff[k] == if k == i then x else if k == j then 0.0 - x else 0.0;
    assert Times(0.0 - x, 0.0 - x) == Times(x, x) && Times(0.0, 0.0) == 0.0;
  }

  /** Seen from one of the points, the others are the nearer the smaller their number. */
  lemma SmallerIsNearer(space: Space, d: nat, q: nat, x: nat, y: nat)
    requires OrderedByL2(space)
    requires q < d && x <= y < d && q != x && q != y
    ensures space.distance(Point(d, q), Point(d, x)) <= space.distance(Point(d, q), Point(d, y))
  {
    hide OrderedByL2, Point;
    AxisDots(d, q, x, d);
    AxisDots(d, q, y, d);
    SquareGrows(x as real, y as real);
    OrderApplies(space, Point(d, q), Point(d, x), Point(d, q), Point(d, y));
  }

  // -------------------------------------------------------------------------- the run

  function Axes(M: nat): nat { 2 * M + 2 }

  function StarConfig(M: nat): Config { Config(Axes(M), 2 * M + 2, M, 2 * M + 2, 2 * M + 2, 3, 42) }

  /** The numbers from a up to, but not including, b. */
  function UpTo(a: nat, b: nat): (s: seq<nat>)
    ensures |s| == if a <= b then b - a else 0
    ensures forall i :: 0 <= i < |s| ==> s[i] == a + i
  {
    if a <= b then seq<nat>(b - a, i requires 0 <= i < b - a => a + i) else []
  }

  /** The neighbours of node i when n nodes are in: a hub has all others, as far as they fit, the
      rest has the hubs. */
  function StarList(M: nat, n: nat, i: nat): seq<VectorId> {
    if i < M then UpTo(0, i) + UpTo(i + 1, Min(n, 2 * M + 1)) else UpTo(0, M)
  }

  function StarNode(M: nat, n: nat, i: nat): Node {
    Node(i, 0, [StarList(M, n, i)], Point(Axes(M), i), false)
  }

  function StarNodes(M: nat, n: nat): (nodes: seq<Node>)
    ensures |nodes| == n && forall i :: 0 <= i < n ==> nodes[i] == StarNode(M, n, i)
  {
    seq(n, i requires 0 <= i < n => StarNode(M, n, i))
  }

  /** Every node under its own number. */
  function StarIndex(n: nat): (index: map<VectorId, nat>)
    ensures forall i: nat :: i in index <==> i < n
    ensures forall i: nat :: i in index ==> index[i] == i
  {
    if n == 0 then map[] else StarIndex(n - 1)[n - 1 := n - 1]
  }

  ghost function StarGraph(M: nat, n: nat): Graph {
    Graph(StarNodes(M, n), StarIndex(n))
  }

  ghost function StarState(M: nat, n: nat): State {
    if n == 0 then EMPTY else State(StarGraph(M, n), 0, 0, n)
  }

  /** The graph with the new node n stored, but not yet linked. */
  ghost function StarPushed(M: nat, n: nat): Graph {
    Pushed(StarGraph(M, n), n, Point(Axes(M), n), 0)
  }

  /** Seen from point q, node x is no farther than node y. */
  ghost predicate Nearer(space: Space, g: Graph, M: nat, q: nat, x: nat, y: nat) {
    DistanceTo(space, g, Point(Axes(M), q), x) <= DistanceTo(space, g, Point(Axes(M), q), y)
  }

  lemma StarNearer(space: Space, M: nat, n: nat, q: nat, x: nat, y: nat)
    requires OrderedByL2(space)
    requires x <= y < n <= Axes(M) && q < Axes(M) && q != x && q != y
    ensures Nearer(space, StarGraph(M, n), M, q, x, y)
  {
    hide OrderedByL2, Point;
    SmallerIsNearer(space, Axes(M), q, x, y);
    var g := StarGraph(M, n);
    assert g.index[x] == x && g.nodes[x].vector == Point(Axes(M), x);
    assert g.index[y] == y && g.nodes[y].vector == Point(Axes(M), y);
  }

  lemma PushedNearer(space: Space, M: nat, n: nat, q: nat, x: nat, y: nat)
    requires OrderedByL2(space)
    requires x <= y <= n < Axes(M) && q < Axes(M) && q != x && q != y
    ensures Nearer(space, StarPushed(M, n), M, q, x, y)
  {
    hide OrderedByL2, Point;
    SmallerIsNearer(space, Axes(M), q, x, y);
    var g := StarPushed(M, n);
    assert g.index[x] == x && g.nodes[x].vector == Point(Axes(M), x);
    assert g.index[y] == y && g.nodes[y].vector == Point(Axes(M), y);
  }

  lemma StarReaches(M: nat, n: nat, x: nat)
    requires 1 <= M && x < n <= 2 * M + 1
    ensures Reachable(StarGraph(M, n), 0, 0, x)
  {
    var g := StarGraph(M, n);
    ReachSelf(g, 0, 0);
    if x > 0 {
      assert StarList(M, n, 0)[x - 1] == x;
      assert Adjacent(g, 0, 0, x);
      ReachStep(g, 0, 0, 0, x);
    }
  }

  /** The beam search of the next node finds everything, hubs first. */
  lemma StarBeam(space: Space, M: nat, n: nat)
    requires OrderedByL2(space)
    requires 1 <= M && 1 <= n <= 2 * M + 1
    ensures BeamResult(space, StarGraph(M, n), Point(Axes(M), n), 0, 0, 2 * M + 2, UpTo(0, n))
  {
    hide OrderedByL2;
    var g, q, found := StarGraph(M, n), Point(Axes(M), n), UpTo(0, n);
    var evaluated := set x | x in found;
    forall x | x in evaluated
      ensures Live(g, x) && Reachable(g, 0, 0, x)
    {
      StarReaches(M, n, x);
    }
    assert found[0] == 0 && 0 in evaluated;
    forall i, j | 0 <= i < j < |found|
      ensures Before(EntryOf(space, g, q, found[i]), EntryOf(space, g, q, found[j]))
    {
      StarNearer(space, M, n, n, i, j);
    }
    forall x: nat, y: nat | x in found && Adjacent(g, 0, x, y)
      ensures y in evaluated
    {
      assert y < n && found[y] == y;
    }
    assert Beam(space, g, q, 0, 0, 2 * M + 2, found, evaluated);
  }

  /** Seen from the new node, the nodes are in order of distance. */
  lemma StarSorted(space: Space, M: nat, n: nat)
    requires OrderedByL2(space)
    requires 1 <= M && n <= 2 * M + 1
    ensures IsSorting(space, StarGraph(M, n), Point(Axes(M), n), UpTo(0, n), UpTo(0, n))
  {
    hide OrderedByL2;
    var g, q, found := StarGraph(M, n), Point(Axes(M), n), UpTo(0, n);
    forall i, j | 0 <= i < j < |found|
      ensures DistanceTo(space, g, q, found[i]) <= DistanceTo(space, g, q, found[j])
    {
      StarNearer(space, M, n, n, i, j);
    }
  }

  lemma StarCut(space: Space, M: nat, n: nat)
    requires OrderedByL2(space)
    requires 1 <= M && 1 <= n <= 2 * M + 1
    ensures CutToNearest(space, StarGraph(M, n), Point(Axes(M), n), UpTo(0, n), M, StarList(M, n + 1, n))
  {
    hide OrderedByL2, StarGraph, Point;
    StarSorted(space, M, n);
    assert StarList(M, n + 1, n) == if n <= M then UpTo(0, n) else UpTo(0, n)[..M];
  }

  /** It links to the hubs, or to all nodes while there are only hubs. */
  lemma StarChooses(space: Space, M: nat, n: nat)
    requires OrderedByL2(space)
    requires 1 <= M && 1 <= n <= 2 * M + 1
    ensures Chosen(space, StarConfig(M), StarState(M, n), Point(Axes(M), n), 0, 0, StarList(M, n + 1, n))
  {
    assert StarConfig(M).M == M && StarConfig(M).efConstruction == 2 * M + 2;
    hide *;
    StarBeam(space, M, n);
    StarCut(space, M, n);
    StarEntry(M, n);
    assert Width(2 * M + 2) == 2 * M + 2;
    ChosenFromEntry(space, StarConfig(M), StarState(M, n), Point(Axes(M), n), UpTo(0, n), StarList(M, n + 1, n));
  }

  /** A list cut from a beam that started at a live entry point of the bottom layer. */
  lemma ChosenFromEntry(space: Space, cfg: Config, s: State, vector: Vector, found: seq<VectorId>, list: seq<VectorId>)
    requires s.entryPoint in AtLevel(s.graph.nodes, 0) && Live(s.graph, s.entryPoint)
    requires BeamResult(space, s.graph, vector, s.entryPoint, 0, Width(cfg.efConstruction), found)
    requires CutToNearest(space, s.graph, vector, found, cfg.M, list)
    ensures Chosen(space, cfg, s, vector, 0, s.entryPoint, list)
  {
    assert ChosenFrom(space, cfg, s, vector, 0, s.entryPoint, found, list);
  }

  lemma StarEntry(M: nat, n: nat)
    requires 1 <= n
    ensures var s := StarState(M, n);
            && s.graph == StarGraph(M, n) && s.entryPoint == 0 && s.maxLevel == 0 && s.elementCount == n
            && Live(s.graph, 0) && 0 in AtLevel(s.graph.nodes, 0)
  {
    var nodes := StarState(M, n).graph.nodes;
    assert nodes[0].id == 0 && nodes[0].level >= 0;
  }

  /** The list of a hub with the new node behind it: in order of distance from the hub. */
  lemma StarHubSorted(space: Space, M: nat, n: nat, i: nat)
    requires OrderedByL2(space)
    requires 1 <= M && i < M && i < n <= 2 * M + 1
    ensures var all := StarList(M, n, i) + [n];
            IsSorting(space, StarPushed(M, n), Point(Axes(M), i), all, all)
  {
    hide OrderedByL2;
    var all := StarList(M, n, i) + [n];
    forall a, b | 0 <= a < b < |all|
      ensures Nearer(space, StarPushed(M, n), M, i, all[a], all[b])
    {
      assert all[a] < all[b] <= n && all[a] != i && all[b] != i;
      PushedNearer(space, M, n, i, all[a], all[b]);
    }
  }

  /** Hub i takes the new node n into its list while there is room. */
  lemma StarLinksBack(space: Space, M: nat, n: nat, i: nat)
    requires OrderedByL2(space)
    requires 1 <= M && i < M && i < n <= 2 * M + 1
    ensures CutToNearest(space, StarPushed(M, n), Point(Axes(M), i), StarList(M, n, i) + [n], 2 * M,
                         StarList(M, n + 1, i))
  {
    hide OrderedByL2, StarGraph, StarPushed, Point;
    StarHubSorted(space, M, n, i);
    var all := StarList(M, n, i) + [n];
    assert StarList(M, n + 1, i) == if n <= 2 * M then all else all[..2 * M];
  }

  lemma StarOldNode(space: Space, M: nat, n: nat, i: nat)
    requires OrderedByL2(space)
    requires 1 <= M && i < n <= 2 * M + 1
    ensures OldNode(space, StarConfig(M), StarPushed(M, n), StarNode(M, n, i), StarNode(M, n + 1, i), n,
                    [StarList(M, n + 1, n)])
  {
    hide StarGraph, StarPushed, Point, OrderedByL2;
    var chosen := StarList(M, n + 1, n);
    assert i in chosen <==> i < M by {
      if i < M { assert chosen[i] == i; }
    }
    if i < M {
      StarLinksBack(space, M, n, i);
    }
    StarUntouched(M, n, i);
    hide StarList;
    OneListOldNode(space, StarConfig(M), StarPushed(M, n), StarNode(M, n, i), StarNode(M, n + 1, i), n, chosen);
  }

  lemma StarUntouched(M: nat, n: nat, i: nat)
    ensures M <= i ==> StarList(M, n + 1, i) == StarList(M, n, i)
  {
  }

  /** A node that takes part in the bottom layer only. */
  lemma OneListOldNode(space: Space, cfg: Config, pushed: Graph, before: Node, after: Node, id: VectorId,
                       chosen: seq<VectorId>)
    requires SameHeader(before, after) && |before.connections| == 1
    requires LinkedBack(space, cfg, pushed, before, after, 0, id, chosen)
    ensures OldNode(space, cfg, pushed, before, after, id, [chosen])
  {
  }

  /** The first node comes alone. */
  lemma StarFirst(space: Space, M: nat)
    ensures Added(space, StarConfig(M), EMPTY, 0, Point(Axes(M), 0), 0, StarState(M, 1))
  {
    var t := StarState(M, 1);
    assert t.graph.nodes[0] == StarNode(M, 1, 0);
    assert t.graph.index == map[0 := 0];
    assert StarList(M, 1, 0) == [] || M == 0;
    assert Origin(space, EMPTY, 0, Point(Axes(M), 0), 0, 0);
    assert NewLists(space, StarConfig(M), EMPTY, Point(Axes(M), 0), t.graph.nodes[0], -1, 0);
  }

  lemma StarNewLists(space: Space, M: nat, n: nat)
    requires OrderedByL2(space)
    requires 1 <= M && 1 <= n <= 2 * M + 1
    ensures Origin(space, StarState(M, n), n, Point(Axes(M), n), 0, 0)
    ensures NewLists(space, StarConfig(M), StarState(M, n), Point(Axes(M), n), StarNode(M, n + 1, n), -1, 0)
  {
    hide StarState, StarGraph, Point, OrderedByL2, StarList;
    StarChooses(space, M, n);
    StarEntry(M, n);
    FlatLists(space, StarConfig(M), StarState(M, n), n, Point(Axes(M), n), StarNode(M, n + 1, n));
  }

  /** In an index of one layer the search for neighbours starts at the entry point. */
  lemma FlatLists(space: Space, cfg: Config, s: State, id: VectorId, vector: Vector, node: Node)
    requires s.elementCount > 0 && s.maxLevel == 0
    requires node.level == 0 && |node.connections| == 1
    requires Chosen(space, cfg, s, vector, 0, s.entryPoint, node.connections[0])
    ensures Origin(space, s, id, vector, 0, s.entryPoint)
    ensures NewLists(space, cfg, s, vector, node, -1, s.entryPoint)
  {
  }

  lemma StarOldNodes(space: Space, M: nat, n: nat)
    requires OrderedByL2(space)
    requires 1 <= M && 1 <= n <= 2 * M + 1
    ensures OldNodes(space, StarConfig(M), StarState(M, n), StarPushed(M, n), StarGraph(M, n + 1).nodes, n,
                     [StarList(M, n + 1, n)])
  {
    forall i | 0 <= i < n
      ensures OldNode(space, StarConfig(M), StarPushed(M, n), StarGraph(M, n).nodes[i], StarGraph(M, n + 1).nodes[i],
                      n, [StarList(M, n + 1, n)])
    {
      StarOldNode(space, M, n, i);
    }
  }

  lemma StarIndexGrows(n: nat)
    ensures StarIndex(n + 1) == StarIndex(n)[n := n]
  {
  }

  lemma StarStep(space: Space, M: nat, n: nat)
    requires OrderedByL2(space)
    requires 1 <= M && n <= 2 * M + 1
    ensures Fresh(StarState(M, n), n)
    ensures Added(space, StarConfig(M), StarState(M, n), n, Point(Axes(M), n), 0, StarState(M, n + 1))
  {
    if n == 0 {
      StarFirst(space, M);
    } else {
      StarNewLists(space, M, n);
      StarOldNodes(space, M, n);
      StarEntry(M, n);
      StarEntry(M, n + 1);
      StarIndexGrows(n);
      hide OrderedByL2, StarIndex, StarList, StarState;
      assert StarGraph(M, n + 1).nodes[n] == StarNode(M, n + 1, n);
    }
  }

  // ----------------------------------------------------------------------- the result

  function StarOps(M: nat): (ops: seq<Op>)
    ensures |ops| == 2 * M + 2
    ensures forall i :: 0 <= i < 2 * M + 2 ==> ops[i] == Add(i, Point(Axes(M), i), 0)
  {
    seq(2 * M + 2, i requires 0 <= i < 2 * M + 2 => Add(i, Point(Axes(M), i), 0))
  }

  ghost function StarStates(M: nat): (states: seq<State>)
    ensures |states| == 2 * M + 3 && forall i :: 0 <= i < 2 * M + 3 ==> states[i] == StarState(M, i)
  {
    seq(2 * M + 3, i requires 0 <= i < 2 * M + 3 => StarState(M, i))
  }

  lemma StarRuns(space: Space, M: nat)
    requires OrderedByL2(space) && 1 <= M
    ensures Run(space, StarConfig(M), StarOps(M), StarStates(M))
  {
    var ops, states := StarOps(M), StarStates(M);
    assert states[0] == EMPTY;
    hide OrderedByL2, StarState, Point;
    forall i | 0 <= i < |ops|
      ensures Step(space, StarConfig(M), states[i], ops[i], states[i + 1])
    {
      StarStep(space, M, i);
    }
  }

  /** Nothing leads to the last node. */
  lemma LastIsLost(M: nat)
    requires 1 <= M
    ensures Live(StarGraph(M, 2 * M + 2), 2 * M + 1)
    ensures !Reachable(StarGraph(M, 2 * M + 2), 0, 0, 2 * M + 1)
  {
    var g, last := StarGraph(M, 2 * M + 2), 2 * M + 1;
    forall x: nat
      ensures !Adjacent(g, 0, x, last)
    {
      if Live(g, x) {
        var list := StarList(M, 2 * M + 2, x);
        assert Neighbors(g, 0, x) == list;
        assert forall j :: 0 <= j < |list| ==> list[j] <= 2 * M;
      }
    }
    if Reachable(g, 0, 0, last) {
      ReachedIsNamed(g, 0, 0, last);
    }
  }

  ghost predicate InsertOnly(ops: seq<Op>) {
    forall i :: 0 <= i < |ops| ==> ops[i].Add?
  }

  /** Every insert-only run of at most n elements, over whatever vectors, levels and settings besides M,
      leaves the bottom layer connected. */
  ghost predicate AlwaysConnected(space: Space, M: nat, n: nat) {
    forall cfg: Config, ops: seq<Op>, states: seq<State> ::
      Run(space, cfg, ops, states) && cfg.M == M && |ops| <= n && InsertOnly(ops)
      ==> Connected(states[|ops|].graph)
  }

  /** Up to 2M + 1 elements the distance function does not matter. */
  lemma SmallRunsConnected(space: Space, M: nat, n: nat)
    requires 1 <= M && n <= 2 * M + 1
    ensures AlwaysConnected(space, M, n)
  {
    forall cfg: Config, ops: seq<Op>, states: seq<State> |
      Run(space, cfg, ops, states) && cfg.M == M && |ops| <= n && InsertOnly(ops)
      ensures Connected(states[|ops|].graph)
    {
      SmallRunConnected(space, cfg, ops, states);
    }
  }

  lemma StarRunNotConnected(space: Space, M: nat, n: nat)
    requires OrderedByL2(space)
    requires 1 <= M && n >= 2 * M + 2
    ensures !AlwaysConnected(space, M, n)
  {
    hide *;
    StarRuns(space, M);
    StarRunShape(M);
    StarNotConnected(M);
    DisconnectedRunBreaks(M, n, space, StarConfig(M), StarOps(M), StarStates(M));
  }

  lemma StarRunShape(M: nat)
    ensures InsertOnly(StarOps(M)) && StarConfig(M).M == M
    ensures StarStates(M)[2 * M + 2] == StarState(M, 2 * M + 2)
  {
    hide StarState;
  }

  lemma StarNotConnected(M: nat)
    requires 1 <= M
    ensures !Connected(StarState(M, 2 * M + 2).graph)
  {
    LastIsLost(M);
    StarEntry(M, 2 * M + 2);
    hide StarGraph, StarState;
    assert !Reachable(StarState(M, 2 * M + 2).graph, 0, 0, 2 * M + 1);
  }

  lemma DisconnectedRunBreaks(M: nat, n: nat, space: Space, cfg: Config, ops: seq<Op>, states: seq<State>)
    requires Run(space, cfg, ops, states) && cfg.M == M && |ops| <= n && InsertOnly(ops)
    requires !Connected(states[|ops|].graph)
    ensures !AlwaysConnected(space, M, n)
  {
  }

  /** With a Euclidean distance the bound is exactly 2M + 1, for every M. */
  lemma ConnectedExactlyUpTo(space: Space, M: nat, n: nat)
    requires OrderedByL2(space) && 1 <= M
    ensures AlwaysConnected(space, M, n) <==> n <= 2 * M + 1
  {
    hide *;
    if n <= 2 * M + 1 {
      SmallRunsConnected(space, M, n);
    } else {
      StarRunNotConnected(space, M, n);
    }
  }

  /** Both distances of the program that come from the Euclidean one have that bound. */
  lemma EuclideanExactlyUpTo(sqrt: real -> real, farthest: real, M: nat, n: nat)
    requires IsSqrt(sqrt) && 1 <= M
    ensures AlwaysConnected(SquaredEuclidean(farthest), M, n) <==> n <= 2 * M + 1
    ensures AlwaysConnected(Euclidean(sqrt, farthest), M, n) <==> n <= 2 * M + 1
  {
    hide AlwaysConnected, OrderedByL2;
    SquaredEuclideanOrders(farthest);
    EuclideanOrders(sqrt, farthest);
    ConnectedExactlyUpTo(SquaredEuclidean(farthest), M, n);
    ConnectedExactlyUpTo(Euclidean(sqrt, farthest), M, n);
  }
}
