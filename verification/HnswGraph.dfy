/**
 The layered proximity graph behind the HNSW index, as a value: nodes, the lookup table
 from ids to node positions, neighbour lists per layer, and reachability along live edges.
 */
module HnswGraph {
  import opened Sequences
  import opened Ranking
  import opened Vectors

  type VectorId = nat

  /** `Space.farthest` stands for the largest finite distance, which the index reports for an
      id it does not hold. */
  datatype Space = Space(distance: (Vector, Vector) -> real, farthest: real)

  datatype Node = Node(
    id: VectorId,
    level: nat,
    connections: seq<seq<VectorId>>,
    vector: Vector,
    deleted: bool)

  datatype Graph = Graph(nodes: seq<Node>, index: map<VectorId, nat>)

  /** Every looked-up id leads to a node that exists and is not deleted. */
  predicate IndexOk(g: Graph) {
    forall id :: id in g.index ==> g.index[id] < |g.nodes| && !g.nodes[g.index[id]].deleted
  }

  predicate Live(g: Graph, id: VectorId) {
    id in g.index && g.index[id] < |g.nodes| && !g.nodes[g.index[id]].deleted
  }

  function DistanceTo(space: Space, g: Graph, v: Vector, id: VectorId): real {
    if id !in g.index then space.farthest
    else if g.index[id] >= |g.nodes| then space.farthest
    else space.distance(v, g.nodes[g.index[id]].vector)
  }

  /** The neighbour list of a live node; empty above the node's own level. */
  function Neighbors(g: Graph, layer: nat, id: VectorId): seq<VectorId> {
    if Live(g, id) && layer < |g.nodes[g.index[id]].connections|
    then g.nodes[g.index[id]].connections[layer]
    else []
  }

  ghost predicate Adjacent(g: Graph, layer: nat, u: VectorId, v: VectorId) {
    Live(g, u) && Live(g, v) && v in Neighbors(g, layer, u)
  }

  /** A walk along edges of one layer through live nodes only. */
  ghost predicate Walk(g: Graph, layer: nat, p: seq<VectorId>) {
    && |p| > 0
    && Live(g, p[0])
    && forall i :: 0 <= i < |p| - 1 ==> Adjacent(g, layer, p[i], p[i+1])
  }

  ghost predicate Reachable(g: Graph, layer: nat, u: VectorId, v: VectorId) {
    exists p :: Walk(g, layer, p) && p[0] == u && p[|p|-1] == v
  }

  /** Ids of the nodes, deleted or not, that take part in a layer. */
  ghost function AtLevel(nodes: seq<Node>, layer: nat): set<VectorId> {
    set i | 0 <= i < |nodes| && nodes[i].level >= layer :: nodes[i].id
  }

  /** Distances from a query to all live nodes. */
  ghost function Distances(space: Space, g: Graph, query: Vector): map<VectorId, real> {
    map id | id in g.index :: DistanceTo(space, g, query, id)
  }

  // ---------------------------------------------------------------- reachability

  lemma ReachSelf(g: Graph, layer: nat, u: VectorId)
    requires Live(g, u)
    ensures Reachable(g, layer, u, u)
  {
    var p := [u];
    assert Walk(g, layer, p) && p[0] == u && p[|p|-1] == u;
  }

  lemma ReachStep(g: Graph, layer: nat, u: VectorId, v: VectorId, w: VectorId)
    requires Reachable(g, layer, u, v)
    requires Adjacent(g, layer, v, w)
    ensures Reachable(g, layer, u, w)
  {
    var p :| Walk(g, layer, p) && p[0] == u && p[|p|-1] == v;
    var q := p + [w];
    forall i | 0 <= i < |q| - 1
      ensures Adjacent(g, layer, q[i], q[i+1])
    {
      if i < |p| - 1 {
        assert Adjacent(g, layer, p[i], p[i+1]);
      }
    }
    assert Walk(g, layer, q) && q[0] == u && q[|q|-1] == w;
  }

  lemma ReachTrans(g: Graph, layer: nat, u: VectorId, v: VectorId, w: VectorId)
    requires Reachable(g, layer, u, v)
    requires Reachable(g, layer, v, w)
    ensures Reachable(g, layer, u, w)
  {
    var p :| Walk(g, layer, p) && p[0] == v && p[|p|-1] == w;
    ReachAlong(g, layer, u, p);
  }

  lemma {:induction false} ReachAlong(g: Graph, layer: nat, u: VectorId, p: seq<VectorId>)
    requires Walk(g, layer, p)
    requires Reachable(g, layer, u, p[0])
    ensures Reachable(g, layer, u, p[|p|-1])
  {
    var n := |p| - 1;
    if n > 0 {
      var q := p[..n];
      forall i | 0 <= i < |q| - 1
        ensures Adjacent(g, layer, q[i], q[i+1])
      {
        assert Adjacent(g, layer, p[i], p[i+1]);
      }
      ReachAlong(g, layer, u, q);
      assert Adjacent(g, layer, p[n-1], p[n]);
      ReachStep(g, layer, u, p[n-1], p[n]);
    }
  }

  /** A set that holds u and is closed under live edges holds everything u can reach. */
  lemma ClosedHoldsReachable(g: Graph, layer: nat, u: VectorId, v: VectorId, s: set<VectorId>)
    requires u in s
    requires forall x, y :: x in s && Adjacent(g, layer, x, y) ==> y in s
    requires Reachable(g, layer, u, v)
    ensures v in s
  {
    var p :| Walk(g, layer, p) && p[0] == u && p[|p|-1] == v;
    var i := 0;
    while i < |p| - 1
      invariant 0 <= i < |p|
      invariant p[i] in s
    {
      assert Adjacent(g, layer, p[i], p[i+1]);
      i := i + 1;
    }
  }

  /** Walks survive in any graph that keeps the edges of the layer. */
  lemma ReachMonotone(g: Graph, h: Graph, layer: nat, u: VectorId, v: VectorId)
    requires Reachable(g, layer, u, v)
    requires Live(h, u)
    requires forall x, y :: Adjacent(g, layer, x, y) ==> Adjacent(h, layer, x, y)
    ensures Reachable(h, layer, u, v)
  {
    var p :| Walk(g, layer, p) && p[0] == u && p[|p|-1] == v;
    forall i | 0 <= i < |p| - 1
      ensures Adjacent(h, layer, p[i], p[i+1])
    {
      assert Adjacent(g, layer, p[i], p[i+1]);
    }
    assert Walk(h, layer, p) && p[0] == u && p[|p|-1] == v;
  }

  /** Walking never leaves the ids named in neighbour lists of the layer. */
  lemma ReachedIsNamed(g: Graph, layer: nat, u: VectorId, v: VectorId)
    requires Reachable(g, layer, u, v)
    ensures Live(g, u) && Live(g, v)
    ensures v == u || exists x :: Adjacent(g, layer, x, v)
  {
    var p :| Walk(g, layer, p) && p[0] == u && p[|p|-1] == v;
    if |p| > 1 {
      assert Adjacent(g, layer, p[|p|-2], p[|p|-2+1]);
    }
  }

  // ------------------------------------------------------------- lists cut by distance

  ghost predicate SortedByDistance(space: Space, g: Graph, v: Vector, ids: seq<VectorId>) {
    forall i, j :: 0 <= i < j < |ids| ==> DistanceTo(space, g, v, ids[i]) <= DistanceTo(space, g, v, ids[j])
  }

  ghost predicate IsSorting(space: Space, g: Graph, v: Vector, ids: seq<VectorId>, sorted: seq<VectorId>) {
    multiset(ids) == multiset(sorted) && SortedByDistance(space, g, v, sorted)
  }

  /** `out` is `ids` when it fits into `cap` places, else the front of some sorting of it:
      ties may fall either way. */
  ghost predicate CutToNearest(space: Space, g: Graph, v: Vector, ids: seq<VectorId>, cap: nat, out: seq<VectorId>) {
    if |ids| <= cap then out == ids
    else exists sorted :: IsSorting(space, g, v, ids, sorted) && |sorted| == |ids| && out == sorted[..cap]
  }

  /** A cut list is a duplicate-free selection, and nothing dropped is nearer than anything kept. */
  lemma CutFacts(space: Space, g: Graph, v: Vector, ids: seq<VectorId>, cap: nat, out: seq<VectorId>)
    requires CutToNearest(space, g, v, ids, cap, out)
    requires NoDup(ids)
    ensures NoDup(out) && |out| == Min(|ids|, cap)
    ensures forall x :: x in out ==> x in ids
    ensures forall x, y :: x in out && y in ids && y !in out ==>
                             DistanceTo(space, g, v, x) <= DistanceTo(space, g, v, y)
  {
    if |ids| > cap {
      var sorted :| IsSorting(space, g, v, ids, sorted) && |sorted| == |ids| && out == sorted[..cap];
      PermutationMembers(ids, sorted);
      PermutationNoDup(ids, sorted);
      forall x, y | x in out && y in ids && y !in out
        ensures DistanceTo(space, g, v, x) <= DistanceTo(space, g, v, y)
      {
        var i :| 0 <= i < |out| && out[i] == x;
        assert sorted == out + sorted[cap..];
        assert y in sorted && y in sorted[cap..];
      }
    }
  }

  /** Inserting an id between those no farther and those no nearer keeps a list sorted. */
  lemma InsertionSorted(space: Space, g: Graph, v: Vector, sorted: seq<VectorId>, j: nat, id: VectorId,
                        out: seq<VectorId>)
    requires j <= |sorted| && out == sorted[..j] + [id] + sorted[j..]
    requires SortedByDistance(space, g, v, sorted)
    requires forall k :: 0 <= k < j ==> DistanceTo(space, g, v, sorted[k]) <= DistanceTo(space, g, v, id)
    requires forall k :: j <= k < |sorted| ==> DistanceTo(space, g, v, id) <= DistanceTo(space, g, v, sorted[k])
    ensures IsSorting(space, g, v, sorted + [id], out)
  {
    assert sorted == sorted[..j] + sorted[j..];
    forall a, b | 0 <= a < b < |out|
      ensures DistanceTo(space, g, v, out[a]) <= DistanceTo(space, g, v, out[b])
    {
      var a' := if a < j then a else a - 1;
      var b' := if b < j then b else b - 1;
      assert a != j ==> out[a] == sorted[a'];
      assert b != j ==> out[b] == sorted[b'];
    }
  }

  lemma CutTransfers(space: Space, g: Graph, h: Graph, v: Vector, ids: seq<VectorId>, cap: nat, out: seq<VectorId>)
    requires forall x :: x in ids ==> DistanceTo(space, g, v, x) == DistanceTo(space, h, v, x)
    requires CutToNearest(space, g, v, ids, cap, out)
    ensures CutToNearest(space, h, v, ids, cap, out)
  {
    if |ids| > cap {
      var sorted :| IsSorting(space, g, v, ids, sorted) && |sorted| == |ids| && out == sorted[..cap];
      PermutationMembers(ids, sorted);
      forall i, j | 0 <= i < j < |sorted|
        ensures DistanceTo(space, h, v, sorted[i]) <= DistanceTo(space, h, v, sorted[j])
      {
        assert sorted[i] in ids && sorted[j] in ids;
        assert DistanceTo(space, g, v, sorted[i]) <= DistanceTo(space, g, v, sorted[j]);
      }
      assert IsSorting(space, h, v, ids, sorted);
    }
  }
}
