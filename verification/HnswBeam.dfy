/**
 What one greedy best-first search of a layer guarantees, and the bookkeeping of its two
 priority queues. A queue is kept as its pop order: strictly ascending by distance, then id.
 */
module HnswBeam {
  import opened Sequences
  import opened Ranking
  import opened HnswGraph
  import opened Vectors

  datatype Entry = Entry(dist: real, id: VectorId)

  predicate Before(a: Entry, b: Entry) {
    a.dist < b.dist || (a.dist == b.dist && a.id < b.id)
  }

  ghost predicate Queue(q: seq<Entry>) {
    forall i, j :: 0 <= i < j < |q| ==> Before(q[i], q[j])
  }

  function Push(q: seq<Entry>, e: Entry): (r: seq<Entry>)
    ensures |r| == |q| + 1
    ensures forall x :: x in r <==> x == e || x in q
    ensures Queue(q) && e !in q ==> Queue(r)
  {
    if q == [] then [e]
    else if Before(e, q[0]) then
      assert Queue(q) ==> forall i :: 0 <= i < |q| ==> Before(e, q[i]);
      [e] + q
    else
      var tail := Push(q[1..], e);
      assert forall x :: x in q <==> x == q[0] || x in q[1..];
      assert Queue(q) && e !in q ==> forall x :: x in tail ==> Before(q[0], x);
      [q[0]] + tail
  }

  function Last(q: seq<Entry>): Entry
    requires q != []
  {
    q[|q|-1]
  }

  function EntryOf(space: Space, g: Graph, query: Vector, id: VectorId): Entry {
    Entry(DistanceTo(space, g, query, id), id)
  }

  /** A request for zero results still keeps one. */
  function Width(ef: nat): nat {
    if ef == 0 then 1 else ef
  }

  // ------------------------------------------------------------------ the contract

  /** The result of searching `layer` from a live entry, with the set of nodes evaluated on the
      way: the ids are distinct, ordered by (distance, id), at most `width` many; an evaluated
      node is left out only by a full result that is at least as near; and everything adjacent
      to a returned node was evaluated, so the result is a local optimum. */
  ghost predicate Beam(space: Space, g: Graph, query: Vector, entry: VectorId, layer: nat, width: nat,
                       ids: seq<VectorId>, evaluated: set<VectorId>)
  {
    && entry in evaluated
    && (forall x :: x in evaluated ==> Live(g, x) && Reachable(g, layer, entry, x))
    && 1 <= |ids| <= width
    && (forall x :: x in ids ==> x in evaluated)
    && (forall i, j :: 0 <= i < j < |ids| ==>
                         Before(EntryOf(space, g, query, ids[i]), EntryOf(space, g, query, ids[j])))
    && (forall x :: x in evaluated && x !in ids ==>
                      |ids| == width && DistanceTo(space, g, query, x) >= DistanceTo(space, g, query, ids[|ids|-1]))
    && (forall x, y :: x in ids && Adjacent(g, layer, x, y) ==> y in evaluated)
  }

  ghost predicate BeamResult(space: Space, g: Graph, query: Vector, entry: VectorId, layer: nat, width: nat,
                             ids: seq<VectorId>)
  {
    exists evaluated :: Beam(space, g, query, entry, layer, width, ids, evaluated)
  }

  lemma BeamNoDup(space: Space, g: Graph, query: Vector, entry: VectorId, layer: nat, width: nat, ids: seq<VectorId>)
    requires BeamResult(space, g, query, entry, layer, width, ids)
    ensures NoDup(ids)
  {
    forall i, j | 0 <= i < j < |ids|
      ensures ids[i] != ids[j]
    {
      assert Before(EntryOf(space, g, query, ids[i]), EntryOf(space, g, query, ids[j]));
    }
  }

  /** If fewer than `width` ids come back, they are exactly the live nodes reachable from the entry. */
  lemma ShortBeamIsReachableSet(space: Space, g: Graph, query: Vector, entry: VectorId, layer: nat, width: nat,
                                ids: seq<VectorId>)
    requires BeamResult(space, g, query, entry, layer, width, ids)
    requires |ids| < width
    ensures forall x :: x in ids <==> Reachable(g, layer, entry, x)
  {
    var evaluated :| Beam(space, g, query, entry, layer, width, ids, evaluated);
    forall x | Reachable(g, layer, entry, x)
      ensures x in ids
    {
      ClosedHoldsReachable(g, layer, entry, x, SetOf(ids));
    }
  }

  /** When everything live is reachable and the beam is wide enough, the result is all live nodes
      sorted by distance. */
  lemma WideBeamIsComplete(space: Space, g: Graph, query: Vector, entry: VectorId, layer: nat, width: nat,
                           ids: seq<VectorId>)
    requires IndexOk(g)
    requires BeamResult(space, g, query, entry, layer, width, ids)
    requires width >= |g.index|
    requires forall x :: x in g.index ==> Reachable(g, layer, entry, x)
    ensures forall x :: x in ids <==> x in g.index
    ensures NoDup(ids) && Ascending(Distances(space, g, query), ids)
  {
    BeamNoDup(space, g, query, entry, layer, width, ids);
    if |ids| < width {
      ShortBeamIsReachableSet(space, g, query, entry, layer, width, ids);
    } else {
      NoDupLength(ids);
      var rest := g.index.Keys - SetOf(ids);
      assert SetOf(ids) <= g.index.Keys;
      assert |rest| == |g.index.Keys| - |ids|;
      assert rest == {};
    }
    var table := Distances(space, g, query);
    forall i, j | 0 <= i < j < |ids|
      ensures table[ids[i]] <= table[ids[j]]
    {
      assert Before(EntryOf(space, g, query, ids[i]), EntryOf(space, g, query, ids[j]));
    }
  }

  /** The first returned id is no farther than the entry: a greedy step never moves away. */
  lemma BeamHeadNotFarther(space: Space, g: Graph, query: Vector, entry: VectorId, layer: nat, width: nat,
                           ids: seq<VectorId>)
    requires BeamResult(space, g, query, entry, layer, width, ids)
    ensures Live(g, ids[0])
    ensures DistanceTo(space, g, query, ids[0]) <= DistanceTo(space, g, query, entry)
  {
    var evaluated :| Beam(space, g, query, entry, layer, width, ids, evaluated);
    var last := |ids| - 1;
    if last > 0 {
      assert Before(EntryOf(space, g, query, ids[0]), EntryOf(space, g, query, ids[last]));
    }
    if entry in ids {
      var i :| 0 <= i < |ids| && ids[i] == entry;
      if i > 0 {
        assert Before(EntryOf(space, g, query, ids[0]), EntryOf(space, g, query, ids[i]));
      }
    }
  }

  // ------------------------------------------------------------------- the descent

  /** One greedy step on a layer: to the nearest node that a beam of width one finds, or nowhere when
      the search finds nothing because its start is gone. */
  ghost predicate DescentStep(space: Space, g: Graph, query: Vector, from: VectorId, layer: nat, to: VectorId) {
    if Live(g, from)
    then exists found :: BeamResult(space, g, query, from, layer, Width(1), found) && found != [] && to == found[0]
    else to == from
  }

  /** The greedy descent from layer `high` to the one above `low`, one step per layer. */
  ghost predicate Descends(space: Space, g: Graph, query: Vector, from: VectorId, high: nat, low: nat, to: VectorId)
    decreases high - low
  {
    if high <= low then to == from
    else
      var layer := low + 1;
      exists mid :: Descends(space, g, query, from, high, layer, mid) && DescentStep(space, g, query, mid, layer, to)
  }

  /** Walking live edges of one layer from one node to another that is no farther from the query and has
      no nearer live neighbour on that layer. */
  ghost predicate GreedyMove(space: Space, g: Graph, query: Vector, layer: nat, from: VectorId, to: VectorId) {
    && Reachable(g, layer, from, to)
    && DistanceTo(space, g, query, to) <= DistanceTo(space, g, query, from)
    && forall y :: Adjacent(g, layer, to, y) ==> DistanceTo(space, g, query, to) <= DistanceTo(space, g, query, y)
  }

  /** One greedy move on each of the layers `high`, `high` - 1, ..., `low` + 1, in this order. */
  ghost predicate GreedyPath(space: Space, g: Graph, query: Vector, high: nat, low: nat, path: seq<VectorId>) {
    && |path| == (if high > low then high - low else 0) + 1
    && forall i :: 0 <= i < |path| - 1 ==> GreedyMove(space, g, query, high - i, path[i], path[i+1])
  }

  /** What a beam puts first is a greedy move away from where it started. */
  lemma BeamHeadIsGreedy(space: Space, g: Graph, query: Vector, entry: VectorId, layer: nat, width: nat,
                         ids: seq<VectorId>)
    requires BeamResult(space, g, query, entry, layer, width, ids)
    ensures Live(g, ids[0]) && GreedyMove(space, g, query, layer, entry, ids[0])
  {
    BeamHeadNotFarther(space, g, query, entry, layer, width, ids);
    var evaluated :| Beam(space, g, query, entry, layer, width, ids, evaluated);
    forall y | Adjacent(g, layer, ids[0], y)
      ensures DistanceTo(space, g, query, ids[0]) <= DistanceTo(space, g, query, y)
    {
      var last := |ids| - 1;
      if last > 0 {
        assert Before(EntryOf(space, g, query, ids[0]), EntryOf(space, g, query, ids[last]));
      }
      if y in ids {
        var i :| 0 <= i < |ids| && ids[i] == y;
        if i > 0 {
          assert Before(EntryOf(space, g, query, ids[0]), EntryOf(space, g, query, ids[i]));
        }
      }
    }
  }

  /** A descent from a live node is a path of greedy moves, one per layer. */
  lemma {:induction false} DescentIsGreedyPath(space: Space, g: Graph, query: Vector, from: VectorId, high: nat,
                                               low: nat, to: VectorId)
    returns (path: seq<VectorId>)
    requires Live(g, from) && Descends(space, g, query, from, high, low, to)
    ensures GreedyPath(space, g, query, high, low, path)
    ensures path[0] == from && path[|path|-1] == to && Live(g, to)
    decreases high - low
  {
    hide GreedyMove, DescentStep;
    path := [from];
    if high > low {
      var layer := low + 1;
      var mid :| Descends(space, g, query, from, high, layer, mid) && DescentStep(space, g, query, mid, layer, to);
      var upper := DescentIsGreedyPath(space, g, query, from, high, layer, mid);
      StepIsGreedyMove(space, g, query, mid, layer, to);
      path := upper + [to];
      GreedyPathExtends(space, g, query, high, layer, upper, to);
    }
  }

  lemma StepIsGreedyMove(space: Space, g: Graph, query: Vector, from: VectorId, layer: nat, to: VectorId)
    requires Live(g, from) && DescentStep(space, g, query, from, layer, to)
    ensures Live(g, to) && GreedyMove(space, g, query, layer, from, to)
  {
    var found :| BeamResult(space, g, query, from, layer, Width(1), found) && found != [] && to == found[0];
    BeamHeadIsGreedy(space, g, query, from, layer, Width(1), found);
  }

  lemma GreedyPathExtends(space: Space, g: Graph, query: Vector, high: nat, layer: nat, path: seq<VectorId>,
                          to: VectorId)
    requires 1 <= layer <= high && GreedyPath(space, g, query, high, layer, path)
    requires GreedyMove(space, g, query, layer, path[|path|-1], to)
    ensures GreedyPath(space, g, query, high, layer - 1, path + [to])
  {
    hide GreedyMove;
    var longer := path + [to];
    forall i | 0 <= i < |longer| - 1
      ensures GreedyMove(space, g, query, high - i, longer[i], longer[i+1])
    {
      if i < |path| - 1 {
        assert GreedyMove(space, g, query, high - i, path[i], path[i+1]);
      }
    }
  }

  // -------------------------------------------------------------- the search state

  /** Everything adjacent to x has been evaluated. */
  ghost predicate Expanded(g: Graph, layer: nat, x: VectorId, evaluated: set<VectorId>) {
    forall y :: Adjacent(g, layer, x, y) ==> y in evaluated
  }

  ghost predicate Entries(space: Space, g: Graph, query: Vector, q: seq<Entry>, evaluated: set<VectorId>) {
    Queue(q) && forall e :: e in q ==> e == EntryOf(space, g, query, e.id) && e.id in evaluated
  }

  /** Loop invariant of the search; `open` holds the node whose neighbours are being visited. */
  ghost predicate BeamState(space: Space, g: Graph, query: Vector, entry: VectorId, layer: nat, width: nat,
                            candidates: seq<Entry>, results: seq<Entry>, evaluated: set<VectorId>, open: set<VectorId>)
  {
    && entry in evaluated
    && (forall x :: x in evaluated ==> Live(g, x) && Reachable(g, layer, entry, x))
    && Entries(space, g, query, candidates, evaluated)
    && Entries(space, g, query, results, evaluated)
    && 1 <= |results| <= width
    && (forall x :: x in evaluated ==>
                      || EntryOf(space, g, query, x) in results
                      || (|results| == width && DistanceTo(space, g, query, x) >= Last(results).dist))
    && (forall e :: e in results ==> e in candidates || e.id in open || Expanded(g, layer, e.id, evaluated))
  }

  lemma BeamInit(space: Space, g: Graph, query: Vector, entry: VectorId, layer: nat, width: nat)
    requires Live(g, entry) && width >= 1
    ensures var e := EntryOf(space, g, query, entry);
            BeamState(space, g, query, entry, layer, width, [e], [e], {entry}, {})
  {
    ReachSelf(g, layer, entry);
  }

  lemma HeadIsLeast(q: seq<Entry>, e: Entry)
    requires Queue(q) && e in q
    ensures q[0].dist <= e.dist
  {
    var j :| 0 <= j < |q| && q[j] == e;
    if j > 0 {
      assert Before(q[0], q[j]);
    }
  }

  lemma LastIsGreatest(q: seq<Entry>, e: Entry)
    requires Queue(q) && e in q
    ensures e.dist <= Last(q).dist
  {
    var j :| 0 <= j < |q| && q[j] == e;
    if j < |q| - 1 {
      assert Before(q[j], Last(q));
    }
  }

  /** Pushing onto a bounded queue and dropping the worst when it overflows. */
  function Kept(results: seq<Entry>, e: Entry, width: nat): seq<Entry> {
    var pushed := Push(results, e);
    if |pushed| > width then pushed[..|pushed|-1] else pushed
  }

  /** An accepted entry stays, and only the previous worst can fall off the end. */
  lemma KeptFacts(results: seq<Entry>, e: Entry, width: nat)
    requires Queue(results) && e !in results
    requires 1 <= |results| <= width
    requires |results| < width || e.dist < Last(results).dist
    ensures var kept := Kept(results, e, width);
            && Queue(kept) && 1 <= |kept| <= width
            && e in kept
            && (forall r :: r in kept ==> r == e || r in results)
            && (|results| == width ==> |kept| == width && Last(kept).dist <= Last(results).dist)
            && (forall r :: r in results && r !in kept ==> |kept| == width && r.dist >= Last(kept).dist)
  {
    var pushed := Push(results, e);
    var kept := Kept(results, e, width);
    if |pushed| > width {
      var worst := Last(pushed);
      assert pushed == kept + [worst];
      if worst == e {
        LastIsGreatest(pushed, Last(results));
        assert false;
      }
      LastIsGreatest(results, worst);
      assert Before(Last(kept), worst);
    }
  }

  /** A newly evaluated neighbour that the result still has room for, or that beats its worst. */
  lemma BeamAccept(space: Space, g: Graph, query: Vector, entry: VectorId, layer: nat, width: nat,
                   candidates: seq<Entry>, results: seq<Entry>, evaluated: set<VectorId>, open: set<VectorId>,
                   x: VectorId)
    requires BeamState(space, g, query, entry, layer, width, candidates, results, evaluated, open)
    requires x !in evaluated && Live(g, x) && Reachable(g, layer, entry, x)
    requires |results| < width || DistanceTo(space, g, query, x) < Last(results).dist
    ensures var e := EntryOf(space, g, query, x);
            BeamState(space, g, query, entry, layer, width, Push(candidates, e), Kept(results, e, width),
                evaluated + {x}, open)
  {
    var e := EntryOf(space, g, query, x);
    var evaluated' := evaluated + {x};
    var candidates' := Push(candidates, e);
    assert e !in candidates && e !in results;
    KeptFacts(results, e, width);
    var kept := Kept(results, e, width);
    forall y | y in evaluated'
      ensures || EntryOf(space, g, query, y) in kept
              || (|kept| == width && DistanceTo(space, g, query, y) >= Last(kept).dist)
    {
      if y != x && EntryOf(space, g, query, y) !in results {
        assert |results| == width;
      }
    }
    forall r | r in kept
      ensures r in candidates' || r.id in open || Expanded(g, layer, r.id, evaluated')
    {
      if r != e && r !in candidates && r.id !in open {
        assert Expanded(g, layer, r.id, evaluated);
      }
    }
  }

  /** A newly evaluated neighbour that a full result has no use for. */
  lemma BeamReject(space: Space, g: Graph, query: Vector, entry: VectorId, layer: nat, width: nat,
                   candidates: seq<Entry>, results: seq<Entry>, evaluated: set<VectorId>, open: set<VectorId>,
                   x: VectorId)
    requires BeamState(space, g, query, entry, layer, width, candidates, results, evaluated, open)
    requires Live(g, x) && Reachable(g, layer, entry, x)
    requires |results| == width && DistanceTo(space, g, query, x) >= Last(results).dist
    ensures BeamState(space, g, query, entry, layer, width, candidates, results, evaluated + {x}, open)
  {
    forall r | r in results
      ensures r in candidates || r.id in open || Expanded(g, layer, r.id, evaluated + {x})
    {
      if r !in candidates && r.id !in open {
        assert Expanded(g, layer, r.id, evaluated);
      }
    }
  }

  /** Taking the nearest candidate out of its queue opens it for expansion. */
  lemma BeamPop(space: Space, g: Graph, query: Vector, entry: VectorId, layer: nat, width: nat,
                candidates: seq<Entry>, results: seq<Entry>, evaluated: set<VectorId>)
    requires BeamState(space, g, query, entry, layer, width, candidates, results, evaluated, {})
    requires candidates != []
    ensures BeamState(space, g, query, entry, layer, width, candidates[1..], results, evaluated, {candidates[0].id})
    ensures Live(g, candidates[0].id) && Reachable(g, layer, entry, candidates[0].id)
  {
    assert candidates[0] in candidates;
    assert forall e :: e in candidates <==> e == candidates[0] || e in candidates[1..];
  }

  /** Once all its neighbours were evaluated, the opened node counts as expanded. */
  lemma BeamClose(space: Space, g: Graph, query: Vector, entry: VectorId, layer: nat, width: nat,
                  candidates: seq<Entry>, results: seq<Entry>, evaluated: set<VectorId>, current: VectorId)
    requires BeamState(space, g, query, entry, layer, width, candidates, results, evaluated, {current})
    requires forall y :: y in Neighbors(g, layer, current) && Live(g, y) ==> y in evaluated
    ensures BeamState(space, g, query, entry, layer, width, candidates, results, evaluated, {})
  {
    assert Expanded(g, layer, current, evaluated);
  }

  /** Leaving the loop: no result entry is still waiting among the candidates. */
  lemma BeamDone(space: Space, g: Graph, query: Vector, entry: VectorId, layer: nat, width: nat,
                 candidates: seq<Entry>, results: seq<Entry>, evaluated: set<VectorId>, ids: seq<VectorId>)
    requires BeamState(space, g, query, entry, layer, width, candidates, results, evaluated, {})
    requires candidates == [] || candidates[0].dist > Last(results).dist
    requires |ids| == |results| && forall i :: 0 <= i < |ids| ==> ids[i] == results[i].id
    ensures Beam(space, g, query, entry, layer, width, ids, evaluated)
  {
    forall i | 0 <= i < |results|
      ensures results[i] !in candidates
    {
      LastIsGreatest(results, results[i]);
      if results[i] in candidates {
        HeadIsLeast(candidates, results[i]);
      }
    }
    forall i | 0 <= i < |ids|
      ensures results[i] == EntryOf(space, g, query, ids[i]) && Expanded(g, layer, ids[i], evaluated)
    {
      assert results[i] in results;
    }
    forall x | x in evaluated && EntryOf(space, g, query, x) in results
      ensures x in ids
    {
      var i :| 0 <= i < |results| && results[i] == EntryOf(space, g, query, x);
      assert ids[i] == x;
    }
  }
}
