/**
 The HNSW index object: fields updated in place by insertion and removal, and the layered search.
 Each method's contract is the transition or search relation of `HnswState` and `HnswBeam`.
 */
module HnswIndexes {
  import opened Sequences
  import opened Ranking
  import opened HnswGraph
  import opened HnswBeam
  import opened HnswState
  import opened HnswRuns
  import opened HnswSearch
  import opened Results
  import opened Vectors

  function Reverse<T>(s: seq<T>): (r: seq<T>)
    ensures |r| == |s| && forall i :: 0 <= i < |s| ==> r[i] == s[|s|-1-i]
  {
    seq(|s|, i requires 0 <= i < |s| => s[|s|-1-i])
  }

  /** How an insertion ends: the checks come in this order. */
  function AddOutcome(cfg: Config, s: State, id: VectorId, vector: Vector): Status {
    if |vector| != cfg.dimension then Err(InvalidDimension)
    else if s.elementCount >= cfg.maxElements then Err(IndexFull)
    else if id in s.graph.index then Err(InvalidVectorId)
    else Ok(())
  }

  /** How a batch ends: `states` are those between its insertions, and the first element that cannot go in
      says what went wrong. */
  ghost predicate BatchEnds(space: Space, cfg: Config, ids: seq<VectorId>, vectors: seq<Vector>, states: seq<State>,
                            r: Status)
  {
    && InTurn(space, cfg, ids, vectors, states)
    && var n := |states| - 1;
    && if n == |ids| then r == Ok(()) else r.Err? && r == AddOutcome(cfg, states[n], ids[n], vectors[n])
  }

  /** The new node is linked on the layers above `layer`, where the next search starts at `start`. */
  ghost predicate Linking(space: Space, cfg: Config, s: State, id: VectorId, vector: Vector, level: nat, h: Graph,
                          layer: int, origin: VectorId, start: VectorId)
  {
    && |h.nodes| == |s.graph.nodes| + 1
    && Inserting(space, cfg, s, id, vector, level, h, h.nodes[|s.graph.nodes|].connections, layer, origin)
    && (layer >= 0 ==> StartsAt(s, h.nodes[|s.graph.nodes|].connections, level, layer, origin, start))
  }

  /** The new node is linked on all its layers, from where the descent led. */
  ghost predicate Placed(space: Space, cfg: Config, s: State, id: VectorId, vector: Vector, level: nat, h: Graph) {
    exists origin, last :: Origin(space, s, id, vector, level, origin)
                           && Linking(space, cfg, s, id, vector, level, h, -1, origin, last)
  }

  /** The first element only becomes the entry point. */
  lemma FirstAdded(space: Space, cfg: Config, s: State, id: VectorId, vector: Vector, level: nat, t: State)
    requires s.elementCount == 0 && level <= s.maxLevel + 1 && |vector| == cfg.dimension
    requires t == State(Pushed(s.graph, id, vector, level), id, level, 1)
    ensures Added(space, cfg, s, id, vector, level, t)
  {
    InsertingStarts(space, cfg, s, id, vector, level, -1, id);
    assert Origin(space, s, id, vector, level, id);
  }

  lemma PlacedAdds(space: Space, cfg: Config, s: State, id: VectorId, vector: Vector, level: nat, t: State)
    requires s.elementCount > 0 && level <= s.maxLevel + 1 && |vector| == cfg.dimension
    requires Placed(space, cfg, s, id, vector, level, t.graph)
    requires t == State(t.graph, if level > s.maxLevel then id else s.entryPoint,
                        if level > s.maxLevel then level else s.maxLevel, s.elementCount + 1)
    ensures Added(space, cfg, s, id, vector, level, t)
  {
    var origin, last :| Origin(space, s, id, vector, level, origin)
                        && Linking(space, cfg, s, id, vector, level, t.graph, -1, origin, last);
    assert NewLists(space, cfg, s, vector, t.graph.nodes[|s.graph.nodes|], -1, origin);
  }

  ghost predicate StartsAt(s: State, lists: seq<seq<VectorId>>, level: nat, layer: nat, origin: VectorId,
                           start: VectorId)
  {
    && start == LayerStart(lists, Min(level, s.maxLevel), origin, layer)
    && start in AtLevel(s.graph.nodes, layer)
    && (Live(s.graph, start) <==> Live(s.graph, s.entryPoint))
  }

  /** The search of the layer below starts at the first chosen neighbour, or where this one did. */
  lemma NextStart(s: State, level: nat, layer: nat, origin: VectorId, start: VectorId, lists: seq<seq<VectorId>>,
                  chosen: seq<VectorId>)
    requires layer < |lists| && layer <= Min(level, s.maxLevel)
    requires StartsAt(s, lists, level, layer, origin, start)
    requires chosen != [] ==>
               Live(s.graph, chosen[0]) && chosen[0] in AtLevel(s.graph.nodes, layer) && Live(s.graph, s.entryPoint)
    ensures layer > 0 ==> StartsAt(s, lists[layer := chosen], level, layer - 1, origin,
                                   if chosen != [] then chosen[0] else start)
  {
    LayerStartKept(lists, layer, chosen, Min(level, s.maxLevel), origin, layer);
    if layer > 0 {
      AtLevelDown(s.graph.nodes, layer, layer - 1);
    }
  }

  /** Visiting one more id leaves fewer known ids unseen, unless the id was not known. */
  lemma FewerUnseen(known: set<VectorId>, before: set<VectorId>, start: set<VectorId>, id: VectorId)
    requires start <= before && id !in before
    ensures id in known ==> known - (before + {id}) < known - start
    ensures id !in known ==> known - (before + {id}) == known - before
  {
    assert id in known ==> id in known - start;
  }

  class HnswIndex {
    var cfg: Config
    const space: Space
    var nodes: seq<Node>
    var idToIndex: map<VectorId, nat>
    var entryPoint: VectorId
    var maxLevel: nat
    var elementCount: nat

    ghost function G(): Graph
      reads this
    {
      Graph(nodes, idToIndex)
    }

    ghost function S(): State
      reads this
    {
      State(Graph(nodes, idToIndex), entryPoint, maxLevel, elementCount)
    }

    ghost predicate Valid()
      reads this
    {
      Consistent(cfg, S())
    }

    constructor (cfg: Config, space: Space)
      ensures this.cfg == cfg && this.space == space
      ensures S() == EMPTY && Valid() && Unpruned(cfg, S())
    {
      this.cfg := cfg;
      this.space := space;
      nodes := [];
      idToIndex := map[];
      entryPoint := 0;
      maxLevel := 0;
      elementCount := 0;
    }

    // ------------------------------------------------------------------- distances

    method DistanceToNode(query: Vector, id: VectorId) returns (d: real)
      ensures d == DistanceTo(space, G(), query, id)
    {
      if id !in idToIndex {
        return space.farthest;
      }
      var idx := idToIndex[id];
      if idx >= |nodes| {
        return space.farthest;
      }
      d := space.distance(query, nodes[idx].vector);
    }

    /** Any sorting by distance: equal distances may end up in any order. */
    method SortByDistance(v: Vector, ids: seq<VectorId>) returns (sorted: seq<VectorId>)
      ensures IsSorting(space, G(), v, ids, sorted) && |sorted| == |ids|
    {
      sorted := [];
      for i := 0 to |ids|
        invariant |sorted| == i
        invariant IsSorting(space, G(), v, ids[..i], sorted)
      {
        assert ids[..i+1] == ids[..i] + [ids[i]];
        sorted := InsertByDistance(v, sorted, ids[i]);
      }
      assert ids[..|ids|] == ids;
    }

    method InsertByDistance(v: Vector, sorted: seq<VectorId>, id: VectorId) returns (out: seq<VectorId>)
      requires SortedByDistance(space, G(), v, sorted)
      ensures IsSorting(space, G(), v, sorted + [id], out) && |out| == |sorted| + 1
    {
      var d := DistanceToNode(v, id);
      var j := |sorted|;
      while j > 0
        invariant 0 <= j <= |sorted|
        invariant forall k :: j <= k < |sorted| ==> d <= DistanceTo(space, G(), v, sorted[k])
      {
        var e := DistanceToNode(v, sorted[j-1]);
        if e <= d {
          break;
        }
        j := j - 1;
      }
      out := sorted[..j] + [id] + sorted[j..];
      assert sorted == sorted[..j] + sorted[j..];
      if j > 0 {
        forall k | 0 <= k < j
          ensures DistanceTo(space, G(), v, sorted[k]) <= d
        {
          assert DistanceTo(space, G(), v, sorted[k]) <= DistanceTo(space, G(), v, sorted[j-1]);
        }
      }
      InsertionSorted(space, G(), v, sorted, j, id, out);
    }

    // ---------------------------------------------------------------- layer search

    /** Beam search of one layer; a dead entry yields nothing. */
    method SearchLayer(query: Vector, entry: VectorId, ef: nat, layer: nat) returns (resultIds: seq<VectorId>)
      requires IndexOk(G())
      ensures !Live(G(), entry) ==> resultIds == []
      ensures Live(G(), entry) ==> BeamResult(space, G(), query, entry, layer, Width(ef), resultIds)
    {
      ghost var g := G();
      ghost var width := Width(ef);
      ghost var live := Live(g, entry);
      var visited: set<VectorId> := {entry};
      ghost var evaluated := {entry};
      var entryDist := DistanceToNode(query, entry);
      var candidates := [Entry(entryDist, entry)];
      var results := [Entry(entryDist, entry)];
      if live {
        BeamInit(space, g, query, entry, layer, width);
      }

      while candidates != []
        invariant evaluated <= visited
        invariant forall x :: x in visited && Live(g, x) ==> x in evaluated
        invariant !live ==> results == [Entry(entryDist, entry)]
                            && (candidates == [] || candidates == [Entry(entryDist, entry)])
        invariant live ==> BeamState(space, g, query, entry, layer, width, candidates, results, evaluated, {})
        invariant results != []
        decreases g.index.Keys - visited, |candidates|
      {
        var top := candidates[0];
        if |results| >= ef && top.dist > Last(results).dist {
          break;
        }
        if live {
          BeamPop(space, g, query, entry, layer, width, candidates, results, evaluated);
        }
        candidates := candidates[1..];
        var current := top.id;
        if current !in idToIndex {
          assert !live;
          continue;
        }
        assert live;
        var node := nodes[idToIndex[current]];
        if layer >= |node.connections| {
          BeamClose(space, g, query, entry, layer, width, candidates, results, evaluated, current);
          continue;
        }
        visited, candidates, results, evaluated :=
          VisitNeighbors(query, ef, layer, node.connections[layer], visited, candidates, results, entry, evaluated,
              current);
        BeamClose(space, g, query, entry, layer, width, candidates, results, evaluated, current);
      }

      resultIds := ExtractLive(results);
      if live {
        forall e | e in results
          ensures Live(g, e.id)
        {
          assert e.id in evaluated;
        }
        BeamDone(space, g, query, entry, layer, width, candidates, results, evaluated, resultIds);
        assert Beam(space, g, query, entry, layer, width, resultIds, evaluated);
      }
    }

    /** The neighbour loop of the layer search: evaluates every live neighbour not seen before. */
    method VisitNeighbors(query: Vector, ef: nat, layer: nat, list: seq<VectorId>,
                          visited0: set<VectorId>, candidates0: seq<Entry>, results0: seq<Entry>,
                          ghost entry: VectorId, ghost evaluated0: set<VectorId>, ghost current: VectorId)
      returns (visited: set<VectorId>, candidates: seq<Entry>, results: seq<Entry>, ghost evaluated: set<VectorId>)
      requires IndexOk(G())
      requires Live(G(), current) && Reachable(G(), layer, entry, current) && list == Neighbors(G(), layer, current)
      requires BeamState(space, G(), query, entry, layer, Width(ef), candidates0, results0, evaluated0, {current})
      requires evaluated0 <= visited0
      requires forall x :: x in visited0 && Live(G(), x) ==> x in evaluated0
      ensures BeamState(space, G(), query, entry, layer, Width(ef), candidates, results, evaluated, {current})
      ensures evaluated <= visited
      ensures forall x :: x in visited && Live(G(), x) ==> x in evaluated
      ensures forall y :: y in list && Live(G(), y) ==> y in evaluated
      ensures idToIndex.Keys - visited < idToIndex.Keys - visited0
              || (idToIndex.Keys - visited == idToIndex.Keys - visited0 && |candidates| == |candidates0|)
    {
      visited, candidates, results, evaluated := visited0, candidates0, results0, evaluated0;
      ghost var g, width := G(), Width(ef);
      for i := 0 to |list|
        invariant BeamState(space, g, query, entry, layer, width, candidates, results, evaluated, {current})
        invariant evaluated <= visited
        invariant forall x :: x in visited && Live(g, x) ==> x in evaluated
        invariant forall k :: 0 <= k < i ==> list[k] in visited
        invariant visited0 <= visited
        invariant idToIndex.Keys - visited < idToIndex.Keys - visited0
                  || (idToIndex.Keys - visited == idToIndex.Keys - visited0 && |candidates| == |candidates0|)
      {
        var neighbor := list[i];
        if neighbor in visited {
          continue;
        }
        ghost var before := visited;
        visited := visited + {neighbor};
        var seen := IsLive(neighbor);
        if seen {
          assert Adjacent(g, layer, current, neighbor);
          candidates, results := Offer(query, ef, layer, neighbor, candidates, results, entry, evaluated, current);
          evaluated := evaluated + {neighbor};
        }
        FewerUnseen(idToIndex.Keys, before, visited0, neighbor);
      }
    }

    /** Whether an id is looked up and its node is not deleted. */
    method IsLive(id: VectorId) returns (live: bool)
      requires IndexOk(G())
      ensures live <==> Live(G(), id)
      ensures live <==> id in idToIndex
    {
      if id !in idToIndex {
        return false;
      }
      var idx := idToIndex[id];
      return idx < |nodes| && !nodes[idx].deleted;
    }

    /** Evaluates one unseen live neighbour: queue it if the result has room or its worst is farther. */
    method Offer(query: Vector, ef: nat, layer: nat, neighbor: VectorId,
                 candidates0: seq<Entry>, results0: seq<Entry>,
                 ghost entry: VectorId, ghost evaluated: set<VectorId>, ghost current: VectorId)
      returns (candidates: seq<Entry>, results: seq<Entry>)
      requires Adjacent(G(), layer, current, neighbor) && Reachable(G(), layer, entry, current)
      requires neighbor !in evaluated
      requires BeamState(space, G(), query, entry, layer, Width(ef), candidates0, results0, evaluated, {current})
      ensures BeamState(space, G(), query, entry, layer, Width(ef), candidates, results, evaluated + {neighbor},
              {current})
    {
      candidates, results := candidates0, results0;
      ghost var g, width := G(), Width(ef);
      ReachStep(g, layer, entry, current, neighbor);
      var dist := DistanceToNode(query, neighbor);
      if |results| < ef || dist < Last(results).dist {
        BeamAccept(space, g, query, entry, layer, width, candidates, results, evaluated, {current}, neighbor);
        candidates := Push(candidates, Entry(dist, neighbor));
        results := Push(results, Entry(dist, neighbor));
        if |results| > ef {
          results := results[..|results|-1];
        }
      } else {
        BeamReject(space, g, query, entry, layer, width, candidates, results, evaluated, {current}, neighbor);
      }
    }

    /** Pops the result queue from the worst to the best, keeps the live ids, and reverses them. */
    method ExtractLive(queue: seq<Entry>) returns (ids: seq<VectorId>)
      requires IndexOk(G())
      ensures (forall e :: e in queue ==> Live(G(), e.id)) ==>
                |ids| == |queue| && forall i :: 0 <= i < |ids| ==> ids[i] == queue[i].id
      ensures (forall e :: e in queue ==> !Live(G(), e.id)) ==> ids == []
    {
      ids := [];
      var results := queue;
      while results != []
        invariant |results| <= |queue| && results == queue[..|results|]
        invariant (forall e :: e in queue ==> Live(G(), e.id)) ==>
                    |ids| == |queue| - |results| && forall k :: 0 <= k < |ids| ==> ids[k] == queue[|queue|-1-k].id
        invariant (forall e :: e in queue ==> !Live(G(), e.id)) ==> ids == []
        decreases |results|
      {
        var id := Last(results).id;
        assert Last(results) in queue;
        results := results[..|results|-1];
        if id in idToIndex {
          var idx := idToIndex[id];
          if idx < |nodes| && !nodes[idx].deleted {
            ids := ids + [id];
          }
        }
      }
      ids := Reverse(ids);
    }

    // ------------------------------------------------------------------- insertion

    /** Keeps the closest M; the candidate list itself is cut as well. */
    method SelectNeighbors(query: Vector, candidates: seq<VectorId>, M: nat) returns (cut: seq<VectorId>)
      ensures CutToNearest(space, G(), query, candidates, M, cut)
    {
      if |candidates| <= M {
        return candidates;
      }
      var sorted := SortByDistance(query, candidates);
      cut := sorted[..M];
    }

    /** Adds `to` to the layer list of `from`, pruning the list to its capacity. */
    method ConnectNodes(from: VectorId, to: VectorId, layer: nat)
      requires IndexOk(G())
      modifies this`nodes
      ensures var i := if from in idToIndex then idToIndex[from] else 0;
              if from in idToIndex && layer < |old(nodes)[i].connections| && to !in old(nodes)[i].connections[layer]
              then exists list ::
                && CutToNearest(space, old(G()), old(nodes)[i].vector, old(nodes)[i].connections[layer] + [to],
                                if layer == 0 then 2 * cfg.M else cfg.M, list)
                && nodes == Relinked(old(nodes), i, layer, list)
              else nodes == old(nodes)
    {
      if from !in idToIndex {
        return;
      }
      var idx := idToIndex[from];
      if idx >= |nodes| {
        return;
      }
      var node := nodes[idx];
      if layer >= |node.connections| {
        return;
      }
      var connections := node.connections[layer];
      if to in connections {
        return;
      }
      connections := connections + [to];
      ghost var extended := connections;
      var maxConnections := if layer == 0 then cfg.M * 2 else cfg.M;
      if |connections| > maxConnections {
        connections := SortByDistance(node.vector, connections);
        connections := connections[..maxConnections];
      }
      assert CutToNearest(space, G(), node.vector, extended, Capacity(cfg, layer), connections);
      nodes := nodes[idx := node.(connections := node.connections[layer := connections])];
      assert nodes == Relinked(old(nodes), idx, layer, connections);
    }

    /** The greedy descent from layer `high` to just above layer `low`, one step per layer. It stays among
        the nodes of each layer, is live exactly when it started live, and never moves away. */
    method Descend(query: Vector, start: VectorId, high: nat, low: nat, ghost base: seq<Node>)
      returns (current: VectorId)
      requires IndexOk(G()) && EdgesInto(G(), base)
      requires start in AtLevel(base, high)
      ensures Descends(space, G(), query, start, high, low, current)
      ensures current in AtLevel(base, Min(low, high))
      ensures Live(G(), current) <==> Live(G(), start)
      ensures Live(G(), start) ==> DistanceTo(space, G(), query, current) <= DistanceTo(space, G(), query, start)
    {
      current := start;
      var lv := high;
      while lv > low
        invariant lv <= high && (lv >= low || lv == high)
        invariant Descends(space, G(), query, start, high, lv, current)
        invariant current in AtLevel(base, lv)
        invariant Live(G(), current) <==> Live(G(), start)
        invariant Live(G(), start) ==> DistanceTo(space, G(), query, current) <= DistanceTo(space, G(), query, start)
      {
        ghost var before := current;
        var neighbors := SearchLayer(query, current, 1, lv);
        if neighbors != [] {
          var next := neighbors[0];
          BeamHeadNotFarther(space, G(), query, current, lv, Width(1), neighbors);
          ghost var evaluated :| Beam(space, G(), query, current, lv, Width(1), neighbors, evaluated);
          ReachedIsNamed(G(), lv, current, next);
          current := next;
        }
        assert DescentStep(space, G(), query, before, lv, current);
        AtLevelDown(base, lv, lv - 1);
        lv := lv - 1;
      }
    }

    /** Searches one layer for the new node and keeps the M nearest of what was found. */
    method ChooseNeighbors(id: VectorId, vector: Vector, start: VectorId, layer: nat, ghost s: State, ghost level: nat,
                           ghost origin: VectorId)
      returns (chosen: seq<VectorId>)
      requires Consistent(cfg, s) && Fresh(s, id)
      requires layer <= level
      requires |nodes| == |s.graph.nodes| + 1
      requires Inserting(space, cfg, s, id, vector, level, G(), nodes[|s.graph.nodes|].connections, layer, origin)
      requires StartsAt(s, nodes[|s.graph.nodes|].connections, level, layer, origin, start)
      ensures IndexOk(G())
      ensures Chosen(space, cfg, s, vector, layer, start, chosen)
      ensures NoDup(chosen) && forall x :: x in chosen ==> Live(s.graph, x) && x in AtLevel(s.graph.nodes, layer)
      ensures chosen != [] ==> Live(s.graph, s.entryPoint)
    {
      ghost var lists := nodes[|s.graph.nodes|].connections;
      InsertingLive(space, cfg, s, id, vector, level, G(), lists, layer, origin);
      assert start != id;
      var found := SearchLayer(vector, start, cfg.efConstruction, layer);
      if Live(s.graph, start) {
        UntouchedBeam(space, cfg, s, id, vector, level, G(), lists, layer, origin, layer, start,
                      Width(cfg.efConstruction), found);
      }
      chosen := SelectNeighbors(vector, found, cfg.M);
      CutTransfers(space, G(), s.graph, vector, found, cfg.M, chosen);
      assert ChosenFrom(space, cfg, s, vector, layer, start, found, chosen);
      ChosenFacts(space, cfg, s, vector, layer, start, chosen);
    }

    /** Adds the back link of one chosen neighbour. */
    method LinkBackOne(id: VectorId, chosen: seq<VectorId>, k: nat, layer: nat, ghost s: State, ghost vector: Vector,
                       ghost level: nat, ghost lists: seq<seq<VectorId>>, ghost origin: VectorId)
      requires Consistent(cfg, s) && Fresh(s, id)
      requires layer < |lists| && NoDup(chosen) && k < |chosen|
      requires Live(s.graph, chosen[k]) && chosen[k] in AtLevel(s.graph.nodes, layer)
      requires IndexOk(G())
      requires Inserting(space, cfg, s, id, vector, level, G(), lists[layer := chosen[..k]], layer - 1, origin)
      modifies this`nodes
      ensures IndexOk(G())
      ensures Inserting(space, cfg, s, id, vector, level, G(), lists[layer := chosen[..k+1]], layer - 1, origin)
      ensures |nodes| == |s.graph.nodes| + 1 && nodes[|s.graph.nodes|] == old(nodes)[|s.graph.nodes|]
    {
      ghost var h := G();
      BackLinkReady(space, cfg, s, id, vector, level, h, lists, layer, layer - 1, origin, chosen, k);
      ConnectNodes(chosen[k], id, layer);
      ghost var i := h.index[chosen[k]];
      ghost var list :| && CutToNearest(space, h, h.nodes[i].vector, h.nodes[i].connections[layer] + [id],
                                        Capacity(cfg, layer), list)
                        && nodes == Relinked(h.nodes, i, layer, list);
      BackLinkSet(space, cfg, s, id, vector, level, h, lists, layer, layer - 1, origin, chosen, k, i, list);
    }

    /** Adds the back links of all chosen neighbours at one layer. */
    method LinkBack(id: VectorId, chosen: seq<VectorId>, layer: nat,
                    ghost s: State, ghost vector: Vector, ghost level: nat, ghost lists: seq<seq<VectorId>>,
                    ghost origin: VectorId)
      requires Consistent(cfg, s) && Fresh(s, id)
      requires layer < |lists| && NoDup(chosen)
      requires forall x :: x in chosen ==> Live(s.graph, x) && x in AtLevel(s.graph.nodes, layer)
      requires IndexOk(G())
      requires Inserting(space, cfg, s, id, vector, level, G(), lists[layer := []], layer - 1, origin)
      modifies this`nodes
      ensures IndexOk(G())
      ensures Inserting(space, cfg, s, id, vector, level, G(), lists[layer := chosen], layer - 1, origin)
      ensures nodes[|s.graph.nodes|] == old(nodes)[|s.graph.nodes|]
    {
      ghost var n := |s.graph.nodes|;
      assert chosen[..0] == [];
      for k := 0 to |chosen|
        invariant IndexOk(G()) && n < |nodes| && nodes[n] == old(nodes)[n]
        invariant Inserting(space, cfg, s, id, vector, level, G(), lists[layer := chosen[..k]], layer - 1, origin)
      {
        LinkBackOne(id, chosen, k, layer, s, vector, level, lists, origin);
      }
      assert chosen[..|chosen|] == chosen;
    }

    /** Gives the new node its own list at one layer. */
    method LinkOwn(id: VectorId, vector: Vector, start: VectorId, layer: nat, ghost s: State, ghost level: nat,
                   ghost origin: VectorId, ghost lists: seq<seq<VectorId>>)
      returns (chosen: seq<VectorId>)
      requires Consistent(cfg, s) && Fresh(s, id) && s.elementCount > 0
      requires layer <= Min(level, s.maxLevel)
      requires Linking(space, cfg, s, id, vector, level, G(), layer, origin, start)
      requires lists == nodes[|s.graph.nodes|].connections
      modifies this`nodes
      ensures IndexOk(G()) && layer < |lists| && |nodes| == |s.graph.nodes| + 1
      ensures Inserting(space, cfg, s, id, vector, level, G(), lists[layer := []], layer - 1, origin)
      ensures nodes[|s.graph.nodes|].connections == lists[layer := chosen]
      ensures NoDup(chosen) && forall x :: x in chosen ==> Live(s.graph, x) && x in AtLevel(s.graph.nodes, layer)
      ensures chosen != [] ==> Live(s.graph, s.entryPoint)
    {
      chosen := ChooseNeighbors(id, vector, start, layer, s, level, origin);
      OwnListSet(space, cfg, s, id, vector, level, G(), lists, layer, origin, chosen);
      nodes := Relinked(nodes, idToIndex[id], layer, chosen);
    }

    /** Links the new node at one layer: its own list first, then the lists of the chosen neighbours. */
    method LinkLayer(id: VectorId, vector: Vector, start: VectorId, layer: nat, ghost s: State, ghost level: nat,
                     ghost origin: VectorId)
      returns (next: VectorId)
      requires Consistent(cfg, s) && Fresh(s, id) && s.elementCount > 0
      requires layer <= Min(level, s.maxLevel)
      requires Linking(space, cfg, s, id, vector, level, G(), layer, origin, start)
      modifies this`nodes
      ensures IndexOk(G()) && Linking(space, cfg, s, id, vector, level, G(), layer - 1, origin, next)
    {
      ghost var lists := nodes[|s.graph.nodes|].connections;
      var chosen := LinkOwn(id, vector, start, layer, s, level, origin, lists);
      LinkBack(id, chosen, layer, s, vector, level, lists, origin);
      next := if chosen != [] then chosen[0] else start;
      NextStart(s, level, layer, origin, start, lists, chosen);
    }

    /** From the top layer the new node shares with the index down to the bottom. */
    method LinkLayers(id: VectorId, vector: Vector, start: VectorId, top: nat, ghost s: State, ghost level: nat)
      requires Consistent(cfg, s) && Fresh(s, id) && s.elementCount > 0
      requires top == Min(level, s.maxLevel)
      requires Linking(space, cfg, s, id, vector, level, G(), top, start, start)
      modifies this`nodes
      ensures exists last :: Linking(space, cfg, s, id, vector, level, G(), -1, start, last)
    {
      hide *;
      var current := start;
      var lv: int := top;
      while lv >= 0
        invariant -1 <= lv <= top
        invariant Linking(space, cfg, s, id, vector, level, G(), lv, start, current)
      {
        current := LinkLayer(id, vector, current, lv, s, level, start);
        lv := lv - 1;
      }
    }

    /** random_level(): an exponentially distributed draw, here any level at all. */
    method RandomLevel() returns (level: nat)
    {
      level := *;
    }

    /** Insertion. An id may be present, which is an error, or new to an index in good order, but not one
        that was removed earlier. */
    method Add(id: VectorId, vector: Vector) returns (r: Status)
      requires id in idToIndex || (Valid() && Fresh(S(), id))
      modifies this
      ensures cfg == old(cfg)
      ensures r == (if |vector| != cfg.dimension then Err(InvalidDimension)
                    else if old(elementCount) >= cfg.maxElements then Err(IndexFull)
                    else if id in old(idToIndex) then Err(InvalidVectorId)
                    else Ok(()))
      ensures r.Err? ==> S() == old(S())
      ensures r.Ok? ==> Valid() && Inserted(space, cfg, old(S()), id, vector, S())
    {
      if |vector| != cfg.dimension {
        return Err(InvalidDimension);
      }
      if elementCount >= cfg.maxElements {
        return Err(IndexFull);
      }
      if id in idToIndex {
        return Err(InvalidVectorId);
      }
      r := AddNew(id, vector);
    }

    /** The part of an insertion that cannot fail. */
    method AddNew(id: VectorId, vector: Vector) returns (r: Status)
      requires Valid() && Fresh(S(), id) && |vector| == cfg.dimension
      modifies this
      ensures cfg == old(cfg) && Valid() && r == Ok(())
      ensures Inserted(space, cfg, old(S()), id, vector, S())
    {
      ghost var s := S();
      var draw := RandomLevel();
      var level := Min(draw, maxLevel + 1);
      nodes := nodes + [Node(id, level, seq(level + 1, i => []), vector, false)];
      idToIndex := idToIndex[id := |nodes| - 1];
      assert G() == Pushed(s.graph, id, vector, level);
      if elementCount == 0 {
        entryPoint := id;
        maxLevel := level;
        elementCount := 1;
        FirstAdded(space, cfg, s, id, vector, level, S());
      } else {
        LinkNew(id, vector, level, s);
        if level > maxLevel {
          maxLevel := level;
          entryPoint := id;
        }
        elementCount := elementCount + 1;
        PlacedAdds(space, cfg, s, id, vector, level, S());
      }
      AddKeepsConsistent(space, cfg, s, id, vector, level, S());
      return Ok(());
    }

    /** Finds the new node its place below the top of the graph and links it layer by layer. */
    method LinkNew(id: VectorId, vector: Vector, level: nat, ghost s: State)
      requires Consistent(cfg, s) && Fresh(s, id) && s.elementCount > 0
      requires G() == Pushed(s.graph, id, vector, level) && entryPoint == s.entryPoint && maxLevel == s.maxLevel
      modifies this`nodes
      ensures Placed(space, cfg, s, id, vector, level, G())
    {
      InsertingEdges(space, cfg, s, id, vector, level);
      EntryExists(cfg, s);
      var current := Descend(vector, entryPoint, maxLevel, level, s.graph.nodes);
      FreshNotInLayer(cfg, s, id, vector, level, current, Min(level, maxLevel));
      FreshNotInLayer(cfg, s, id, vector, level, entryPoint, maxLevel);
      assert Origin(space, s, id, vector, level, current);
      InsertingStarts(space, cfg, s, id, vector, level, Min(level, maxLevel), current);
      LinkLayers(id, vector, current, Min(level, maxLevel), s, level);
    }

    /** Adds element by element and stops at the first error; what went in before it stays in. */
    method AddBatch(ids: seq<VectorId>, vectors: seq<Vector>) returns (r: Status)
      requires Valid() && Addable(S(), ids)
      modifies this
      ensures cfg == old(cfg) && Valid()
      ensures |ids| != |vectors| ==> r == Err(InvalidInput) && S() == old(S())
      ensures |ids| == |vectors| ==>
                exists states :: BatchEnds(space, cfg, ids, vectors, states, r)
                                 && states[0] == old(S()) && states[|states| - 1] == S()
    {
      if |ids| != |vectors| {
        return Err(InvalidInput);
      }
      ghost var states := [S()];
      assert ids[0..] == ids;
      for i := 0 to |ids|
        invariant Valid() && cfg == old(cfg)
        invariant InTurn(space, cfg, ids, vectors, states) && |states| == i + 1
        invariant states[0] == old(S()) && states[i] == S()
        invariant Addable(S(), ids[i..])
      {
        assert ids[i] in ids[i..];
        r := Add(ids[i], vectors[i]);
        if r.Err? {
          assert BatchEnds(space, cfg, ids, vectors, states, r);
          return;
        }
        InTurnOneMore(space, cfg, ids, vectors, states, S());
        states := states + [S()];
      }
      r := Ok(());
      assert BatchEnds(space, cfg, ids, vectors, states, r);
    }

    /** Lazy deletion. */
    method Remove(id: VectorId) returns (r: Status)
      requires Valid()
      modifies this
      ensures cfg == old(cfg) && Valid()
      ensures r == if id in old(idToIndex) then Ok(()) else Err(VectorNotFound)
      ensures r.Err? ==> S() == old(S())
      ensures r.Ok? ==> Removed(old(S()), id, S())
      ensures r.Ok? ==>
                && var i := old(idToIndex)[id];
                && nodes == old(nodes)[i := old(nodes)[i].(deleted := true)]
                && idToIndex == old(idToIndex) - {id} && elementCount == old(elementCount) - 1
                && entryPoint == old(entryPoint) && maxLevel == old(maxLevel)
    {
      if id !in idToIndex {
        return Err(VectorNotFound);
      }
      ghost var s := S();
      SubsetSize({id}, idToIndex.Keys);
      var nodeIndex := idToIndex[id];
      nodes := nodes[nodeIndex := nodes[nodeIndex].(deleted := true)];
      idToIndex := idToIndex - {id};
      elementCount := elementCount - 1;
      assert Removed(s, id, S());
      RemoveKeepsConsistent(cfg, s, id, S());
      return Ok(());
    }

    // ---------------------------------------------------------------------- search

    /** Sets the beam width of later searches. */
    method SetEfSearch(ef: nat)
      modifies this`cfg
      ensures cfg == old(cfg).(efSearch := ef)
      ensures old(Valid()) ==> Valid()
    {
      if Consistent(cfg, S()) {
        SettingsKeepConsistent(cfg, S(), cfg.(efSearch := ef));
      }
      cfg := cfg.(efSearch := ef);
    }

    /** Raises or lowers the capacity, though not below the number of elements. */
    method Resize(maxElements: nat) returns (r: Status)
      modifies this`cfg
      ensures r == if maxElements < elementCount then Err(InvalidInput) else Ok(())
      ensures cfg == if r.Ok? then old(cfg).(maxElements := maxElements) else old(cfg)
      ensures old(Valid()) ==> Valid()
    {
      if maxElements < elementCount {
        return Err(InvalidInput);
      }
      if Consistent(cfg, S()) {
        SettingsKeepConsistent(cfg, S(), cfg.(maxElements := maxElements));
      }
      cfg := cfg.(maxElements := maxElements);
      return Ok(());
    }

    method Search(query: Vector, k: nat) returns (results: seq<SearchResult>)
      requires Valid()
      ensures SearchAnswer(space, cfg, S(), query, k, results)
    {
      if |query| != cfg.dimension || elementCount == 0 {
        return [];
      }
      ConsistentEdges(cfg, S());
      EntryExists(cfg, S());
      var current := Descend(query, entryPoint, maxLevel, 0, nodes);
      var candidates := SearchLayer(query, current, cfg.efSearch, 0);
      results := [];
      var n := Min(k, |candidates|);
      for i := 0 to n
        invariant |results| == i
        invariant results == Labelled(space, G(), query, candidates[..i])
      {
        var dist := DistanceToNode(query, candidates[i]);
        assert candidates[..i+1][..i] == candidates[..i];
        results := results + [SearchResult(candidates[i], dist)];
      }
      assert SearchedFrom(space, cfg, S(), query, current, candidates);
    }

    method SearchFiltered(query: Vector, k: nat, filter: VectorId -> bool) returns (filtered: seq<SearchResult>)
      requires Valid()
      ensures exists candidates :: SearchAnswer(space, cfg, S(), query, k * 3, candidates)
                                   && filtered == FirstPassing(candidates, filter, k)
    {
      var candidates := Search(query, k * 3);
      AnswerIsSorted(space, cfg, S(), query, k * 3, candidates);
      filtered := FilterLoop(candidates, k, filter);
    }
  }

  /** The loop of the filtered search: push what passes, stop once k results are there. */
  method FilterLoop(candidates: seq<SearchResult>, k: nat, filter: VectorId -> bool)
    returns (filtered: seq<SearchResult>)
    requires k == 0 ==> candidates == []
    ensures filtered == FirstPassing(candidates, filter, k)
  {
    filtered := [];
    var i := 0;
    while i < |candidates|
      invariant i <= |candidates|
      invariant |filtered| < k || (i == 0 && candidates == [])
      invariant |filtered| <= k
      invariant FirstPassing(candidates, filter, k) == filtered + FirstPassing(candidates[i..], filter, k - |filtered|)
    {
      ghost var before := filtered;
      if filter(candidates[i].id) {
        filtered := filtered + [candidates[i]];
        assert FirstPassing(candidates[i..], filter, k - |before|)
            == [candidates[i]] + FirstPassing(candidates[i+1..], filter, k - |filtered|);
        if |filtered| >= k {
          assert FirstPassing(candidates[i+1..], filter, 0) == [];
          return;
        }
      }
      i := i + 1;
    }
    assert candidates[i..] == [];
  }
}
