/**
 What one insertion into the HNSW index does, spelled out: where it comes from, whom the new node is linked to
 on each layer, and what the links back leave in the lists of the others.
 */
module HnswInsertions {
  import opened Sequences
  import opened HnswGraph
  import opened HnswBeam
  import opened HnswState
  import opened HnswRuns
  import opened Vectors

  /** `list` holds the M nearest of `found`, all of them if there are no more, the nearest first. */
  ghost predicate NearestOf(space: Space, g: Graph, v: Vector, M: nat, found: seq<VectorId>, list: seq<VectorId>) {
    && |list| == (if |found| < M then |found| else M)
    && NoDup(list)
    && (forall x :: x in list ==> x in found)
    && (forall i, j :: 0 <= i < j < |list| ==> DistanceTo(space, g, v, list[i]) <= DistanceTo(space, g, v, list[j]))
    && forall x, y :: x in list && y in found && y !in list ==> DistanceTo(space, g, v, x) <= DistanceTo(space, g, v, y)
  }

  /** `list` is what the search of a layer with max(ef_construction, 1) places from `start` gives the new node. */
  ghost predicate SearchedList(space: Space, cfg: Config, s: State, vector: Vector, layer: nat, start: VectorId,
                               list: seq<VectorId>)
  {
    Live(s.graph, start)
    && exists found ::
         BeamResult(space, s.graph, vector, start, layer,
                    if cfg.efConstruction > 1 then cfg.efConstruction else 1, found)
         && NearestOf(space, s.graph, vector, cfg.M, found, list)
  }

  /** The new node's lists, from the highest layer that it shares with the index down: the search of that layer
      starts at `origin`, and that of each other layer at the nearest neighbour chosen one layer above. */
  ghost predicate LinkedDown(space: Space, cfg: Config, s: State, vector: Vector, lists: seq<seq<VectorId>>, top: nat,
                             origin: VectorId, starts: seq<VectorId>)
    requires top < |lists|
  {
    && |starts| == top + 1 && starts[top] == origin
    && (forall l :: 0 <= l <= top ==> SearchedList(space, cfg, s, vector, l, starts[l], lists[l]))
    && (forall l :: 0 <= l < top ==> starts[l] == if lists[l+1] == [] then starts[l+1] else lists[l+1][0])
    && forall l :: top < l < |lists| ==> lists[l] == []
  }

  /** The way of a new node: greedy moves from the entry point down to its own level, then layer by layer. */
  ghost predicate PlacedAlong(space: Space, cfg: Config, s: State, id: VectorId, vector: Vector, level: nat,
                              lists: seq<seq<VectorId>>, path: seq<VectorId>, starts: seq<VectorId>)
    requires |lists| == level + 1
  {
    && GreedyPath(space, Pushed(s.graph, id, vector, level), vector, s.maxLevel, level, path)
    && path[0] == s.entryPoint
    && LinkedDown(space, cfg, s, vector, lists, if level < s.maxLevel then level else s.maxLevel,
                  path[|path|-1], starts)
  }

  lemma ChosenIsSearched(space: Space, cfg: Config, s: State, vector: Vector, layer: nat, start: VectorId,
                         list: seq<VectorId>)
    requires Chosen(space, cfg, s, vector, layer, start, list)
    requires Live(s.graph, s.entryPoint)
    ensures SearchedList(space, cfg, s, vector, layer, start, list)
  {
    var found :| ChosenFrom(space, cfg, s, vector, layer, start, found, list);
    BeamNoDup(space, s.graph, vector, start, layer, Width(cfg.efConstruction), found);
    CutFacts(space, s.graph, vector, found, cfg.M, list);
    var evaluated :| Beam(space, s.graph, vector, start, layer, Width(cfg.efConstruction), found, evaluated);
    if |found| <= cfg.M {
      forall i, j | 0 <= i < j < |found|
        ensures DistanceTo(space, s.graph, vector, found[i]) <= DistanceTo(space, s.graph, vector, found[j])
      {
        assert Before(EntryOf(space, s.graph, vector, found[i]), EntryOf(space, s.graph, vector, found[j]));
      }
    }
    assert NearestOf(space, s.graph, vector, cfg.M, found, list);
  }

  /** While the entry point is live, the new node comes down to its level by greedy moves from the entry point and
      is then linked layer by layer, each search starting at the nearest neighbour found above. */
  lemma AddedAlongGreedyPath(space: Space, cfg: Config, s: State, id: VectorId, vector: Vector, level: nat, t: State)
    requires Consistent(cfg, s) && Fresh(s, id) && Live(s.graph, s.entryPoint)
    requires Added(space, cfg, s, id, vector, level, t)
    ensures var lists := t.graph.nodes[|s.graph.nodes|].connections;
            |lists| == level + 1
            && exists path, starts :: PlacedAlong(space, cfg, s, id, vector, level, lists, path, starts)
  {
    var h := Pushed(s.graph, id, vector, level);
    var node := t.graph.nodes[|s.graph.nodes|];
    LiveMeansCounted(cfg, s);
    var origin :| Origin(space, s, id, vector, level, origin) && NewLists(space, cfg, s, vector, node, -1, origin);
    var starts := NewListsLinkDown(space, cfg, s, vector, level, node, origin);
    assert Live(h, s.entryPoint);
    var path := DescentIsGreedyPath(space, h, vector, s.entryPoint, s.maxLevel, level, origin);
    assert PlacedAlong(space, cfg, s, id, vector, level, node.connections, path, starts);
  }

  lemma NewListsLinkDown(space: Space, cfg: Config, s: State, vector: Vector, level: nat, node: Node, origin: VectorId)
    returns (starts: seq<VectorId>)
    requires s.elementCount > 0 && Live(s.graph, s.entryPoint)
    requires node.level == level && |node.connections| == level + 1
    requires NewLists(space, cfg, s, vector, node, -1, origin)
    ensures LinkedDown(space, cfg, s, vector, node.connections, if level < s.maxLevel then level else s.maxLevel,
                       origin, starts)
  {
    hide SearchedList;
    var lists := node.connections;
    var top := if level < s.maxLevel then level else s.maxLevel;
    starts := seq(top + 1, l requires 0 <= l <= top => LayerStart(lists, top, origin, l));
    forall l | 0 <= l <= top
      ensures SearchedList(space, cfg, s, vector, l, starts[l], lists[l])
    {
      NewListSearched(space, cfg, s, vector, node, origin, l);
    }
    BeyondTopEmpty(space, cfg, s, vector, node, origin);
    StartsChain(lists, top, origin, starts);
  }

  lemma NewListSearched(space: Space, cfg: Config, s: State, vector: Vector, node: Node, origin: VectorId, l: nat)
    requires s.elementCount > 0 && Live(s.graph, s.entryPoint)
    requires l < |node.connections| && l <= s.maxLevel
    requires NewLists(space, cfg, s, vector, node, -1, origin)
    ensures SearchedList(space, cfg, s, vector, l,
                         LayerStart(node.connections, if node.level < s.maxLevel then node.level else s.maxLevel,
                                    origin, l), node.connections[l])
  {
    var top := if node.level < s.maxLevel then node.level else s.maxLevel;
    ChosenIsSearched(space, cfg, s, vector, l, LayerStart(node.connections, top, origin, l), node.connections[l]);
  }

  lemma BeyondTopEmpty(space: Space, cfg: Config, s: State, vector: Vector, node: Node, origin: VectorId)
    requires NewLists(space, cfg, s, vector, node, -1, origin)
    ensures forall l :: s.maxLevel < l < |node.connections| ==> node.connections[l] == []
  {
  }

  lemma StartsChain(lists: seq<seq<VectorId>>, top: nat, origin: VectorId, starts: seq<VectorId>)
    requires top < |lists| && |starts| == top + 1
    requires forall l :: 0 <= l <= top ==> starts[l] == LayerStart(lists, top, origin, l)
    ensures starts[top] == origin
    ensures forall l :: 0 <= l < top ==> starts[l] == if lists[l+1] == [] then starts[l+1] else lists[l+1][0]
  {
  }

  lemma LiveMeansCounted(cfg: Config, s: State)
    requires Consistent(cfg, s) && Live(s.graph, s.entryPoint)
    ensures s.elementCount > 0
  {
    SubsetSize({s.entryPoint}, s.graph.index.Keys);
  }

  /** Once the entry point is gone, a new node is linked to nothing and nothing is linked to it. */
  lemma AddedUnlinked(space: Space, cfg: Config, s: State, id: VectorId, vector: Vector, level: nat, t: State)
    requires Consistent(cfg, s) && Fresh(s, id) && !Live(s.graph, s.entryPoint)
    requires Added(space, cfg, s, id, vector, level, t)
    ensures forall l :: 0 <= l <= level ==> t.graph.nodes[|s.graph.nodes|].connections[l] == []
    ensures forall i :: 0 <= i < |s.graph.nodes| ==> t.graph.nodes[i] == s.graph.nodes[i]
  {
    var lists := t.graph.nodes[|s.graph.nodes|].connections;
    forall l | 0 <= l <= level
      ensures lists[l] == []
    {
      var start := NewListChosen(space, cfg, s, id, vector, level, t, l);
      if lists[l] != [] {
        ChosenFacts(space, cfg, s, vector, l, start, lists[l]);
      }
    }
    forall i | 0 <= i < |s.graph.nodes|
      ensures t.graph.nodes[i] == s.graph.nodes[i]
    {
      var before, after := s.graph.nodes[i], t.graph.nodes[i];
      assert OldNode(space, cfg, Pushed(s.graph, id, vector, level), before, after, id, lists);
      forall l | 0 <= l < |before.connections|
        ensures after.connections[l] == before.connections[l]
      {
        assert LinkedBack(space, cfg, Pushed(s.graph, id, vector, level), before, after, l, id, LayerList(lists, l));
      }
      assert after.connections == before.connections;
    }
  }

  /** `list` is `before` with one more id, from which only as many as exceed `most` were dropped, none of them
      nearer to the owner than any that stayed. */
  ghost predicate LinkedOneMore(space: Space, g: Graph, owner: Vector, before: seq<VectorId>, id: VectorId, most: nat,
                                list: seq<VectorId>)
  {
    && |list| == (if |before| + 1 < most then |before| + 1 else most)
    && NoDup(list)
    && (forall x :: x in list ==> x in before || x == id)
    && forall x, y :: x in list && (y in before || y == id) && y !in list ==>
                        DistanceTo(space, g, owner, x) <= DistanceTo(space, g, owner, y)
  }

  /** On each layer exactly the nodes that the new one lists get it into their own list, which keeps the M nearest,
      2M on the bottom layer; all other lists stay as they are. */
  lemma BackLinks(space: Space, cfg: Config, s: State, id: VectorId, vector: Vector, level: nat, t: State, i: nat,
                  l: nat)
    requires Consistent(cfg, s) && Fresh(s, id)
    requires Added(space, cfg, s, id, vector, level, t)
    requires i < |s.graph.nodes| && l <= s.graph.nodes[i].level
    ensures var before, after := s.graph.nodes[i], t.graph.nodes[i];
            && after.id == before.id && after.level == before.level && after.vector == before.vector
            && after.deleted == before.deleted
            && l < |before.connections| && l < |after.connections|
            && if l <= level && before.id in t.graph.nodes[|s.graph.nodes|].connections[l]
               then LinkedOneMore(space, t.graph, before.vector, before.connections[l], id,
                                  if l == 0 then 2 * cfg.M else cfg.M, after.connections[l])
               else after.connections[l] == before.connections[l]
  {
    hide EntryOk, VectorsFit, NewLists, Origin;
    var pushed := Pushed(s.graph, id, vector, level);
    var before, after := s.graph.nodes[i], t.graph.nodes[i];
    var own := t.graph.nodes[|s.graph.nodes|].connections;
    assert OldNode(space, cfg, pushed, before, after, id, own);
    assert LinkedBack(space, cfg, pushed, before, after, l, id, LayerList(own, l));
    if before.id in LayerList(own, l) {
      var extended := before.connections[l] + [id];
      assert ListOk(cfg, s.graph.nodes, before.id, l, before.connections[l]);
      assert id !in before.connections[l];
      SameDistances(space, cfg, s, id, vector, level, t, before.vector);
      CutTransfers(space, pushed, t.graph, before.vector, extended, Capacity(cfg, l), after.connections[l]);
      CutFacts(space, t.graph, before.vector, extended, Capacity(cfg, l), after.connections[l]);
    }
  }

  lemma SameDistances(space: Space, cfg: Config, s: State, id: VectorId, vector: Vector, level: nat, t: State,
                      v: Vector)
    requires Added(space, cfg, s, id, vector, level, t)
    ensures forall x :: DistanceTo(space, t.graph, v, x) == DistanceTo(space, Pushed(s.graph, id, vector, level), v, x)
  {
    AddKeepsHeaders(space, cfg, s, id, vector, level, t);
    forall x
      ensures DistanceTo(space, t.graph, v, x) == DistanceTo(space, Pushed(s.graph, id, vector, level), v, x)
    {
      if x in t.graph.index && t.graph.index[x] < |s.graph.nodes| {
        assert SameHeader(s.graph.nodes[t.graph.index[x]], t.graph.nodes[t.graph.index[x]]);
      }
    }
  }

  // ----------------------------------------------------------------------- over runs

  /** The graph grows by at most one layer at a time, and the entry point moves only to a node that is the first of
      its layer or the only one there is. */
  lemma StepHeight(space: Space, cfg: Config, s: State, op: Op, t: State)
    requires Consistent(cfg, s) && Step(space, cfg, s, op, t)
    ensures t.maxLevel <= s.maxLevel + 1
    ensures t.maxLevel > s.maxLevel ==>
              op.Add? && t.entryPoint == op.id && t.graph.nodes[|t.graph.nodes| - 1].level == t.maxLevel
    ensures t.entryPoint != s.entryPoint && s.elementCount > 0 ==> t.maxLevel == s.maxLevel + 1
    ensures t.maxLevel < s.maxLevel ==> s.elementCount == 0
  {
  }

  /** So after n steps there are at most n + 1 layers. */
  lemma {:induction false} EveryRunHeight(space: Space, cfg: Config, ops: seq<Op>, states: seq<State>, n: nat)
    requires Run(space, cfg, ops, states) && n < |states|
    ensures states[n].maxLevel <= n
    ensures forall i :: 0 <= i < |states[n].graph.nodes| ==> states[n].graph.nodes[i].level <= n
  {
    if n > 0 {
      EveryRunHeight(space, cfg, ops, states, n - 1);
      EveryRunConsistent(space, cfg, ops, states, n - 1);
      assert Step(space, cfg, states[n-1], ops[n-1], states[n]);
      StepHeight(space, cfg, states[n-1], ops[n-1], states[n]);
      StepLevels(space, cfg, states[n-1], ops[n-1], states[n], n);
    }
  }

  lemma StepLevels(space: Space, cfg: Config, s: State, op: Op, t: State, n: nat)
    requires Step(space, cfg, s, op, t) && s.maxLevel < n
    requires forall i :: 0 <= i < |s.graph.nodes| ==> s.graph.nodes[i].level < n
    ensures forall i :: 0 <= i < |t.graph.nodes| ==> t.graph.nodes[i].level <= n
  {
    if op.Add? {
      AddKeepsHeaders(space, cfg, s, op.id, op.vector, op.level, t);
      forall i | 0 <= i < |t.graph.nodes|
        ensures t.graph.nodes[i].level <= n
      {
        if i < |s.graph.nodes| {
          assert SameHeader(s.graph.nodes[i], t.graph.nodes[i]);
        }
      }
    }
  }
}
