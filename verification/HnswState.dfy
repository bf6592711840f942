/**
 The HNSW index as a transition system: its state, what one insertion and one removal do to it,
 and the invariants that hold over every run of the two.
 */
module HnswState {
  import opened Sequences
  import opened Ranking
  import opened HnswGraph
  import opened HnswBeam
  import opened Vectors

  /** `metric` numbers the distance function, `seed` starts the random levels. */
  datatype Config = Config(dimension: nat, maxElements: nat, M: nat, efConstruction: nat, efSearch: nat,
                           metric: nat, seed: nat)

  datatype State = State(graph: Graph, entryPoint: VectorId, maxLevel: nat, elementCount: nat)

  function Capacity(cfg: Config, layer: nat): nat {
    if layer == 0 then cfg.M * 2 else cfg.M
  }

  const EMPTY: State := State(Graph([], map[]), 0, 0, 0)

  // ------------------------------------------------------------------ the invariant

  ghost predicate ListOk(cfg: Config, nodes: seq<Node>, owner: VectorId, layer: nat, list: seq<VectorId>) {
    && |list| <= Capacity(cfg, layer)
    && NoDup(list)
    && owner !in list
    && forall x :: x in list ==> x in AtLevel(nodes, layer)
  }

  ghost predicate ListsOk(cfg: Config, nodes: seq<Node>) {
    forall i, l :: 0 <= i < |nodes| && 0 <= l < |nodes[i].connections| ==>
                     ListOk(cfg, nodes, nodes[i].id, l, nodes[i].connections[l])
  }

  /** Each node has one list per layer it takes part in, and no two nodes share an id. */
  ghost predicate NodesOk(nodes: seq<Node>) {
    && (forall i :: 0 <= i < |nodes| ==> |nodes[i].connections| == nodes[i].level + 1)
    && (forall i, j :: 0 <= i < j < |nodes| ==> nodes[i].id != nodes[j].id)
  }

  /** The lookup table holds exactly the live nodes, each under its own id. */
  ghost predicate TableOk(g: Graph) {
    && IndexOk(g)
    && (forall id :: id in g.index ==> g.nodes[g.index[id]].id == id)
    && (forall i :: 0 <= i < |g.nodes| && !g.nodes[i].deleted ==> g.nodes[i].id in g.index)
  }

  ghost predicate VectorsFit(cfg: Config, nodes: seq<Node>) {
    forall i :: 0 <= i < |nodes| ==> |nodes[i].vector| == cfg.dimension
  }

  ghost predicate EntryOk(s: State) {
    && (forall i :: 0 <= i < |s.graph.nodes| && !s.graph.nodes[i].deleted ==> s.graph.nodes[i].level <= s.maxLevel)
    && (s.graph.nodes != [] ==> s.entryPoint in AtLevel(s.graph.nodes, s.maxLevel))
  }

  ghost predicate Consistent(cfg: Config, s: State) {
    && NodesOk(s.graph.nodes)
    && TableOk(s.graph)
    && ListsOk(cfg, s.graph.nodes)
    && VectorsFit(cfg, s.graph.nodes)
    && EntryOk(s)
    && s.elementCount == |s.graph.index|
  }

  /** The invariant does not depend on the settings that may be changed later. */
  lemma SettingsKeepConsistent(cfg: Config, s: State, other: Config)
    requires Consistent(cfg, s) && other.M == cfg.M && other.dimension == cfg.dimension
    ensures Consistent(other, s)
  {
    forall i, l | 0 <= i < |s.graph.nodes| && 0 <= l < |s.graph.nodes[i].connections|
      ensures ListOk(other, s.graph.nodes, s.graph.nodes[i].id, l, s.graph.nodes[i].connections[l])
    {
      assert ListOk(cfg, s.graph.nodes, s.graph.nodes[i].id, l, s.graph.nodes[i].connections[l]);
    }
  }

  /** No node, live or deleted, ever carried the id. */
  ghost predicate Fresh(s: State, id: VectorId) {
    forall i :: 0 <= i < |s.graph.nodes| ==> s.graph.nodes[i].id != id
  }

  /** The element count is the number of nodes not marked deleted. */
  lemma CountIsLiveNodes(cfg: Config, s: State)
    requires Consistent(cfg, s)
    ensures s.elementCount == |set i | 0 <= i < |s.graph.nodes| && !s.graph.nodes[i].deleted|
  {
    var g := s.graph;
    var live := set i | 0 <= i < |g.nodes| && !g.nodes[i].deleted;
    var inverse := map i | i in live :: g.nodes[i].id;
    assert inverse.Keys == live;
    forall i | i in inverse
      ensures inverse[i] in g.index && g.index[inverse[i]] == i
    {
      var j := g.index[g.nodes[i].id];
      assert g.nodes[j].id == g.nodes[i].id;
    }
    InverseSizes(g.index, inverse);
  }

  lemma {:induction false} InverseSizes(f: map<nat, nat>, inverse: map<nat, nat>)
    requires forall x :: x in f ==> f[x] in inverse && inverse[f[x]] == x
    requires forall y :: y in inverse ==> inverse[y] in f && f[inverse[y]] == y
    ensures |f| == |inverse|
  {
    if f != map[] {
      var x :| x in f;
      InverseSizes(f - {x}, inverse - {f[x]});
    }
  }

  // ------------------------------------------------------------------- transitions

  function NewNode(id: VectorId, vector: Vector, level: nat): Node {
    Node(id, level, seq(level + 1, i => []), vector, false)
  }

  /** The graph right after the new, still unconnected, node has been stored. */
  function Pushed(g: Graph, id: VectorId, vector: Vector, level: nat): Graph {
    Graph(g.nodes + [NewNode(id, vector, level)], g.index[id := |g.nodes|])
  }

  /** `list` holds the (at most M) nearest of what a beam search of this layer found from `start`, a node
      of the layer that is live exactly when the index's entry point is. */
  ghost predicate Chosen(space: Space, cfg: Config, s: State, vector: Vector, layer: nat, start: VectorId,
                         list: seq<VectorId>)
  {
    exists found :: ChosenFrom(space, cfg, s, vector, layer, start, found, list)
  }

  ghost predicate ChosenFrom(space: Space, cfg: Config, s: State, vector: Vector, layer: nat,
                             start: VectorId, found: seq<VectorId>, list: seq<VectorId>) {
    && start in AtLevel(s.graph.nodes, layer)
    && (Live(s.graph, start) <==> Live(s.graph, s.entryPoint))
    && (if Live(s.graph, start)
        then BeamResult(space, s.graph, vector, start, layer, Width(cfg.efConstruction), found)
        else found == [])
    && CutToNearest(space, s.graph, vector, found, cfg.M, list)
  }

  /** Whatever a node's connection lists become, everything else about it stays. */
  ghost predicate SameHeader(a: Node, b: Node) {
    && a.id == b.id && a.level == b.level && a.vector == b.vector && a.deleted == b.deleted
    && |a.connections| == |b.connections|
  }

  /** Old list i of a layer after the insertion: chosen neighbours link back, cut to capacity. */
  ghost predicate LinkedBack(space: Space, cfg: Config, pushed: Graph, before: Node, after: Node, layer: nat,
                             id: VectorId, chosen: seq<VectorId>)
    requires layer < |before.connections| && layer < |after.connections|
  {
    if before.id in chosen
    then CutToNearest(space, pushed, before.vector, before.connections[layer] + [id], Capacity(cfg, layer),
                      after.connections[layer])
    else after.connections[layer] == before.connections[layer]
  }

  function LayerList(lists: seq<seq<VectorId>>, layer: nat): seq<VectorId> {
    if layer < |lists| then lists[layer] else []
  }

  /** An old node keeps its header, and links back to the new node where its list `lists[layer]` names it. */
  ghost predicate OldNode(space: Space, cfg: Config, pushed: Graph, before: Node, after: Node, id: VectorId,
                          lists: seq<seq<VectorId>>)
  {
    && SameHeader(before, after)
    && forall l :: 0 <= l < |before.connections| ==>
                     LinkedBack(space, cfg, pushed, before, after, l, id, LayerList(lists, l))
  }

  ghost predicate OldNodes(space: Space, cfg: Config, s: State, pushed: Graph, after: seq<Node>, id: VectorId,
                           lists: seq<seq<VectorId>>)
    requires |after| >= |s.graph.nodes|
  {
    forall i :: 0 <= i < |s.graph.nodes| ==> OldNode(space, cfg, pushed, s.graph.nodes[i], after[i], id, lists)
  }

  /** Where the search of a layer starts: at the first neighbour chosen on the nearest linked layer above
      it that has one, and otherwise where the descent ended. */
  function LayerStart(lists: seq<seq<VectorId>>, top: nat, origin: VectorId, layer: nat): VectorId
    decreases top - layer
  {
    if layer >= top then origin
    else if LayerList(lists, layer + 1) != [] then LayerList(lists, layer + 1)[0]
    else LayerStart(lists, top, origin, layer + 1)
  }

  /** The new node's own lists for layers above `done`: chosen up to the old top layer, empty beyond. */
  ghost predicate NewLists(space: Space, cfg: Config, s: State, vector: Vector, node: Node, done: int,
                           origin: VectorId)
  {
    forall l :: 0 <= l < |node.connections| ==>
                  if s.elementCount > 0 && done < l <= s.maxLevel
                  then Chosen(space, cfg, s, vector, l,
                              LayerStart(node.connections, Min(node.level, s.maxLevel), origin, l), node.connections[l])
                  else node.connections[l] == []
  }

  /** The descent from the entry point to the layers that the new node takes part in, which sees the new
      node, still unconnected. */
  ghost predicate Origin(space: Space, s: State, id: VectorId, vector: Vector, level: nat, origin: VectorId) {
    s.elementCount > 0 ==>
      Descends(space, Pushed(s.graph, id, vector, level), vector, s.entryPoint, s.maxLevel, level, origin)
  }

  /** One successful insertion, at the given level. */
  ghost predicate Added(space: Space, cfg: Config, s: State, id: VectorId, vector: Vector, level: nat, t: State) {
    && level <= s.maxLevel + 1 && |vector| == cfg.dimension
    && var n := |s.graph.nodes|;
    && |t.graph.nodes| == n + 1
    && t.graph.index == s.graph.index[id := n]
    && SameHeader(NewNode(id, vector, level), t.graph.nodes[n])
    && (exists origin :: Origin(space, s, id, vector, level, origin)
                         && NewLists(space, cfg, s, vector, t.graph.nodes[n], -1, origin))
    && OldNodes(space, cfg, s, Pushed(s.graph, id, vector, level), t.graph.nodes, id, t.graph.nodes[n].connections)
    && t.elementCount == s.elementCount + 1
    && (if s.elementCount == 0 || level > s.maxLevel
        then t.entryPoint == id && t.maxLevel == level
        else t.entryPoint == s.entryPoint && t.maxLevel == s.maxLevel)
  }

  /** One successful removal: the node is only marked, its edges and those naming it stay. */
  ghost predicate Removed(s: State, id: VectorId, t: State) {
    && id in s.graph.index && s.graph.index[id] < |s.graph.nodes|
    && var i := s.graph.index[id];
    && t == s.(graph := Graph(s.graph.nodes[i := s.graph.nodes[i].(deleted := true)], s.graph.index - {id}),
               elementCount := t.elementCount)
    && t.elementCount + 1 == s.elementCount
  }

  // --------------------------------------------------- the invariant over every run

  lemma AtLevelGrows(before: seq<Node>, after: seq<Node>, layer: nat)
    requires |before| <= |after|
    requires forall i :: 0 <= i < |before| ==> before[i].id == after[i].id && before[i].level == after[i].level
    ensures AtLevel(before, layer) <= AtLevel(after, layer)
  {
    forall x | x in AtLevel(before, layer)
      ensures x in AtLevel(after, layer)
    {
      var i :| 0 <= i < |before| && before[i].level >= layer && before[i].id == x;
      assert after[i].level >= layer && after[i].id == x;
    }
  }

  /** Every id a beam search returns takes part in the layer, provided its start does. */
  lemma BeamStaysInLayer(space: Space, cfg: Config, s: State, query: Vector, entry: VectorId, layer: nat, width: nat,
                         ids: seq<VectorId>)
    requires Consistent(cfg, s)
    requires entry in AtLevel(s.graph.nodes, layer)
    requires BeamResult(space, s.graph, query, entry, layer, width, ids)
    ensures forall x :: x in ids ==> Live(s.graph, x) && x in AtLevel(s.graph.nodes, layer)
  {
    forall x | x in ids
      ensures Live(s.graph, x) && x in AtLevel(s.graph.nodes, layer)
    {
      ReachedIsNamed(s.graph, layer, entry, x);
      if x != entry {
        var u :| Adjacent(s.graph, layer, u, x);
        var i := s.graph.index[u];
        assert ListOk(cfg, s.graph.nodes, s.graph.nodes[i].id, layer, s.graph.nodes[i].connections[layer]);
      }
    }
  }

  /** The new node's list at a layer: few, distinct, live members of the layer; and it is empty only
      when the search had no live start or M is zero. */
  lemma ChosenFacts(space: Space, cfg: Config, s: State, vector: Vector, layer: nat, start: VectorId,
                    list: seq<VectorId>)
    requires Consistent(cfg, s)
    requires Chosen(space, cfg, s, vector, layer, start, list)
    ensures NoDup(list) && |list| <= cfg.M
    ensures forall x :: x in list ==> Live(s.graph, x) && x in AtLevel(s.graph.nodes, layer)
    ensures list != [] <==> Live(s.graph, s.entryPoint) && cfg.M >= 1
  {
    var found :| ChosenFrom(space, cfg, s, vector, layer, start, found, list);
    if Live(s.graph, start) {
      BeamNoDup(space, s.graph, vector, start, layer, Width(cfg.efConstruction), found);
      BeamStaysInLayer(space, cfg, s, vector, start, layer, Width(cfg.efConstruction), found);
    }
    CutFacts(space, s.graph, vector, found, cfg.M, list);
  }

  /** Each list of the new node on an old layer was chosen from some start. */
  lemma NewListChosen(space: Space, cfg: Config, s: State, id: VectorId, vector: Vector, level: nat, t: State, l: nat)
    returns (start: VectorId)
    requires Added(space, cfg, s, id, vector, level, t) && l <= level
    ensures var list := t.graph.nodes[|s.graph.nodes|].connections[l];
            if s.elementCount > 0 && l <= s.maxLevel then Chosen(space, cfg, s, vector, l, start, list) else list == []
  {
    var node := t.graph.nodes[|s.graph.nodes|];
    var origin :| Origin(space, s, id, vector, level, origin) && NewLists(space, cfg, s, vector, node, -1, origin);
    start := LayerStart(node.connections, Min(node.level, s.maxLevel), origin, l);
  }

  lemma NewListOk(space: Space, cfg: Config, s: State, id: VectorId, vector: Vector, level: nat, t: State, l: nat)
    requires Consistent(cfg, s) && Fresh(s, id)
    requires Added(space, cfg, s, id, vector, level, t)
    requires l <= level
    ensures var list := t.graph.nodes[|s.graph.nodes|].connections[l];
            ListOk(cfg, t.graph.nodes, id, l, list) && |list| <= cfg.M
            && forall x :: x in list ==> Live(s.graph, x) && x in AtLevel(s.graph.nodes, l)
  {
    AddKeepsHeaders(space, cfg, s, id, vector, level, t);
    var start := NewListChosen(space, cfg, s, id, vector, level, t, l);
    hide Added, Chosen, Consistent;
    var list := t.graph.nodes[|s.graph.nodes|].connections[l];
    AtLevelGrows(s.graph.nodes, t.graph.nodes, l);
    if list != [] {
      ChosenFacts(space, cfg, s, vector, l, start, list);
    }
    FreshOwner(cfg, s, t.graph.nodes, id, l, list);
  }

  /** A short list of old members of a layer is in order for a new owner. */
  lemma FreshOwner(cfg: Config, s: State, after: seq<Node>, id: VectorId, layer: nat, list: seq<VectorId>)
    requires Fresh(s, id) && AtLevel(s.graph.nodes, layer) <= AtLevel(after, layer)
    requires NoDup(list) && |list| <= cfg.M
    requires forall x :: x in list ==> x in AtLevel(s.graph.nodes, layer)
    ensures ListOk(cfg, after, id, layer, list)
  {
  }

  lemma OldListOk(space: Space, cfg: Config, s: State, id: VectorId, vector: Vector, level: nat, t: State, i: nat,
                  l: nat)
    requires Consistent(cfg, s) && Fresh(s, id)
    requires Added(space, cfg, s, id, vector, level, t)
    requires i < |s.graph.nodes| && l < |s.graph.nodes[i].connections|
    ensures ListOk(cfg, t.graph.nodes, t.graph.nodes[i].id, l, t.graph.nodes[i].connections[l])
  {
    hide EntryOk, TableOk, VectorsFit, NewLists, Origin;
    var n := |s.graph.nodes|;
    var before, after := s.graph.nodes[i], t.graph.nodes[i];
    var own := t.graph.nodes[n].connections;
    var chosen := LayerList(own, l);
    var list := before.connections[l];
    assert ListOk(cfg, s.graph.nodes, before.id, l, list);
    AtLevelGrows(s.graph.nodes, t.graph.nodes, l);
    assert OldNode(space, cfg, Pushed(s.graph, id, vector, level), before, after, id, own);
    assert LinkedBack(space, cfg, Pushed(s.graph, id, vector, level), before, after, l, id, chosen);
    if before.id in chosen {
      assert t.graph.nodes[n].level >= l && t.graph.nodes[n].id == id;
      assert id !in list;
      CutFacts(space, Pushed(s.graph, id, vector, level), before.vector, list + [id], Capacity(cfg, l),
          after.connections[l]);
    }
  }

  lemma AddKeepsLists(space: Space, cfg: Config, s: State, id: VectorId, vector: Vector, level: nat, t: State)
    requires Consistent(cfg, s) && Fresh(s, id)
    requires Added(space, cfg, s, id, vector, level, t)
    ensures ListsOk(cfg, t.graph.nodes)
  {
    var n := |s.graph.nodes|;
    AddKeepsHeaders(space, cfg, s, id, vector, level, t);
    forall i, l | 0 <= i < |t.graph.nodes| && 0 <= l < |t.graph.nodes[i].connections|
      ensures ListOk(cfg, t.graph.nodes, t.graph.nodes[i].id, l, t.graph.nodes[i].connections[l])
    {
      if i == n {
        NewListOk(space, cfg, s, id, vector, level, t, l);
      } else {
        assert SameHeader(s.graph.nodes[i], t.graph.nodes[i]);
        OldListOk(space, cfg, s, id, vector, level, t, i, l);
      }
    }
  }

  /** What an insertion keeps of every node, with the lists set aside. */
  lemma AddKeepsHeaders(space: Space, cfg: Config, s: State, id: VectorId, vector: Vector, level: nat, t: State)
    requires Added(space, cfg, s, id, vector, level, t)
    ensures |t.graph.nodes| == |s.graph.nodes| + 1
    ensures forall i :: 0 <= i < |s.graph.nodes| ==> SameHeader(s.graph.nodes[i], t.graph.nodes[i])
    ensures SameHeader(NewNode(id, vector, level), t.graph.nodes[|s.graph.nodes|])
  {
    forall i | 0 <= i < |s.graph.nodes|
      ensures SameHeader(s.graph.nodes[i], t.graph.nodes[i])
    {
      assert OldNode(space, cfg, Pushed(s.graph, id, vector, level), s.graph.nodes[i], t.graph.nodes[i], id,
                     t.graph.nodes[|s.graph.nodes|].connections);
    }
  }

  lemma AddKeepsEntry(space: Space, cfg: Config, s: State, id: VectorId, vector: Vector, level: nat, t: State)
    requires Consistent(cfg, s) && Fresh(s, id)
    requires Added(space, cfg, s, id, vector, level, t)
    ensures EntryOk(t)
  {
    var n := |s.graph.nodes|;
    AddKeepsHeaders(space, cfg, s, id, vector, level, t);
    if s.elementCount == 0 || level > s.maxLevel {
      assert t.graph.nodes[n].level >= t.maxLevel && t.graph.nodes[n].id == id;
      if s.elementCount == 0 {
        assert s.graph.index == map[];
      }
    } else {
      if s.graph.nodes == [] {
        SubsetSize(s.graph.index.Keys, {});
        assert false;
      }
      AtLevelGrows(s.graph.nodes, t.graph.nodes, s.maxLevel);
    }
  }

  /** At most M ids in a list, 2M on the bottom layer. */
  lemma ListsAreBounded(cfg: Config, s: State)
    ensures ListsOk(cfg, s.graph.nodes) ==>
              forall i, l :: 0 <= i < |s.graph.nodes| && 0 <= l < |s.graph.nodes[i].connections| ==>
                               |s.graph.nodes[i].connections[l]| <= if l == 0 then 2 * cfg.M else cfg.M
  {
    if ListsOk(cfg, s.graph.nodes) {
      forall i, l | 0 <= i < |s.graph.nodes| && 0 <= l < |s.graph.nodes[i].connections|
        ensures |s.graph.nodes[i].connections[l]| <= if l == 0 then 2 * cfg.M else cfg.M
      {
        assert ListOk(cfg, s.graph.nodes, s.graph.nodes[i].id, l, s.graph.nodes[i].connections[l]);
      }
    }
  }

  /** An insertion of a never-used id keeps the whole invariant. */
  lemma AddKeepsConsistent(space: Space, cfg: Config, s: State, id: VectorId, vector: Vector, level: nat, t: State)
    requires Consistent(cfg, s) && Fresh(s, id)
    requires Added(space, cfg, s, id, vector, level, t)
    ensures Consistent(cfg, t)
    ensures forall i, l :: 0 <= i < |t.graph.nodes| && 0 <= l < |t.graph.nodes[i].connections| ==>
                             |t.graph.nodes[i].connections[l]| <= if l == 0 then 2 * cfg.M else cfg.M
  {
    ListsAreBounded(cfg, t);
    hide ListsOk, EntryOk, VectorsFit;
    AddKeepsLists(space, cfg, s, id, vector, level, t);
    AddKeepsEntry(space, cfg, s, id, vector, level, t);
    AddKeepsHeaders(space, cfg, s, id, vector, level, t);
    AddKeepsTable(s.graph, id, vector, level, t.graph);
    AddKeepsVectors(space, cfg, s, id, vector, level, t);
  }

  lemma AddKeepsVectors(space: Space, cfg: Config, s: State, id: VectorId, vector: Vector, level: nat, t: State)
    requires VectorsFit(cfg, s.graph.nodes)
    requires Added(space, cfg, s, id, vector, level, t)
    ensures VectorsFit(cfg, t.graph.nodes)
  {
    AddKeepsHeaders(space, cfg, s, id, vector, level, t);
    forall i | 0 <= i < |t.graph.nodes|
      ensures |t.graph.nodes[i].vector| == cfg.dimension
    {
      if i < |s.graph.nodes| {
        assert SameHeader(s.graph.nodes[i], t.graph.nodes[i]);
      }
    }
  }

  lemma AddKeepsTable(g: Graph, id: VectorId, vector: Vector, level: nat, h: Graph)
    requires NodesOk(g.nodes) && TableOk(g)
    requires forall i :: 0 <= i < |g.nodes| ==> g.nodes[i].id != id
    requires |h.nodes| == |g.nodes| + 1 && h.index == g.index[id := |g.nodes|]
    requires forall i :: 0 <= i < |g.nodes| ==> SameHeader(g.nodes[i], h.nodes[i])
    requires SameHeader(NewNode(id, vector, level), h.nodes[|g.nodes|])
    ensures NodesOk(h.nodes) && TableOk(h)
    ensures |h.index| == |g.index| + 1
  {
    assert id !in g.index;
    assert h.index.Keys == g.index.Keys + {id};
    AddKeepsNodes(g, id, vector, level, h);
    forall x | x in h.index
      ensures h.index[x] < |h.nodes| && !h.nodes[h.index[x]].deleted && h.nodes[h.index[x]].id == x
    {
      if x != id {
        assert SameHeader(g.nodes[g.index[x]], h.nodes[g.index[x]]);
      }
    }
    forall i | 0 <= i < |h.nodes| && !h.nodes[i].deleted
      ensures h.nodes[i].id in h.index
    {
      if i < |g.nodes| {
        assert SameHeader(g.nodes[i], h.nodes[i]);
      }
    }
  }

  lemma AddKeepsNodes(g: Graph, id: VectorId, vector: Vector, level: nat, h: Graph)
    requires NodesOk(g.nodes)
    requires forall i :: 0 <= i < |g.nodes| ==> g.nodes[i].id != id
    requires |h.nodes| == |g.nodes| + 1
    requires forall i :: 0 <= i < |g.nodes| ==> SameHeader(g.nodes[i], h.nodes[i])
    requires SameHeader(NewNode(id, vector, level), h.nodes[|g.nodes|])
    ensures NodesOk(h.nodes)
  {
    forall i | 0 <= i < |g.nodes|
      ensures h.nodes[i].id == g.nodes[i].id && |h.nodes[i].connections| == h.nodes[i].level + 1
    {
      assert SameHeader(g.nodes[i], h.nodes[i]);
    }
  }

  lemma RemoveKeepsConsistent(cfg: Config, s: State, id: VectorId, t: State)
    requires Consistent(cfg, s)
    requires Removed(s, id, t)
    ensures Consistent(cfg, t)
  {
    hide ListsOk, TableOk, NodesOk, EntryOk;
    RemoveKeepsLists(cfg, s, id, t);
    RemoveKeepsTable(s, id, t);
    RemoveKeepsEntry(s, id, t);
  }

  lemma RemoveKeepsEntry(s: State, id: VectorId, t: State)
    requires EntryOk(s)
    requires Removed(s, id, t)
    ensures EntryOk(t)
  {
    AtLevelGrows(s.graph.nodes, t.graph.nodes, s.maxLevel);
  }

  lemma RemoveKeepsTable(s: State, id: VectorId, t: State)
    requires NodesOk(s.graph.nodes) && TableOk(s.graph)
    requires Removed(s, id, t)
    ensures NodesOk(t.graph.nodes) && TableOk(t.graph)
    ensures |t.graph.index| == |s.graph.index| - 1
  {
    assert t.graph.index.Keys == s.graph.index.Keys - {id};
  }

  lemma RemoveKeepsLists(cfg: Config, s: State, id: VectorId, t: State)
    requires ListsOk(cfg, s.graph.nodes)
    requires Removed(s, id, t)
    ensures ListsOk(cfg, t.graph.nodes)
  {
    forall i, l | 0 <= i < |t.graph.nodes| && 0 <= l < |t.graph.nodes[i].connections|
      ensures ListOk(cfg, t.graph.nodes, t.graph.nodes[i].id, l, t.graph.nodes[i].connections[l])
    {
      AtLevelGrows(s.graph.nodes, t.graph.nodes, l);
      assert ListOk(cfg, s.graph.nodes, s.graph.nodes[i].id, l, s.graph.nodes[i].connections[l]);
    }
  }

  // ------------------------------------------------------ an insertion in progress

  /** Each edge of each layer leads to a member of that layer among `base`. */
  ghost predicate EdgesInto(g: Graph, base: seq<Node>) {
    forall l: nat, u, v :: Adjacent(g, l, u, v) ==> v in AtLevel(base, l)
  }

  lemma ConsistentEdges(cfg: Config, s: State)
    requires Consistent(cfg, s)
    ensures EdgesInto(s.graph, s.graph.nodes)
  {
    forall l: nat, u, v | Adjacent(s.graph, l, u, v)
      ensures v in AtLevel(s.graph.nodes, l)
    {
      var i := s.graph.index[u];
      assert ListOk(cfg, s.graph.nodes, s.graph.nodes[i].id, l, s.graph.nodes[i].connections[l]);
    }
  }

  lemma AtLevelDown(nodes: seq<Node>, high: nat, low: nat)
    requires low <= high
    ensures AtLevel(nodes, high) <= AtLevel(nodes, low)
  {
    forall x | x in AtLevel(nodes, high)
      ensures x in AtLevel(nodes, low)
    {
      var i :| 0 <= i < |nodes| && nodes[i].level >= high && nodes[i].id == x;
      assert nodes[i].level >= low;
    }
  }

  /** The graph while the new node is being linked: layers above `done` are finished, and old nodes
      link back as far as `lists` says. */
  ghost predicate Inserting(space: Space, cfg: Config, s: State, id: VectorId, vector: Vector, level: nat, h: Graph,
                            lists: seq<seq<VectorId>>, done: int, origin: VectorId)
  {
    && var n := |s.graph.nodes|;
    && |h.nodes| == n + 1
    && h.index == s.graph.index[id := n]
    && SameHeader(NewNode(id, vector, level), h.nodes[n])
    && NewLists(space, cfg, s, vector, h.nodes[n], done, origin)
    && OldNodes(space, cfg, s, Pushed(s.graph, id, vector, level), h.nodes, id, lists)
  }

  lemma InsertingStarts(space: Space, cfg: Config, s: State, id: VectorId, vector: Vector, level: nat, done: int,
                        origin: VectorId)
    requires done >= s.maxLevel || done >= level || s.elementCount == 0
    ensures var h := Pushed(s.graph, id, vector, level);
            Inserting(space, cfg, s, id, vector, level, h, h.nodes[|s.graph.nodes|].connections, done, origin)
  {
  }

  /** While layer l is untouched by the insertion, its edges are those of the old graph. */
  lemma UntouchedEdges(space: Space, cfg: Config, s: State, id: VectorId, vector: Vector, level: nat, h: Graph,
                       lists: seq<seq<VectorId>>, done: int, origin: VectorId, l: nat, u: VectorId, v: VectorId)
    requires Consistent(cfg, s) && Fresh(s, id)
    requires Inserting(space, cfg, s, id, vector, level, h, lists, done, origin)
    requires l <= done && lists == h.nodes[|s.graph.nodes|].connections
    ensures Live(s.graph, u) ==> Live(h, u) && u != id
    ensures Adjacent(h, l, u, v) <==> Adjacent(s.graph, l, u, v)
    ensures Adjacent(h, l, u, v) ==> v in AtLevel(s.graph.nodes, l)
  {
    var n := |s.graph.nodes|;
    assert id !in s.graph.index;
    if u in s.graph.index {
      var i := s.graph.index[u];
      assert OldNode(space, cfg, Pushed(s.graph, id, vector, level), s.graph.nodes[i], h.nodes[i], id, lists);
      if l < |s.graph.nodes[i].connections| {
        assert LinkedBack(space, cfg, Pushed(s.graph, id, vector, level), s.graph.nodes[i], h.nodes[i], l, id,
                          LayerList(lists, l));
        assert ListOk(cfg, s.graph.nodes, u, l, s.graph.nodes[i].connections[l]);
      }
    }
    if v in s.graph.index {
      var j := s.graph.index[v];
      assert OldNode(space, cfg, Pushed(s.graph, id, vector, level), s.graph.nodes[j], h.nodes[j], id, lists);
    }
  }

  /** A beam search of an untouched layer finds in the growing graph what it finds in the old one. */
  lemma UntouchedBeam(space: Space, cfg: Config, s: State, id: VectorId, vector: Vector, level: nat, h: Graph,
                      lists: seq<seq<VectorId>>, done: int, origin: VectorId, l: nat, start: VectorId, width: nat,
                      ids: seq<VectorId>)
    requires Consistent(cfg, s) && Fresh(s, id)
    requires Inserting(space, cfg, s, id, vector, level, h, lists, done, origin)
    requires l <= done && lists == h.nodes[|s.graph.nodes|].connections
    requires Live(s.graph, start)
    requires BeamResult(space, h, vector, start, l, width, ids)
    ensures BeamResult(space, s.graph, vector, start, l, width, ids)
    ensures forall x :: x in ids ==> DistanceTo(space, h, vector, x) == DistanceTo(space, s.graph, vector, x)
  {
    var g := s.graph;
    var evaluated :| Beam(space, h, vector, start, l, width, ids, evaluated);
    forall x, y
      ensures Adjacent(h, l, x, y) <==> Adjacent(g, l, x, y)
    {
      UntouchedEdges(space, cfg, s, id, vector, level, h, lists, done, origin, l, x, y);
    }
    forall x | x in evaluated
      ensures Live(g, x) && Reachable(g, l, start, x)
      ensures DistanceTo(space, h, vector, x) == DistanceTo(space, g, vector, x)
    {
      ReachMonotone(h, g, l, start, x);
      ReachedIsNamed(g, l, start, x);
      UntouchedEdges(space, cfg, s, id, vector, level, h, lists, done, origin, l, x, x);
      var i := g.index[x];
      assert OldNode(space, cfg, Pushed(g, id, vector, level), g.nodes[i], h.nodes[i], id, lists);
    }
    UntouchedBeamOrder(space, g, h, vector, start, l, width, ids, evaluated);
  }

  lemma UntouchedBeamOrder(space: Space, g: Graph, h: Graph, vector: Vector, start: VectorId, l: nat, width: nat,
                           ids: seq<VectorId>, evaluated: set<VectorId>)
    requires Beam(space, h, vector, start, l, width, ids, evaluated)
    requires forall x, y :: Adjacent(h, l, x, y) <==> Adjacent(g, l, x, y)
    requires forall x :: x in evaluated ==>
                           && Live(g, x) && Reachable(g, l, start, x)
                           && DistanceTo(space, h, vector, x) == DistanceTo(space, g, vector, x)
    ensures Beam(space, g, vector, start, l, width, ids, evaluated)
  {
    assert forall x :: x in evaluated ==> EntryOf(space, h, vector, x) == EntryOf(space, g, vector, x);
    forall i, j | 0 <= i < j < |ids|
      ensures Before(EntryOf(space, g, vector, ids[i]), EntryOf(space, g, vector, ids[j]))
    {
      assert Before(EntryOf(space, h, vector, ids[i]), EntryOf(space, h, vector, ids[j]));
    }
  }

  /** A node list with one neighbour list replaced. */
  function Relinked(nodes: seq<Node>, i: nat, layer: nat, list: seq<VectorId>): seq<Node>
    requires i < |nodes| && layer < |nodes[i].connections|
  {
    nodes[i := nodes[i].(connections := nodes[i].connections[layer := list])]
  }

  /** Where a layer's search starts does not depend on the lists at or below it. */
  lemma {:induction false} LayerStartKept(lists: seq<seq<VectorId>>, layer: nat, list: seq<VectorId>, top: nat,
                                          origin: VectorId, l: nat)
    requires layer < |lists| && layer <= l
    ensures LayerStart(lists[layer := list], top, origin, l) == LayerStart(lists, top, origin, l)
    decreases top - l
  {
    if l < top {
      assert LayerList(lists[layer := list], l + 1) == LayerList(lists, l + 1);
      LayerStartKept(lists, layer, list, top, origin, l + 1);
    }
  }

  /** Giving the new node its list for the layer at hand finishes that layer on the new node's side. */
  lemma OwnListSet(space: Space, cfg: Config, s: State, id: VectorId, vector: Vector, level: nat, h: Graph,
                   lists: seq<seq<VectorId>>, layer: nat, origin: VectorId, list: seq<VectorId>)
    requires Inserting(space, cfg, s, id, vector, level, h, lists, layer, origin)
    requires lists == h.nodes[|s.graph.nodes|].connections
    requires layer <= level && layer <= s.maxLevel && s.elementCount > 0
    requires Chosen(space, cfg, s, vector, layer, LayerStart(lists, Min(level, s.maxLevel), origin, layer), list)
    ensures var h' := Graph(Relinked(h.nodes, |s.graph.nodes|, layer, list), h.index);
            && Inserting(space, cfg, s, id, vector, level, h', lists, layer - 1, origin)
            && lists[layer := []] == lists
            && h'.nodes[|s.graph.nodes|].connections == lists[layer := list]
  {
    var n := |s.graph.nodes|;
    var h' := Graph(Relinked(h.nodes, n, layer, list), h.index);
    assert lists[layer] == [];
    assert forall l :: 0 <= l < |lists| && l != layer ==> h'.nodes[n].connections[l] == h.nodes[n].connections[l];
    forall l: nat | layer <= l
      ensures LayerStart(lists[layer := list], Min(level, s.maxLevel), origin, l)
           == LayerStart(lists, Min(level, s.maxLevel), origin, l)
    {
      LayerStartKept(lists, layer, list, Min(level, s.maxLevel), origin, l);
    }
    forall i | 0 <= i < n
      ensures h'.nodes[i] == h.nodes[i]
    {
    }
  }

  /** A chosen neighbour that is not linked back yet still has the list it had before the insertion. */
  lemma BackLinkReady(space: Space, cfg: Config, s: State, id: VectorId, vector: Vector, level: nat, h: Graph,
                      lists: seq<seq<VectorId>>, layer: nat, done: int, origin: VectorId, chosen: seq<VectorId>, k: nat)
    requires Consistent(cfg, s) && Fresh(s, id)
    requires layer < |lists| && k < |chosen| && NoDup(chosen)
    requires Inserting(space, cfg, s, id, vector, level, h, lists[layer := chosen[..k]], done, origin)
    requires Live(s.graph, chosen[k]) && chosen[k] in AtLevel(s.graph.nodes, layer)
    ensures var i := s.graph.index[chosen[k]];
            && h.index[chosen[k]] == i && Live(h, chosen[k])
            && i < |s.graph.nodes| && s.graph.nodes[i].id == chosen[k] && SameHeader(s.graph.nodes[i], h.nodes[i])
            && layer < |h.nodes[i].connections|
            && h.nodes[i].connections[layer] == s.graph.nodes[i].connections[layer]
            && id !in h.nodes[i].connections[layer]
  {
    hide NewLists, EntryOk, VectorsFit;
    var n := |s.graph.nodes|;
    var pushed := Pushed(s.graph, id, vector, level);
    var i := s.graph.index[chosen[k]];
    var j :| 0 <= j < n && s.graph.nodes[j].level >= layer && s.graph.nodes[j].id == chosen[k];
    assert i == j;
    assert chosen[k] !in chosen[..k];
    var before := s.graph.nodes[i];
    var was := lists[layer := chosen[..k]];
    assert OldNode(space, cfg, pushed, before, h.nodes[i], id, was);
    assert LinkedBack(space, cfg, pushed, before, h.nodes[i], layer, id, LayerList(was, layer));
    assert ListOk(cfg, s.graph.nodes, before.id, layer, before.connections[layer]);
  }

  /** The back link of one more chosen neighbour. */
  lemma BackLinkSet(space: Space, cfg: Config, s: State, id: VectorId, vector: Vector, level: nat, h: Graph,
                    lists: seq<seq<VectorId>>, layer: nat, done: int, origin: VectorId, chosen: seq<VectorId>, k: nat,
                    i: nat, list: seq<VectorId>)
    requires Consistent(cfg, s) && Fresh(s, id)
    requires layer < |lists| && k < |chosen| && NoDup(chosen)
    requires Inserting(space, cfg, s, id, vector, level, h, lists[layer := chosen[..k]], done, origin)
    requires Live(s.graph, chosen[k]) && chosen[k] in AtLevel(s.graph.nodes, layer)
    requires s.graph.index[chosen[k]] == i && i < |h.nodes| && layer < |h.nodes[i].connections|
    requires CutToNearest(space, h, h.nodes[i].vector, h.nodes[i].connections[layer] + [id], Capacity(cfg, layer), list)
    ensures Inserting(space, cfg, s, id, vector, level, Graph(Relinked(h.nodes, i, layer, list), h.index),
                      lists[layer := chosen[..k+1]], done, origin)
  {
    BackLinkReady(space, cfg, s, id, vector, level, h, lists, layer, done, origin, chosen, k);
    DistancesStay(space, cfg, s, id, vector, level, h, lists[layer := chosen[..k]], done, origin, h.nodes[i].vector);
    hide NewLists, EntryOk, VectorsFit, ListsOk, TableOk, CutToNearest, OldNode;
    var pushed, before := Pushed(s.graph, id, vector, level), s.graph.nodes[i];
    CutTransfers(space, h, pushed, before.vector, before.connections[layer] + [id], Capacity(cfg, layer), list);
    var h' := Graph(Relinked(h.nodes, i, layer, list), h.index);
    forall m | 0 <= m < |s.graph.nodes|
      ensures OldNode(space, cfg, pushed, s.graph.nodes[m], h'.nodes[m], id, lists[layer := chosen[..k+1]])
    {
      assert OldNode(space, cfg, pushed, s.graph.nodes[m], h.nodes[m], id, lists[layer := chosen[..k]]);
      if m != i {
        assert s.graph.nodes[m].id != chosen[k];
      }
      OneBackLink(space, cfg, pushed, s.graph.nodes[m], h.nodes[m], h'.nodes[m], id, lists, layer, chosen, k, list);
    }
  }

  /** Linking does not move anything. */
  lemma DistancesStay(space: Space, cfg: Config, s: State, id: VectorId, vector: Vector, level: nat, h: Graph,
                      lists: seq<seq<VectorId>>, done: int, origin: VectorId, v: Vector)
    requires Inserting(space, cfg, s, id, vector, level, h, lists, done, origin)
    ensures forall x :: DistanceTo(space, h, v, x) == DistanceTo(space, Pushed(s.graph, id, vector, level), v, x)
  {
    hide NewLists;
    var pushed := Pushed(s.graph, id, vector, level);
    forall x
      ensures DistanceTo(space, h, v, x) == DistanceTo(space, pushed, v, x)
    {
      if x in h.index && h.index[x] < |s.graph.nodes| {
        assert OldNode(space, cfg, pushed, s.graph.nodes[h.index[x]], h.nodes[h.index[x]], id, lists);
      }
    }
  }

  /** The k-th back link touches one list of the node named chosen[k] and nothing of any other node. */
  lemma OneBackLink(space: Space, cfg: Config, pushed: Graph, before: Node, now: Node, after: Node, id: VectorId,
                    lists: seq<seq<VectorId>>, layer: nat, chosen: seq<VectorId>, k: nat, list: seq<VectorId>)
    requires layer < |lists| && k < |chosen|
    requires OldNode(space, cfg, pushed, before, now, id, lists[layer := chosen[..k]])
    requires before.id == chosen[k] ==>
               && layer < |now.connections|
               && after == now.(connections := now.connections[layer := list])
               && CutToNearest(space, pushed, before.vector, before.connections[layer] + [id], Capacity(cfg, layer),
                   list)
    requires before.id != chosen[k] ==> after == now
    ensures OldNode(space, cfg, pushed, before, after, id, lists[layer := chosen[..k+1]])
  {
    var was, will := lists[layer := chosen[..k]], lists[layer := chosen[..k+1]];
    assert chosen[..k+1] == chosen[..k] + [chosen[k]];
    forall l | 0 <= l < |before.connections|
      ensures LinkedBack(space, cfg, pushed, before, after, l, id, LayerList(will, l))
    {
      assert LinkedBack(space, cfg, pushed, before, now, l, id, LayerList(was, l));
    }
  }

  lemma InsertingLive(space: Space, cfg: Config, s: State, id: VectorId, vector: Vector, level: nat, h: Graph,
                      lists: seq<seq<VectorId>>, done: int, origin: VectorId)
    requires Consistent(cfg, s) && Fresh(s, id)
    requires Inserting(space, cfg, s, id, vector, level, h, lists, done, origin)
    ensures forall x :: x != id ==> (Live(h, x) <==> Live(s.graph, x))
    ensures IndexOk(h)
  {
    forall x | x != id
      ensures Live(h, x) <==> Live(s.graph, x)
    {
      if x in s.graph.index {
        var i := s.graph.index[x];
        assert OldNode(space, cfg, Pushed(s.graph, id, vector, level), s.graph.nodes[i], h.nodes[i], id, lists);
      }
    }
    forall x | x in h.index
      ensures h.index[x] < |h.nodes| && !h.nodes[h.index[x]].deleted
    {
      if x != id {
        assert Live(s.graph, x);
      }
    }
  }

  /** Right after the push, edges still lead into the old layers only. */
  lemma InsertingEdges(space: Space, cfg: Config, s: State, id: VectorId, vector: Vector, level: nat)
    requires Consistent(cfg, s) && Fresh(s, id)
    ensures var h := Pushed(s.graph, id, vector, level);
            IndexOk(h) && EdgesInto(h, s.graph.nodes)
  {
    var h := Pushed(s.graph, id, vector, level);
    var lists := h.nodes[|s.graph.nodes|].connections;
    forall l: nat, u, v | Adjacent(h, l, u, v)
      ensures v in AtLevel(s.graph.nodes, l)
    {
      var done := if l > level then l else level;
      InsertingStarts(space, cfg, s, id, vector, level, done, id);
      UntouchedEdges(space, cfg, s, id, vector, level, h, lists, done, id, l, u, v);
    }
    InsertingStarts(space, cfg, s, id, vector, level, level, id);
    InsertingLive(space, cfg, s, id, vector, level, h, lists, level, id);
  }

  /** A non-empty index has an entry point at its top layer. */
  lemma EntryExists(cfg: Config, s: State)
    requires Consistent(cfg, s) && s.elementCount > 0
    ensures s.entryPoint in AtLevel(s.graph.nodes, s.maxLevel)
  {
    if s.graph.nodes == [] {
      SubsetSize(s.graph.index.Keys, {});
      assert false;
    }
  }

  lemma FreshNotInLayer(cfg: Config, s: State, id: VectorId, vector: Vector, level: nat, x: VectorId, layer: nat)
    requires Consistent(cfg, s) && Fresh(s, id)
    requires x in AtLevel(s.graph.nodes, layer)
    ensures x != id
    ensures Live(Pushed(s.graph, id, vector, level), x) <==> Live(s.graph, x)
  {
  }
}
