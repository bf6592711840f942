/**
 Runs of the HNSW index. Every run keeps the structural invariant; an insert-only run of at most
 2M + 1 elements keeps layer 0 symmetric and connected, so a wide enough search is exact.
 */
module HnswRuns {
  import opened Sequences
  import opened HnswGraph
  import opened HnswState
  import opened Vectors

  datatype Op = Add(id: VectorId, vector: Vector, level: nat) | Remove(id: VectorId)

  ghost predicate Step(space: Space, cfg: Config, s: State, op: Op, t: State) {
    match op
    case Add(id, vector, level) => Fresh(s, id) && Added(space, cfg, s, id, vector, level, t)
    case Remove(id) => Removed(s, id, t)
  }

  /** A run from the empty index; any level may be drawn, any id that was never used may be added. */
  ghost predicate Run(space: Space, cfg: Config, ops: seq<Op>, states: seq<State>) {
    && |states| == |ops| + 1
    && states[0] == EMPTY
    && forall i :: 0 <= i < |ops| ==> Step(space, cfg, states[i], ops[i], states[i+1])
  }

  /** Degree bounds, no duplicates or self-loops, layer membership, lookup table and count: over every run. */
  lemma {:induction false} EveryRunConsistent(space: Space, cfg: Config, ops: seq<Op>, states: seq<State>, n: nat)
    requires Run(space, cfg, ops, states)
    requires n < |states|
    ensures Consistent(cfg, states[n])
    ensures forall i, l :: 0 <= i < |states[n].graph.nodes| && 0 <= l < |states[n].graph.nodes[i].connections| ==>
                             |states[n].graph.nodes[i].connections[l]| <= if l == 0 then 2 * cfg.M else cfg.M
  {
    ListsAreBounded(cfg, states[n]);
    if n > 0 {
      EveryRunConsistent(space, cfg, ops, states, n - 1);
      StepKeepsConsistent(space, cfg, states[n - 1], ops[n - 1], states[n]);
    }
  }

  lemma StepKeepsConsistent(space: Space, cfg: Config, s: State, op: Op, t: State)
    requires Consistent(cfg, s) && Step(space, cfg, s, op, t)
    ensures Consistent(cfg, t)
  {
    match op
    case Add(id, vector, level) => AddKeepsConsistent(space, cfg, s, id, vector, level, t);
    case Remove(id) => RemoveKeepsConsistent(cfg, s, id, t);
  }

  // ----------------------------------------------------- small insert-only runs

  ghost predicate Symmetric(g: Graph) {
    forall u, v :: Adjacent(g, 0, u, v) ==> Adjacent(g, 0, v, u)
  }

  ghost predicate Connected(g: Graph) {
    forall u, v :: Live(g, u) && Live(g, v) ==> Reachable(g, 0, u, v)
  }

  ghost predicate AllLive(g: Graph) {
    forall i :: 0 <= i < |g.nodes| ==> !g.nodes[i].deleted
  }

  /** Nothing was ever removed, and no bottom list was ever full enough to be pruned. */
  ghost predicate Unpruned(cfg: Config, s: State) {
    && Consistent(cfg, s)
    && AllLive(s.graph)
    && |s.graph.nodes| <= 2 * cfg.M + 1
    && Symmetric(s.graph)
    && Connected(s.graph)
  }

  /** A bottom list names other nodes only, so it is shorter than the number of nodes. */
  lemma BottomListShort(cfg: Config, s: State, i: nat)
    requires Consistent(cfg, s)
    requires i < |s.graph.nodes|
    ensures |s.graph.nodes[i].connections| > 0
    ensures |s.graph.nodes[i].connections[0]| < |s.graph.nodes|
  {
    var g := s.graph;
    var list := g.nodes[i].connections[0];
    assert ListOk(cfg, g.nodes, g.nodes[i].id, 0, list);
    var named := list + [g.nodes[i].id];
    assert NoDup(named);
    var ids := seq(|g.nodes|, k requires 0 <= k < |g.nodes| => g.nodes[k].id);
    assert NoDup(ids);
    forall x | x in named
      ensures x in SetOf(ids)
    {
      if x in list {
        var k :| 0 <= k < |g.nodes| && g.nodes[k].level >= 0 && g.nodes[k].id == x;
        assert ids[k] == x;
      } else {
        assert ids[i] == x;
      }
    }
    NoDupBound(named, SetOf(ids));
    NoDupLength(ids);
  }

  function Bottom(node: Node): seq<VectorId> {
    LayerList(node.connections, 0)
  }

  ghost predicate LinkedNode(before: Node, after: Node, id: VectorId, chosen: seq<VectorId>) {
    && before.id == after.id && before.deleted == after.deleted
    && Bottom(after) == if before.id in chosen then Bottom(before) + [id] else Bottom(before)
  }

  /** `h` is `g` with a new node, linked on the bottom layer with each of the live nodes `chosen` in both
      directions; no bottom list lost anything. */
  ghost predicate Linked(g: Graph, h: Graph, id: VectorId, chosen: seq<VectorId>) {
    var n := |g.nodes|;
    && id !in g.index
    && |h.nodes| == n + 1 && h.index == g.index[id := n]
    && !h.nodes[n].deleted && Bottom(h.nodes[n]) == chosen
    && (forall x :: x in chosen ==> Live(g, x))
    && forall i :: 0 <= i < n ==> LinkedNode(g.nodes[i], h.nodes[i], id, chosen)
  }

  /** Every looked-up id is its node's own, and every node named on the bottom layer is live. */
  ghost predicate BottomLive(g: Graph) {
    && (forall x :: x in g.index ==> Live(g, x) && g.nodes[g.index[x]].id == x)
    && forall i, x :: 0 <= i < |g.nodes| && x in Bottom(g.nodes[i]) ==> Live(g, x)
  }

  lemma UnprunedBottomLive(cfg: Config, s: State)
    requires Consistent(cfg, s) && AllLive(s.graph)
    ensures BottomLive(s.graph)
  {
    var nodes := s.graph.nodes;
    forall i, x | 0 <= i < |nodes| && x in Bottom(nodes[i])
      ensures Live(s.graph, x)
    {
      assert ListOk(cfg, nodes, nodes[i].id, 0, nodes[i].connections[0]);
      var k :| 0 <= k < |nodes| && nodes[k].level >= 0 && nodes[k].id == x;
    }
  }

  /** No bottom list is cut: a chosen node's list grows by the new id, the others stay. */
  lemma UnprunedBottomList(space: Space, cfg: Config, s: State, id: VectorId, vector: Vector, level: nat, t: State,
                           i: nat)
    requires Unpruned(cfg, s) && Fresh(s, id) && i < |s.graph.nodes| <= 2 * cfg.M
    requires Added(space, cfg, s, id, vector, level, t)
    ensures LinkedNode(s.graph.nodes[i], t.graph.nodes[i], id, Bottom(t.graph.nodes[|s.graph.nodes|]))
  {
    var lists := t.graph.nodes[|s.graph.nodes|].connections;
    var before, after := s.graph.nodes[i], t.graph.nodes[i];
    BottomListShort(cfg, s, i);
    assert ListOk(cfg, s.graph.nodes, before.id, 0, before.connections[0]);
    assert OldNode(space, cfg, Pushed(s.graph, id, vector, level), before, after, id, lists);
    assert LinkedBack(space, cfg, Pushed(s.graph, id, vector, level), before, after, 0, id, LayerList(lists, 0));
  }

  lemma AddedLinks(space: Space, cfg: Config, s: State, id: VectorId, vector: Vector, level: nat, t: State)
    requires Unpruned(cfg, s) && Fresh(s, id) && |s.graph.nodes| <= 2 * cfg.M
    requires Added(space, cfg, s, id, vector, level, t)
    ensures Linked(s.graph, t.graph, id, Bottom(t.graph.nodes[|s.graph.nodes|]))
  {
    NewListOk(space, cfg, s, id, vector, level, t, 0);
    forall i | 0 <= i < |s.graph.nodes|
      ensures LinkedNode(s.graph.nodes[i], t.graph.nodes[i], id, Bottom(t.graph.nodes[|s.graph.nodes|]))
    {
      UnprunedBottomList(space, cfg, s, id, vector, level, t, i);
    }
  }

  /** The bottom edges are the old ones, and both directions of each new one. */
  lemma LinkedEdges(g: Graph, h: Graph, id: VectorId, chosen: seq<VectorId>, u: VectorId, v: VectorId)
    requires Linked(g, h, id, chosen) && BottomLive(g)
    ensures Adjacent(h, 0, u, v) <==>
            Adjacent(g, 0, u, v) || (u == id && v in chosen) || (v == id && u in chosen)
  {
    LinkedLive(g, h, id, chosen, u);
    LinkedLive(g, h, id, chosen, v);
    if u in g.index {
      var i := g.index[u];
      assert LinkedNode(g.nodes[i], h.nodes[i], id, chosen);
      assert Neighbors(h, 0, u) == Bottom(h.nodes[i]) && Neighbors(g, 0, u) == Bottom(g.nodes[i]);
    }
  }

  lemma LinkedLive(g: Graph, h: Graph, id: VectorId, chosen: seq<VectorId>, x: VectorId)
    requires Linked(g, h, id, chosen) && BottomLive(g)
    ensures Live(h, x) <==> Live(g, x) || x == id
  {
    if x in g.index {
      assert LinkedNode(g.nodes[g.index[x]], h.nodes[g.index[x]], id, chosen);
    }
  }

  /** The bottom edges after an unpruned insertion: the old ones, and both directions of each new one. */
  lemma UnprunedEdges(space: Space, cfg: Config, s: State, id: VectorId, vector: Vector, level: nat, t: State,
                      u: VectorId, v: VectorId)
    requires Unpruned(cfg, s) && Fresh(s, id)
    requires |s.graph.nodes| <= 2 * cfg.M
    requires Added(space, cfg, s, id, vector, level, t)
    ensures var chosen := Bottom(t.graph.nodes[|s.graph.nodes|]);
            Adjacent(t.graph, 0, u, v) <==>
              Adjacent(s.graph, 0, u, v) || (u == id && v in chosen) || (v == id && u in chosen)
  {
    AddedLinks(space, cfg, s, id, vector, level, t);
    UnprunedBottomLive(cfg, s);
    LinkedEdges(s.graph, t.graph, id, Bottom(t.graph.nodes[|s.graph.nodes|]), u, v);
  }

  lemma LinkedWalkSurvives(g: Graph, h: Graph, id: VectorId, chosen: seq<VectorId>, u: VectorId, v: VectorId)
    requires Linked(g, h, id, chosen) && BottomLive(g)
    requires Live(g, u) && Reachable(g, 0, u, v)
    ensures Reachable(h, 0, u, v)
  {
    LinkedLive(g, h, id, chosen, u);
    forall x, y | Adjacent(g, 0, x, y)
      ensures Adjacent(h, 0, x, y)
    {
      LinkedEdges(g, h, id, chosen, x, y);
    }
    ReachMonotone(g, h, 0, u, v);
  }

  /** Old nodes reach each other as before, and the new one by way of its first neighbour. */
  lemma LinkedReaches(g: Graph, h: Graph, id: VectorId, chosen: seq<VectorId>, u: VectorId, v: VectorId)
    requires Linked(g, h, id, chosen) && BottomLive(g) && Connected(g)
    requires g.index != map[] ==> chosen != []
    requires Live(h, u) && Live(h, v)
    ensures Reachable(h, 0, u, v)
  {
    LinkedLive(g, h, id, chosen, u);
    LinkedLive(g, h, id, chosen, v);
    if u == id && v == id {
      ReachSelf(h, 0, id);
    } else if u != id && v != id {
      LinkedWalkSurvives(g, h, id, chosen, u, v);
    } else {
      var hub := chosen[0];
      LinkedEdges(g, h, id, chosen, id, hub);
      LinkedEdges(g, h, id, chosen, hub, id);
      if u == id {
        LinkedWalkSurvives(g, h, id, chosen, hub, v);
        ReachSelf(h, 0, id);
        ReachStep(h, 0, id, id, hub);
        ReachTrans(h, 0, id, hub, v);
      } else {
        LinkedWalkSurvives(g, h, id, chosen, u, hub);
        ReachStep(h, 0, u, hub, id);
      }
    }
  }

  lemma LinkedSymmetric(g: Graph, h: Graph, id: VectorId, chosen: seq<VectorId>)
    requires Linked(g, h, id, chosen) && BottomLive(g) && Symmetric(g)
    ensures Symmetric(h)
  {
    forall u, v | Adjacent(h, 0, u, v)
      ensures Adjacent(h, 0, v, u)
    {
      LinkedEdges(g, h, id, chosen, u, v);
      LinkedEdges(g, h, id, chosen, v, u);
    }
  }

  /** In an unpruned index the new node's bottom list is not empty once there is anything to link to. */
  lemma BottomLinkExists(space: Space, cfg: Config, s: State, id: VectorId, vector: Vector, level: nat, t: State)
    requires Unpruned(cfg, s) && Fresh(s, id) && cfg.M >= 1
    requires s.elementCount > 0
    requires Added(space, cfg, s, id, vector, level, t)
    ensures Bottom(t.graph.nodes[|s.graph.nodes|]) != []
  {
    EntryExists(cfg, s);
    var k :| 0 <= k < |s.graph.nodes| && s.graph.nodes[k].level >= s.maxLevel && s.graph.nodes[k].id == s.entryPoint;
    assert Live(s.graph, s.entryPoint);
    var start := NewListChosen(space, cfg, s, id, vector, level, t, 0);
    ChosenFacts(space, cfg, s, vector, 0, start, t.graph.nodes[|s.graph.nodes|].connections[0]);
  }

  /** Inserting while at most 2M nodes are stored lets any two live nodes reach each other on layer 0. */
  lemma AddKeepsConnected(space: Space, cfg: Config, s: State, id: VectorId, vector: Vector, level: nat, t: State,
                          u: VectorId, v: VectorId)
    requires Unpruned(cfg, s) && Fresh(s, id) && cfg.M >= 1
    requires |s.graph.nodes| <= 2 * cfg.M
    requires Added(space, cfg, s, id, vector, level, t)
    requires Live(t.graph, u) && Live(t.graph, v)
    ensures Reachable(t.graph, 0, u, v)
  {
    AddedLinks(space, cfg, s, id, vector, level, t);
    UnprunedBottomLive(cfg, s);
    if s.elementCount > 0 {
      BottomLinkExists(space, cfg, s, id, vector, level, t);
    }
    LinkedReaches(s.graph, t.graph, id, Bottom(t.graph.nodes[|s.graph.nodes|]), u, v);
  }

  /** Inserting while at most 2M nodes are stored keeps layer 0 symmetric and connected. */
  lemma AddKeepsUnpruned(space: Space, cfg: Config, s: State, id: VectorId, vector: Vector, level: nat, t: State)
    requires Unpruned(cfg, s) && Fresh(s, id) && cfg.M >= 1
    requires |s.graph.nodes| <= 2 * cfg.M
    requires Added(space, cfg, s, id, vector, level, t)
    ensures Unpruned(cfg, t)
  {
    hide Connected, Symmetric, AllLive;
    AddKeepsConsistent(space, cfg, s, id, vector, level, t);
    AddKeepsAllLive(space, cfg, s, id, vector, level, t);
    AddKeepsBottom(space, cfg, s, id, vector, level, t);
  }

  lemma AddKeepsAllLive(space: Space, cfg: Config, s: State, id: VectorId, vector: Vector, level: nat, t: State)
    requires Added(space, cfg, s, id, vector, level, t)
    requires AllLive(s.graph)
    ensures AllLive(t.graph)
  {
    AddKeepsHeaders(space, cfg, s, id, vector, level, t);
    forall i | 0 <= i < |t.graph.nodes|
      ensures !t.graph.nodes[i].deleted
    {
      if i < |s.graph.nodes| {
        assert SameHeader(s.graph.nodes[i], t.graph.nodes[i]);
      }
    }
  }

  lemma AddKeepsBottom(space: Space, cfg: Config, s: State, id: VectorId, vector: Vector, level: nat, t: State)
    requires Unpruned(cfg, s) && Fresh(s, id) && cfg.M >= 1
    requires |s.graph.nodes| <= 2 * cfg.M
    requires Added(space, cfg, s, id, vector, level, t)
    ensures Symmetric(t.graph) && Connected(t.graph)
  {
    AddedLinks(space, cfg, s, id, vector, level, t);
    UnprunedBottomLive(cfg, s);
    LinkedSymmetric(s.graph, t.graph, id, Bottom(t.graph.nodes[|s.graph.nodes|]));
    forall u, v | Live(t.graph, u) && Live(t.graph, v)
      ensures Reachable(t.graph, 0, u, v)
    {
      AddKeepsConnected(space, cfg, s, id, vector, level, t, u, v);
    }
  }

  /** Over every insert-only run of at most 2M + 1 fresh ids, layer 0 stays symmetric and connected. */
  lemma SmallRunConnected(space: Space, cfg: Config, ops: seq<Op>, states: seq<State>)
    requires Run(space, cfg, ops, states)
    requires cfg.M >= 1 && |ops| <= 2 * cfg.M + 1
    requires forall i :: 0 <= i < |ops| ==> ops[i].Add?
    ensures Unpruned(cfg, states[|ops|])
    ensures |states[|ops|].graph.nodes| == |ops|
  {
    assert Unpruned(cfg, EMPTY);
    hide Unpruned, Step;
    var i := 0;
    while i < |ops|
      invariant i <= |ops|
      invariant Unpruned(cfg, states[i]) && |states[i].graph.nodes| == i
    {
      assert Step(space, cfg, states[i], ops[i], states[i+1]);
      StepKeepsUnpruned(space, cfg, states[i], ops[i], states[i+1]);
      i := i + 1;
    }
  }

  lemma StepKeepsUnpruned(space: Space, cfg: Config, s: State, op: Op, t: State)
    requires Unpruned(cfg, s) && Step(space, cfg, s, op, t) && op.Add?
    requires cfg.M >= 1 && |s.graph.nodes| <= 2 * cfg.M
    ensures Unpruned(cfg, t) && |t.graph.nodes| == |s.graph.nodes| + 1
  {
    AddKeepsUnpruned(space, cfg, s, op.id, op.vector, op.level, t);
  }

  // ------------------------------------------------------------------------- batches

  /** The index took the vector in, at some level. */
  ghost predicate Inserted(space: Space, cfg: Config, s: State, id: VectorId, vector: Vector, t: State) {
    exists level :: Added(space, cfg, s, id, vector, level, t)
  }

  /** One more node and id; whatever else was fresh still is. */
  ghost predicate Grew(s: State, id: VectorId, t: State) {
    && |t.graph.nodes| == |s.graph.nodes| + 1
    && t.graph.index.Keys == s.graph.index.Keys + {id}
    && forall x :: Fresh(s, x) && x != id ==> Fresh(t, x)
  }

  /** Each id is known, which is an error to report, or was never used. */
  ghost predicate Addable(s: State, ids: seq<VectorId>) {
    forall id :: id in ids ==> id in s.graph.index || Fresh(s, id)
  }

  /** The first elements of a batch went in one after the other: states[i] is the index after i of them. */
  ghost predicate InTurn(space: Space, cfg: Config, ids: seq<VectorId>, vectors: seq<Vector>, states: seq<State>) {
    && |ids| == |vectors| && 1 <= |states| <= |ids| + 1
    && forall i :: 0 <= i < |states| - 1 ==>
                     Fresh(states[i], ids[i]) && Inserted(space, cfg, states[i], ids[i], vectors[i], states[i+1])
  }

  /** All of `ids` were taken in. */
  ghost predicate GrewBy(s: State, ids: seq<VectorId>, t: State) {
    |t.graph.nodes| == |s.graph.nodes| + |ids| && t.graph.index.Keys == s.graph.index.Keys + SetOf(ids)
  }

  /** What went in is exactly the front of the batch. */
  lemma {:induction false} InTurnGrows(space: Space, cfg: Config, ids: seq<VectorId>, vectors: seq<Vector>,
                                       states: seq<State>)
    requires InTurn(space, cfg, ids, vectors, states)
    ensures GrewBy(states[0], ids[..|states| - 1], states[|states| - 1])
  {
    var n := |states| - 1;
    if n > 0 {
      var before := states[..n];
      assert InTurn(space, cfg, ids, vectors, before);
      InTurnGrows(space, cfg, ids, vectors, before);
      InsertedGrows(space, cfg, states[n - 1], ids[n - 1], vectors[n - 1], states[n]);
      SetOfPrefix(ids, n - 1);
      hide Inserted, InTurn;
    }
  }

  /** A batch leaves the bottom layer unpruned as long as the index is small. */
  lemma {:induction false} InTurnKeepsUnpruned(space: Space, cfg: Config, ids: seq<VectorId>, vectors: seq<Vector>,
                                               states: seq<State>)
    requires InTurn(space, cfg, ids, vectors, states)
    requires UnprunedIfSmall(cfg, states[0])
    ensures UnprunedIfSmall(cfg, states[|states| - 1])
  {
    var n := |states| - 1;
    if n > 0 {
      var before := states[..n];
      assert InTurn(space, cfg, ids, vectors, before);
      InTurnKeepsUnpruned(space, cfg, ids, vectors, before);
      var level :| Added(space, cfg, states[n - 1], ids[n - 1], vectors[n - 1], level, states[n]);
      AddKeepsUnprunedIfSmall(space, cfg, states[n - 1], ids[n - 1], vectors[n - 1], level, states[n]);
    }
  }

  lemma InsertedGrows(space: Space, cfg: Config, s: State, id: VectorId, vector: Vector, t: State)
    requires Inserted(space, cfg, s, id, vector, t)
    ensures Grew(s, id, t)
  {
    var level :| Added(space, cfg, s, id, vector, level, t);
    AddGrowsByOne(space, cfg, s, id, vector, level, t);
  }

  /** One more element of the batch. */
  lemma InTurnOneMore(space: Space, cfg: Config, ids: seq<VectorId>, vectors: seq<Vector>, states: seq<State>, t: State)
    requires InTurn(space, cfg, ids, vectors, states) && |states| <= |ids|
    requires var n := |states| - 1;
             && Fresh(states[n], ids[n]) && Inserted(space, cfg, states[n], ids[n], vectors[n], t)
             && Addable(states[n], ids[n..])
    ensures InTurn(space, cfg, ids, vectors, states + [t]) && Addable(t, ids[|states|..])
  {
    var n := |states| - 1;
    InsertedGrows(space, cfg, states[n], ids[n], vectors[n], t);
    forall id | id in ids[|states|..]
      ensures id in t.graph.index || Fresh(t, id)
    {
      assert id in ids[n..];
    }
  }

  lemma AddGrowsByOne(space: Space, cfg: Config, s: State, id: VectorId, vector: Vector, level: nat, t: State)
    requires Added(space, cfg, s, id, vector, level, t)
    ensures Grew(s, id, t)
  {
    AddKeepsHeaders(space, cfg, s, id, vector, level, t);
    forall x | Fresh(s, x) && x != id
      ensures Fresh(t, x)
    {
      forall i | 0 <= i < |t.graph.nodes|
        ensures t.graph.nodes[i].id != x
      {
        if i < |s.graph.nodes| {
          assert SameHeader(s.graph.nodes[i], t.graph.nodes[i]);
        }
      }
    }
  }

  /** While the index is small an insertion keeps it unpruned. */
  ghost predicate UnprunedIfSmall(cfg: Config, s: State) {
    cfg.M >= 1 && |s.graph.nodes| <= 2 * cfg.M + 1 ==> Unpruned(cfg, s)
  }

  lemma AddKeepsUnprunedIfSmall(space: Space, cfg: Config, s: State, id: VectorId, vector: Vector, level: nat, t: State)
    requires UnprunedIfSmall(cfg, s) && Fresh(s, id)
    requires Added(space, cfg, s, id, vector, level, t)
    ensures UnprunedIfSmall(cfg, t)
  {
    if cfg.M >= 1 && |t.graph.nodes| <= 2 * cfg.M + 1 {
      AddKeepsUnpruned(space, cfg, s, id, vector, level, t);
    }
  }
}
