/**
 Saving the HNSW index to a file and loading it back (src/index/hnsw.cpp, save and load).  A file is
 a sequence of cells, one for each number or scalar written; reading past its end, which the program
 does not notice, yields zeros.
 */
module HnswPersistence {
  import opened Sequences
  import opened Results
  import opened HnswGraph
  import opened HnswState
  import opened HnswRuns
  import opened HnswIndexes
  import opened Vectors

  datatype Cell = Number(n: nat) | Scalar(x: real)

  const MAGIC: nat := 0x564442

  // ------------------------------------------------------------------------- writing

  function NumberCells(ids: seq<nat>): (cells: seq<Cell>)
    ensures |cells| == |ids| && forall i :: 0 <= i < |ids| ==> cells[i] == Number(ids[i])
  {
    seq(|ids|, i requires 0 <= i < |ids| => Number(ids[i]))
  }

  function ScalarCells(v: Vector): (cells: seq<Cell>)
    ensures |cells| == |v| && forall i :: 0 <= i < |v| ==> cells[i] == Scalar(v[i])
  {
    seq(|v|, i requires 0 <= i < |v| => Scalar(v[i]))
  }

  /** A connection list is preceded by its length. */
  function ListCells(list: seq<VectorId>): seq<Cell> { [Number(|list|)] + NumberCells(list) }

  ghost function ListsCells(lists: seq<seq<VectorId>>): seq<Cell> {
    if lists == [] then [] else ListsCells(lists[..|lists| - 1]) + ListCells(lists[|lists| - 1])
  }

  ghost function NodeCells(node: Node): seq<Cell> {
    [Number(node.id), Number(node.level)] + ScalarCells(node.vector) + ListsCells(node.connections)
  }

  ghost function NodesCells(nodes: seq<Node>): seq<Cell> {
    if nodes == [] then [] else NodesCells(nodes[..|nodes| - 1]) + NodeCells(nodes[|nodes| - 1])
  }

  /** Version, configuration and state; 13 cells. */
  function HeaderCells(cfg: Config, s: State): (cells: seq<Cell>)
    ensures |cells| == 13
  {
    [Number(MAGIC), Number(2),
     Number(cfg.dimension), Number(cfg.M), Number(cfg.metric),
     Number(cfg.maxElements), Number(cfg.efConstruction), Number(cfg.efSearch), Number(cfg.seed),
     Number(s.elementCount), Number(s.maxLevel), Number(s.entryPoint),
     Number(|s.graph.nodes|)]
  }

  ghost function SavedCells(cfg: Config, s: State): seq<Cell> {
    HeaderCells(cfg, s) + NodesCells(s.graph.nodes)
  }

  /** How many cells the lists of the layers below l take. */
  function LengthBefore(lists: seq<seq<VectorId>>, l: nat): nat
    requires l <= |lists|
  {
    if l == 0 then 0 else LengthBefore(lists, l - 1) + 1 + |lists[l-1]|
  }

  /** From place `at` on the cells hold a list behind its length. */
  ghost predicate ListStands(cells: seq<Cell>, at: nat, list: seq<VectorId>) {
    && at + 1 + |list| <= |cells| && cells[at] == Number(|list|)
    && forall k :: 0 <= k < |list| ==> cells[at + 1 + k] == Number(list[k])
  }

  lemma {:induction false} ListLayout(lists: seq<seq<VectorId>>, l: nat)
    requires l < |lists|
    ensures ListStands(ListsCells(lists), LengthBefore(lists, l), lists[l])
    decreases |lists|
  {
    var n := |lists| - 1;
    var front := ListsCells(lists[..n]);
    SameLengths(lists[..n], lists, n);
    ListsLength(lists[..n]);
    assert ListsCells(lists) == front + ListCells(lists[n]);
    if l < n {
      ListLayout(lists[..n], l);
      SameLengths(lists[..n], lists, l);
      assert ListStands(front, LengthBefore(lists, l), lists[l]);
    }
  }

  lemma {:induction false} ListsLength(lists: seq<seq<VectorId>>)
    ensures |ListsCells(lists)| == LengthBefore(lists, |lists|)
  {
    if lists != [] {
      var n := |lists| - 1;
      ListsLength(lists[..n]);
      SameLengths(lists[..n], lists, n);
    }
  }

  lemma {:induction false} SameLengths(front: seq<seq<VectorId>>, lists: seq<seq<VectorId>>, l: nat)
    requires front <= lists && l <= |front|
    ensures LengthBefore(front, l) == LengthBefore(lists, l)
  {
    if l > 0 {
      SameLengths(front, lists, l - 1);
    }
  }

  /** A node is written as its id, its level, its vector, and for each layer from the bottom up the number of its
      neighbours and their ids; nothing says whether it is deleted. */
  lemma NodeLayout(node: Node, l: nat)
    requires l < |node.connections|
    ensures var cells, dim := NodeCells(node), |node.vector|;
            && 2 + dim <= |cells| && cells[0] == Number(node.id) && cells[1] == Number(node.level)
            && (forall k :: 0 <= k < dim ==> cells[2 + k] == Scalar(node.vector[k]))
            && ListStands(cells[2 + dim..], LengthBefore(node.connections, l), node.connections[l])
    ensures NodeCells(node.(deleted := !node.deleted)) == NodeCells(node)
  {
    ListLayout(node.connections, l);
    assert NodeCells(node)[2 + |node.vector|..] == ListsCells(node.connections);
  }

  method Save(index: HnswIndex) returns (file: seq<Cell>)
    requires index.Valid()
    ensures file == SavedCells(index.cfg, index.S())
    ensures |file| >= 13 && file[..13] == [
              Number(0x564442), Number(2), Number(index.cfg.dimension), Number(index.cfg.M), Number(index.cfg.metric),
              Number(index.cfg.maxElements), Number(index.cfg.efConstruction), Number(index.cfg.efSearch),
              Number(index.cfg.seed), Number(index.elementCount), Number(index.maxLevel), Number(index.entryPoint),
              Number(|index.nodes|)]
  {
    file := HeaderCells(index.cfg, State(Graph(index.nodes, index.idToIndex), index.entryPoint,
                                         index.maxLevel, index.elementCount));
    file := SaveNodes(index.nodes, file);
  }

  method SaveNodes(nodes: seq<Node>, header: seq<Cell>) returns (file: seq<Cell>)
    requires NodesOk(nodes)
    ensures file == header + NodesCells(nodes)
  {
    file := header;
    for i := 0 to |nodes|
      invariant file == header + NodesCells(nodes[..i])
    {
      hide NodeCells;
      assert nodes[..i + 1][..i] == nodes[..i];
      var cells := SaveNode(nodes[i]);
      file := file + cells;
    }
    assert nodes[..|nodes|] == nodes;
  }

  method SaveNode(node: Node) returns (cells: seq<Cell>)
    requires |node.connections| == node.level + 1
    ensures cells == NodeCells(node)
  {
    cells := [Number(node.id), Number(node.level)] + ScalarCells(node.vector);
    ghost var start := cells;
    for lv := 0 to node.level + 1
      invariant cells == start + ListsCells(node.connections[..lv])
    {
      assert node.connections[..lv + 1][..lv] == node.connections[..lv];
      cells := cells + ListCells(node.connections[lv]);
    }
    assert node.connections[..|node.connections|] == node.connections;
  }

  // ------------------------------------------------------------------------- reading

  function NumberAt(file: seq<Cell>, pos: nat): nat {
    if pos < |file| && file[pos].Number? then file[pos].n else 0
  }

  function ScalarAt(file: seq<Cell>, pos: nat): real {
    if pos < |file| && file[pos].Scalar? then file[pos].x else 0.0
  }

  function NumbersAt(file: seq<Cell>, pos: nat, n: nat): seq<nat> {
    seq<nat>(n, i requires 0 <= i < n => NumberAt(file, pos + i))
  }

  function ScalarsAt(file: seq<Cell>, pos: nat, n: nat): Vector {
    seq(n, i requires 0 <= i < n => ScalarAt(file, pos + i))
  }

  /** The first n connection lists found from `pos` on, and where they end. */
  ghost function ListsAt(file: seq<Cell>, pos: nat, n: nat): (seq<seq<VectorId>>, nat) {
    if n == 0 then ([], pos)
    else
      var (lists, p) := ListsAt(file, pos, n - 1);
      (lists + [NumbersAt(file, p + 1, NumberAt(file, p))], p + 1 + NumberAt(file, p))
  }

  /** A node found at `pos`; it is not marked deleted, whatever it was when it was saved. */
  ghost function NodeAt(file: seq<Cell>, pos: nat, dimension: nat): (Node, nat) {
    var level := NumberAt(file, pos + 1);
    var (lists, p) := ListsAt(file, pos + 2 + dimension, level + 1);
    (Node(NumberAt(file, pos), level, lists, ScalarsAt(file, pos + 2, dimension), false), p)
  }

  ghost function NodesAt(file: seq<Cell>, pos: nat, dimension: nat, n: nat): (seq<Node>, nat) {
    if n == 0 then ([], pos)
    else
      var (nodes, p) := NodesAt(file, pos, dimension, n - 1);
      var (node, q) := NodeAt(file, p, dimension);
      (nodes + [node], q)
  }

  /** Each node entered under its id; a later node takes the place of an earlier one. */
  ghost function TableOf(nodes: seq<Node>): map<VectorId, nat> {
    if nodes == [] then map[] else TableOf(nodes[..|nodes| - 1])[nodes[|nodes| - 1].id := |nodes| - 1]
  }

  predicate KnownHeader(file: seq<Cell>) { NumberAt(file, 0) == MAGIC && NumberAt(file, 1) in {1, 2} }

  /** Files of version 1 lack four fields, which then take their default values. */
  function LoadedConfig(file: seq<Cell>, defaults: Config): Config {
    if NumberAt(file, 1) == 2
    then Config(NumberAt(file, 2), NumberAt(file, 5), NumberAt(file, 3), NumberAt(file, 6), NumberAt(file, 7),
                NumberAt(file, 4), NumberAt(file, 8))
    else defaults.(dimension := NumberAt(file, 2), M := NumberAt(file, 3), metric := NumberAt(file, 4))
  }

  function StateStart(file: seq<Cell>): nat { if NumberAt(file, 1) == 2 then 9 else 5 }

  ghost function LoadedState(file: seq<Cell>, defaults: Config): State {
    var p := StateStart(file);
    var nodes := NodesAt(file, p + 4, LoadedConfig(file, defaults).dimension, NumberAt(file, p + 3)).0;
    State(Graph(nodes, TableOf(nodes)), NumberAt(file, p + 2), NumberAt(file, p + 1), NumberAt(file, p))
  }

  /** The metric number in the file decides which distance the loaded index computes. */
  method Load(file: seq<Cell>, spaceOf: nat -> Space, defaults: Config) returns (r: Result<HnswIndex>)
    ensures if |file| >= 2 && file[0] == Number(0x564442) && (file[1] == Number(1) || file[1] == Number(2))
            then r.Ok? else r == Err(IndexCorrupted)
    ensures r.Ok? ==> fresh(r.value)
    ensures r.Ok? ==> r.value.cfg == LoadedConfig(file, defaults) && r.value.S() == LoadedState(file, defaults)
    ensures r.Ok? ==> r.value.space == spaceOf(r.value.cfg.metric)
  {
    if NumberAt(file, 0) != MAGIC {
      return Err(IndexCorrupted);
    }
    if NumberAt(file, 1) != 1 && NumberAt(file, 1) != 2 {
      return Err(IndexCorrupted);
    }
    var config := LoadedConfig(file, defaults);
    var index := new HnswIndex(config, spaceOf(config.metric));
    var p := StateStart(file);
    index.elementCount := NumberAt(file, p);
    index.maxLevel := NumberAt(file, p + 1);
    index.entryPoint := NumberAt(file, p + 2);
    index.nodes, index.idToIndex := LoadNodes(file, p + 4, config.dimension, NumberAt(file, p + 3));
    return Ok(index);
  }

  method LoadNodes(file: seq<Cell>, start: nat, dimension: nat, count: nat)
    returns (nodes: seq<Node>, table: map<VectorId, nat>)
    ensures nodes == NodesAt(file, start, dimension, count).0
    ensures table == TableOf(nodes)
  {
    nodes, table := [], map[];
    var pos := start;
    for i := 0 to count
      invariant (nodes, pos) == NodesAt(file, start, dimension, i)
      invariant table == TableOf(nodes)
    {
      var node;
      node, pos := LoadNode(file, pos, dimension);
      table := table[node.id := |nodes|];
      assert (nodes + [node])[..|nodes|] == nodes;
      nodes := nodes + [node];
    }
  }

  method LoadNode(file: seq<Cell>, start: nat, dimension: nat) returns (node: Node, pos: nat)
    ensures (node, pos) == NodeAt(file, start, dimension)
  {
    var id, level := NumberAt(file, start), NumberAt(file, start + 1);
    var vector := ScalarsAt(file, start + 2, dimension);
    var connections: seq<seq<VectorId>> := [];
    pos := start + 2 + dimension;
    for lv := 0 to level + 1
      invariant (connections, pos) == ListsAt(file, start + 2 + dimension, lv)
    {
      var count := NumberAt(file, pos);
      connections := connections + [NumbersAt(file, pos + 1, count)];
      pos := pos + 1 + count;
    }
    node := Node(id, level, connections, vector, false);
  }

  // ---------------------------------------------------------------- save, then load

  /** `cells` stands in the file at `pos`. */
  ghost predicate Holds(file: seq<Cell>, pos: nat, cells: seq<Cell>) {
    pos + |cells| <= |file| && file[pos..pos + |cells|] == cells
  }

  lemma HoldsParts(file: seq<Cell>, pos: nat, a: seq<Cell>, b: seq<Cell>)
    requires Holds(file, pos, a + b)
    ensures Holds(file, pos, a) && Holds(file, pos + |a|, b)
  {
    var whole := file[pos..pos + |a + b|];
    assert whole[..|a|] == a && whole[|a|..] == b;
    assert file[pos..pos + |a|] == whole[..|a|];
    assert file[pos + |a|..pos + |a| + |b|] == whole[|a|..];
  }

  lemma HoldsAt(file: seq<Cell>, pos: nat, cells: seq<Cell>, i: nat)
    requires Holds(file, pos, cells) && i < |cells|
    ensures pos + i < |file| && file[pos + i] == cells[i]
  {
    assert file[pos..pos + |cells|][i] == cells[i];
  }

  lemma ListReadBack(file: seq<Cell>, pos: nat, list: seq<VectorId>)
    requires Holds(file, pos, ListCells(list))
    ensures NumberAt(file, pos) == |list| && NumbersAt(file, pos + 1, |list|) == list
  {
    HoldsAt(file, pos, ListCells(list), 0);
    forall i | 0 <= i < |list|
      ensures NumberAt(file, pos + 1 + i) == list[i]
    {
      HoldsAt(file, pos, ListCells(list), 1 + i);
    }
  }

  lemma {:induction false} ListsReadBack(file: seq<Cell>, pos: nat, lists: seq<seq<VectorId>>)
    requires Holds(file, pos, ListsCells(lists))
    ensures ListsAt(file, pos, |lists|) == (lists, pos + |ListsCells(lists)|)
  {
    if lists != [] {
      var n := |lists| - 1;
      HoldsParts(file, pos, ListsCells(lists[..n]), ListCells(lists[n]));
      ListsReadBack(file, pos, lists[..n]);
      ListReadBack(file, pos + |ListsCells(lists[..n])|, lists[n]);
      assert lists[..n] + [lists[n]] == lists;
    }
  }

  lemma VectorReadBack(file: seq<Cell>, pos: nat, v: Vector)
    requires Holds(file, pos, ScalarCells(v))
    ensures ScalarsAt(file, pos, |v|) == v
  {
    forall i | 0 <= i < |v|
      ensures ScalarAt(file, pos + i) == v[i]
    {
      HoldsAt(file, pos, ScalarCells(v), i);
    }
  }

  lemma NodeReadBack(file: seq<Cell>, pos: nat, node: Node, dimension: nat)
    requires Holds(file, pos, NodeCells(node))
    requires |node.vector| == dimension && |node.connections| == node.level + 1
    ensures NodeAt(file, pos, dimension) == (node.(deleted := false), pos + |NodeCells(node)|)
  {
    hide ListsCells, ListsAt, Holds;
    var head := [Number(node.id), Number(node.level)];
    HoldsParts(file, pos, head + ScalarCells(node.vector), ListsCells(node.connections));
    HoldsParts(file, pos, head, ScalarCells(node.vector));
    HoldsAt(file, pos, head, 0);
    HoldsAt(file, pos, head, 1);
    VectorReadBack(file, pos + 2, node.vector);
    ListsReadBack(file, pos + 2 + dimension, node.connections);
  }

  /** The nodes as they come back: none is deleted. */
  ghost function Revived(nodes: seq<Node>): (revived: seq<Node>)
    ensures |revived| == |nodes|
    ensures forall i :: 0 <= i < |nodes| ==> revived[i] == nodes[i].(deleted := false)
  {
    seq(|nodes|, i requires 0 <= i < |nodes| => nodes[i].(deleted := false))
  }

  ghost predicate Storable(nodes: seq<Node>, dimension: nat) {
    forall i :: 0 <= i < |nodes| ==> |nodes[i].vector| == dimension && |nodes[i].connections| == nodes[i].level + 1
  }

  lemma {:induction false} NodesReadBack(file: seq<Cell>, pos: nat, nodes: seq<Node>, dimension: nat)
    requires Holds(file, pos, NodesCells(nodes)) && Storable(nodes, dimension)
    ensures NodesAt(file, pos, dimension, |nodes|) == (Revived(nodes), pos + |NodesCells(nodes)|)
  {
    hide NodeCells, NodeAt, Holds;
    if nodes != [] {
      var n := |nodes| - 1;
      HoldsParts(file, pos, NodesCells(nodes[..n]), NodeCells(nodes[n]));
      NodesReadBack(file, pos, nodes[..n], dimension);
      NodeReadBack(file, pos + |NodesCells(nodes[..n])|, nodes[n], dimension);
      assert Revived(nodes[..n]) + [nodes[n].(deleted := false)] == Revived(nodes);
    }
  }

  /** The index as it comes back from a file. */
  ghost function Reopened(s: State): State {
    s.(graph := Graph(Revived(s.graph.nodes), TableOf(Revived(s.graph.nodes))))
  }

  /** Loading a saved file gives back configuration, counters, vectors and lists; deletion marks are lost. */
  lemma SavedReadsBack(cfg: Config, s: State, defaults: Config)
    requires Consistent(cfg, s)
    ensures var file := SavedCells(cfg, s);
            KnownHeader(file) && LoadedConfig(file, defaults) == cfg && LoadedState(file, defaults) == Reopened(s)
  {
    assert Storable(s.graph.nodes, cfg.dimension);
    var file, cells := SavedCells(cfg, s), NodesCells(s.graph.nodes);
    HeaderReadBack(cfg, s, cells, defaults);
    hide HeaderCells, NodesCells, LoadedConfig, StateStart;
    assert file[13..13 + |cells|] == cells;
    NodesReadBack(file, 13, s.graph.nodes, cfg.dimension);
  }

  lemma HeaderReadBack(cfg: Config, s: State, rest: seq<Cell>, defaults: Config)
    ensures var file := HeaderCells(cfg, s) + rest;
      && KnownHeader(file) && LoadedConfig(file, defaults) == cfg && StateStart(file) == 9
      && NumberAt(file, 9) == s.elementCount && NumberAt(file, 10) == s.maxLevel
      && NumberAt(file, 11) == s.entryPoint && NumberAt(file, 12) == |s.graph.nodes|
  {
    var file, header := HeaderCells(cfg, s) + rest, HeaderCells(cfg, s);
    assert file[0] == header[0] && file[1] == header[1] && file[2] == header[2] && file[3] == header[3];
    assert file[4] == header[4] && file[5] == header[5] && file[6] == header[6];
    assert file[7] == header[7] && file[8] == header[8];
    assert file[9] == header[9] && file[10] == header[10] && file[11] == header[11] && file[12] == header[12];
  }

  lemma {:induction false} TableOfDistinct(nodes: seq<Node>)
    requires forall i, j :: 0 <= i < j < |nodes| ==> nodes[i].id != nodes[j].id
    ensures forall i :: 0 <= i < |nodes| ==> nodes[i].id in TableOf(nodes) && TableOf(nodes)[nodes[i].id] == i
    ensures forall id :: id in TableOf(nodes) ==> TableOf(nodes)[id] < |nodes| && nodes[TableOf(nodes)[id]].id == id
    ensures |TableOf(nodes)| == |nodes|
  {
    if nodes != [] {
      var n := |nodes| - 1;
      var before := TableOf(nodes[..n]);
      TableOfDistinct(nodes[..n]);
      assert forall i :: 0 <= i < n ==> nodes[..n][i] == nodes[i];
      assert TableOf(nodes) == before[nodes[n].id := n];
      hide TableOf;
      assert nodes[n].id !in before;
      OneMoreKey(before, nodes[n].id, n);
    }
  }

  lemma OneMoreKey(table: map<VectorId, nat>, id: VectorId, i: nat)
    requires id !in table
    ensures |table[id := i]| == |table| + 1
  {
    assert table[id := i].Keys == table.Keys + {id};
    assert |table[id := i]| == |table[id := i].Keys|;
  }

  /** Every id that was ever added answers again after loading, removed or not. */
  lemma ReopenedKnowsEveryId(cfg: Config, s: State, id: VectorId)
    requires Consistent(cfg, s)
    ensures Live(Reopened(s).graph, id) <==> !Fresh(s, id)
  {
    var nodes := Revived(s.graph.nodes);
    TableOfDistinct(nodes);
    if !Fresh(s, id) {
      var i :| 0 <= i < |s.graph.nodes| && s.graph.nodes[i].id == id;
      assert nodes[i].id == id;
    }
  }

  /** What comes back from the file of an index is that index exactly when no node of it was marked deleted;
      otherwise it is not even consistent, since its element count no longer is the number of its nodes. */
  lemma LoadRestoresExactlyWhen(cfg: Config, s: State, defaults: Config)
    requires Consistent(cfg, s)
    ensures var loaded := LoadedState(SavedCells(cfg, s), defaults);
            && (loaded == s <==> AllLive(s.graph))
            && (Consistent(cfg, loaded) <==> AllLive(s.graph))
  {
    SavedReadsBack(cfg, s, defaults);
    hide SavedCells, LoadedState;
    TableOfDistinct(Revived(s.graph.nodes));
    if AllLive(s.graph) {
      assert Revived(s.graph.nodes) == s.graph.nodes;
      SameTable(s.graph);
    } else {
      DeletedNotCounted(cfg, s);
    }
  }

  /** Saves an index and loads what was written. */
  method SaveAndLoad(index: HnswIndex, spaceOf: nat -> Space, defaults: Config) returns (loaded: HnswIndex)
    requires index.Valid() && index.space == spaceOf(index.cfg.metric)
    ensures fresh(loaded) && loaded.cfg == index.cfg && loaded.space == index.space
    ensures loaded.S() == Reopened(index.S())
    ensures loaded.S() == index.S() <==> AllLive(index.G())
    ensures loaded.Valid() <==> AllLive(index.G())
  {
    var file := Save(index);
    SavedReadsBack(index.cfg, index.S(), defaults);
    LoadRestoresExactlyWhen(index.cfg, index.S(), defaults);
    hide *;
    var r := Load(file, spaceOf, defaults);
    loaded := r.value;
  }

  /** A run of the index survives saving and loading exactly when it removed nothing. */
  lemma RunSurvivesExactlyWhen(space: Space, cfg: Config, ops: seq<Op>, states: seq<State>, n: nat, defaults: Config)
    requires Run(space, cfg, ops, states) && n <= |ops|
    ensures LoadedState(SavedCells(cfg, states[n]), defaults) == states[n]
            <==> forall i :: 0 <= i < n ==> ops[i].Add?
  {
    EveryRunConsistent(space, cfg, ops, states, n);
    LoadRestoresExactlyWhen(cfg, states[n], defaults);
    AllLiveExactlyWhen(space, cfg, ops, states, n);
  }

  lemma {:induction false} AllLiveExactlyWhen(space: Space, cfg: Config, ops: seq<Op>, states: seq<State>, n: nat)
    requires Run(space, cfg, ops, states) && n <= |ops|
    ensures AllLive(states[n].graph) <==> forall i :: 0 <= i < n ==> ops[i].Add?
  {
    if n > 0 {
      AllLiveExactlyWhen(space, cfg, ops, states, n - 1);
      StepLive(space, cfg, states[n - 1], ops[n - 1], states[n]);
    }
  }

  lemma StepLive(space: Space, cfg: Config, s: State, op: Op, t: State)
    requires Step(space, cfg, s, op, t)
    ensures AllLive(t.graph) <==> AllLive(s.graph) && op.Add?
  {
    match op
    case Add(id, vector, level) =>
      AddKeepsHeaders(space, cfg, s, id, vector, level, t);
      HeadersLive(s.graph.nodes, t.graph.nodes, NewNode(id, vector, level));
    case Remove(id) =>
      assert t.graph.nodes[s.graph.index[id]].deleted;
  }

  lemma HeadersLive(before: seq<Node>, after: seq<Node>, added: Node)
    requires |after| == |before| + 1 && !added.deleted && SameHeader(added, after[|before|])
    requires forall i :: 0 <= i < |before| ==> SameHeader(before[i], after[i])
    ensures (forall i :: 0 <= i < |after| ==> !after[i].deleted) <==>
            (forall i :: 0 <= i < |before| ==> !before[i].deleted)
  {
    forall i | 0 <= i < |before|
      ensures after[i].deleted == before[i].deleted
    {
      assert SameHeader(before[i], after[i]);
    }
  }

  lemma SameTable(g: Graph)
    requires NodesOk(g.nodes) && TableOk(g) && AllLive(g)
    ensures TableOf(g.nodes) == g.index
  {
    TableOfDistinct(g.nodes);
    forall id | id in g.index
      ensures id in TableOf(g.nodes) && TableOf(g.nodes)[id] == g.index[id]
    {
      assert g.nodes[g.index[id]].id == id;
    }
  }

  lemma DeletedNotCounted(cfg: Config, s: State)
    requires Consistent(cfg, s) && !AllLive(s.graph)
    ensures s.elementCount < |s.graph.nodes|
  {
    var i :| 0 <= i < |s.graph.nodes| && s.graph.nodes[i].deleted;
    var live := set j | 0 <= j < |s.graph.nodes| && !s.graph.nodes[j].deleted;
    var positions := seq(|s.graph.nodes|, j => j);
    CountIsLiveNodes(cfg, s);
    NoDupLength(positions);
    assert i == positions[i] && i in SetOf(positions);
    forall j | j in live
      ensures j in SetOf(positions) - {i}
    {
      assert positions[j] == j;
    }
    SubsetSize(live, SetOf(positions) - {i});
  }
}
