/**
 The brute-force index, and its agreement with the HNSW index.
 */
module FlatIndexes {
  import opened Results
  import opened Sequences
  import opened Ranking
  import VectorOps
  import opened HnswGraph
  import opened HnswState
  import opened HnswRuns
  import opened HnswSearch
  import opened Vectors

  class FlatIndex {
    const dimension: nat
    const metric: VectorOps.Metric
    var ids: seq<VectorId>
    var vectors: seq<Vector>
    var idToIndex: map<VectorId, nat>

    ghost predicate Valid()
      reads this
    {
      && |ids| == |vectors|
      && NoDup(ids)
      && (forall i :: 0 <= i < |ids| ==> ids[i] in idToIndex && idToIndex[ids[i]] == i)
      && (forall id :: id in idToIndex ==> idToIndex[id] < |ids| && ids[idToIndex[id]] == id)
    }

    /** The stored vector of each id. */
    ghost function Contents(): map<VectorId, Vector>
      requires Valid()
      reads this
    {
      map id | id in idToIndex :: vectors[idToIndex[id]]
    }

    constructor (dimension: nat, metric: VectorOps.Metric)
      ensures Valid() && Contents() == map[]
      ensures this.dimension == dimension && this.metric == metric
    {
      this.dimension := dimension;
      this.metric := metric;
      ids, vectors, idToIndex := [], [], map[];
    }

    method Add(id: VectorId, vector: Vector) returns (r: Status)
      requires Valid()
      modifies this
      ensures Valid()
      ensures r == if |vector| != dimension then Err(InvalidDimension)
                   else if id in old(Contents()) then Err(InvalidVectorId)
                   else Ok(())
      ensures Contents() == if r.Ok? then old(Contents())[id := vector] else old(Contents())
    {
      if |vector| != dimension {
        return Err(InvalidDimension);
      }
      if id in idToIndex {
        return Err(InvalidVectorId);
      }
      idToIndex := idToIndex[id := |vectors|];
      ids := ids + [id];
      vectors := vectors + [vector];
      return Ok(());
    }

    method Search(query: Vector, k: nat) returns (results: seq<SearchResult>)
      requires Valid()
      ensures |query| != dimension ==> results == []
      ensures |query| == dimension ==> ShowsBest(Table(metric, Contents(), query), k, results)
    {
      if |query| != dimension {
        return [];
      }
      var found := VectorOps.BruteForceKnn(query, vectors, k, metric);
      results := [];
      for i := 0 to |found|
        invariant |results| == i
        invariant forall j :: 0 <= j < |found| ==> found[j] in found && found[j].id < |ids|
        invariant forall j :: 0 <= j < i ==> results[j] == SearchResult(ids[found[j].id], found[j].distance)
      {
        results := results + [SearchResult(ids[found[i].id], found[i].distance)];
      }
      RenamedBest(VectorOps.Positions(query, vectors, metric), ids, Table(metric, Contents(), query), k, found,
          results);
    }
  }

  /** Renaming positions to distinct ids carries a best-k answer over to the renamed table. */
  lemma RenamedBest(positions: map<nat, real>, ids: seq<VectorId>, table: map<VectorId, real>, k: nat,
                    found: seq<SearchResult>, results: seq<SearchResult>)
    requires NoDup(ids)
    requires forall i: nat :: i in positions <==> i < |ids|
    requires forall x :: x in table <==> x in ids
    requires forall i :: 0 <= i < |ids| ==> table[ids[i]] == positions[i]
    requires ShowsBest(positions, k, found)
    requires |results| == |found|
    requires forall j :: 0 <= j < |found| ==>
            found[j].id < |ids| && results[j] == SearchResult(ids[found[j].id], found[j].distance)
    ensures ShowsBest(table, k, results)
  {
    RenamedSize(positions, ids, table);
    forall j | 0 <= j < |found|
      ensures found[j].id in positions && found[j].distance == positions[found[j].id]
      ensures results[j].id in table && results[j].distance == table[results[j].id]
    {
      assert found[j] in found;
    }
    var best, was := Ids(results), Ids(found);
    forall i, j | 0 <= i < j < |best|
      ensures best[i] != best[j] && table[best[i]] <= table[best[j]]
    {
      assert was[i] != was[j] && positions[was[i]] <= positions[was[j]];
    }
    forall x, i | x in table && x !in best && 0 <= i < |best|
      ensures table[best[i]] <= table[x]
    {
      var p :| 0 <= p < |ids| && ids[p] == x;
      RenamedMember(ids, found, results, p);
      assert positions[was[i]] <= positions[p];
    }
  }

  lemma RenamedMember(ids: seq<VectorId>, found: seq<SearchResult>, results: seq<SearchResult>, p: nat)
    requires p < |ids| && |results| == |found|
    requires forall j :: 0 <= j < |found| ==> found[j].id < |ids| && results[j].id == ids[found[j].id]
    ensures p in Ids(found) ==> ids[p] in Ids(results)
  {
    if p in Ids(found) {
      var j :| 0 <= j < |found| && Ids(found)[j] == p;
      assert Ids(results)[j] == ids[p];
    }
  }

  lemma RenamedSize(positions: map<nat, real>, ids: seq<VectorId>, table: map<VectorId, real>)
    requires NoDup(ids)
    requires forall i: nat :: i in positions <==> i < |ids|
    requires forall x :: x in table <==> x in ids
    ensures |positions| == |ids| == |table|
  {
    var range := seq(|ids|, i => i);
    assert NoDup(range);
    NoDupLength(range);
    NoDupLength(ids);
    forall i: nat | i < |ids|
      ensures i in SetOf(range)
    {
      assert range[i] == i;
    }
    assert positions.Keys == SetOf(range);
    assert table.Keys == SetOf(ids);
  }

  /** The vector of each id the graph looks up. */
  ghost function LiveVectors(g: Graph): map<VectorId, Vector> {
    map id | id in g.index && g.index[id] < |g.nodes| :: g.nodes[g.index[id]].vector
  }

  ghost function Table(metric: (Vector, Vector) -> real, contents: map<VectorId, Vector>,
                       query: Vector): map<VectorId, real>
  {
    map id | id in contents :: metric(query, contents[id])
  }

  lemma SameTable(space: Space, g: Graph, query: Vector)
    requires IndexOk(g)
    ensures Table(space.distance, LiveVectors(g), query) == Distances(space, g, query)
  {
  }

  /** After any insert-only run of at most 2M + 1 fresh ids, a search with a wide enough beam lists the
      same distances as the brute-force index over the same vectors: the two differ in ties only. */
  lemma SmallRunAgreesWithFlat(space: Space, cfg: Config, ops: seq<Op>, states: seq<State>, query: Vector, k: nat,
                               results: seq<SearchResult>, flat: seq<SearchResult>)
    requires Run(space, cfg, ops, states)
    requires cfg.M >= 1 && |ops| <= 2 * cfg.M + 1 && cfg.efSearch >= |ops|
    requires forall i :: 0 <= i < |ops| ==> ops[i].Add?
    requires |query| == cfg.dimension
    requires SearchAnswer(space, cfg, states[|ops|], query, k, results)
    requires ShowsBest(Table(space.distance, LiveVectors(states[|ops|].graph), query), k, flat)
    ensures |results| == |flat| == Min(k, |ops|)
    ensures forall i :: 0 <= i < |flat| ==> results[i].distance == flat[i].distance
  {
    EveryRunConsistent(space, cfg, ops, states, |ops|);
    SameTable(space, states[|ops|].graph, query);
    SmallRunSearchExact(space, cfg, ops, states, query, k, results, flat);
  }
}
