/**
 What a search of the HNSW index answers, and when that answer is exact.
 */
module HnswSearch {
  import opened Sequences
  import opened Ranking
  import opened HnswGraph
  import opened HnswBeam
  import opened HnswState
  import opened HnswRuns
  import opened Vectors

  /** Each id with its distance to the query. */
  function Labelled(space: Space, g: Graph, query: Vector, ids: seq<VectorId>): (results: seq<SearchResult>)
    ensures |results| == |ids|
    ensures forall i :: 0 <= i < |ids| ==> results[i] == SearchResult(ids[i], DistanceTo(space, g, query, ids[i]))
  {
    seq(|ids|, i requires 0 <= i < |ids| => SearchResult(ids[i], DistanceTo(space, g, query, ids[i])))
  }

  /** `found` is the bottom-layer beam from the node that the descent reached from the entry point: no
      farther from the query than the entry point, and live exactly when the entry point is. */
  ghost predicate SearchedFrom(space: Space, cfg: Config, s: State, query: Vector, start: VectorId,
                               found: seq<VectorId>)
  {
    && Descends(space, s.graph, query, s.entryPoint, s.maxLevel, 0, start)
    && (Live(s.graph, start) <==> Live(s.graph, s.entryPoint))
    && if Live(s.graph, start)
       then
         && DistanceTo(space, s.graph, query, start) <= DistanceTo(space, s.graph, query, s.entryPoint)
         && BeamResult(space, s.graph, query, start, 0, Width(cfg.efSearch), found)
       else found == []
  }

  ghost predicate SearchAnswer(space: Space, cfg: Config, s: State, query: Vector, k: nat, results: seq<SearchResult>) {
    if |query| != cfg.dimension || s.elementCount == 0 then results == []
    else exists start, found :: SearchedFrom(space, cfg, s, query, start, found)
                                && results == Labelled(space, s.graph, query, found[..Min(k, |found|)])
  }

  /** The beam behind an answer. */
  lemma AnswerBeam(space: Space, cfg: Config, s: State, query: Vector, k: nat, results: seq<SearchResult>)
    returns (start: VectorId, found: seq<VectorId>)
    requires SearchAnswer(space, cfg, s, query, k, results)
    requires |query| == cfg.dimension && s.elementCount > 0
    ensures results == Labelled(space, s.graph, query, found[..Min(k, |found|)])
    ensures Live(s.graph, start) <==> Live(s.graph, s.entryPoint)
    ensures !Live(s.graph, start) ==> found == []
    ensures Live(s.graph, start) ==>
              && BeamResult(space, s.graph, query, start, 0, Width(cfg.efSearch), found) && found != []
              && DistanceTo(space, s.graph, query, start) <= DistanceTo(space, s.graph, query, s.entryPoint)
  {
    start, found :| SearchedFrom(space, cfg, s, query, start, found)
                    && results == Labelled(space, s.graph, query, found[..Min(k, |found|)]);
  }

  /** An answer is made of at most k distinct live ids in ascending order of their true distance, of equally distant
      ones the smaller id first. */
  lemma AnswerIsSorted(space: Space, cfg: Config, s: State, query: Vector, k: nat, results: seq<SearchResult>)
    requires SearchAnswer(space, cfg, s, query, k, results)
    ensures |results| <= k && NoDup(Ids(results))
    ensures forall r :: r in results ==> Live(s.graph, r.id) && r.distance == DistanceTo(space, s.graph, query, r.id)
    ensures forall i, j :: 0 <= i < j < |results| ==>
                             || results[i].distance < results[j].distance
                             || (results[i].distance == results[j].distance && results[i].id < results[j].id)
  {
    if results != [] {
      var start, found := AnswerBeam(space, cfg, s, query, k, results);
      hide SearchAnswer;
      BeamIsSorted(space, s.graph, query, start, Width(cfg.efSearch), found);
      assert NoDup(found[..|results|]);
    }
  }

  lemma BeamIsSorted(space: Space, g: Graph, query: Vector, start: VectorId, width: nat, found: seq<VectorId>)
    requires BeamResult(space, g, query, start, 0, width, found)
    ensures NoDup(found) && forall x :: x in found ==> Live(g, x)
    ensures forall i, j :: 0 <= i < j < |found| ==>
                             var x, y := DistanceTo(space, g, query, found[i]), DistanceTo(space, g, query, found[j]);
                             x < y || (x == y && found[i] < found[j])
  {
    BeamNoDup(space, g, query, start, 0, width, found);
    var evaluated :| Beam(space, g, query, start, 0, width, found, evaluated);
    forall i, j | 0 <= i < j < |found|
      ensures var x, y := DistanceTo(space, g, query, found[i]), DistanceTo(space, g, query, found[j]);
              x < y || (x == y && found[i] < found[j])
    {
      assert Before(EntryOf(space, g, query, found[i]), EntryOf(space, g, query, found[j]));
    }
  }

  /** Once the entry point has been removed a search finds nothing, however many elements are left;
      while it is live a search for at least one neighbour finds something. */
  lemma AnswerEmptyExactlyWhen(space: Space, cfg: Config, s: State, query: Vector, k: nat, results: seq<SearchResult>)
    requires Consistent(cfg, s)
    requires SearchAnswer(space, cfg, s, query, k, results)
    ensures results == [] <==> |query| != cfg.dimension || k == 0 || !Live(s.graph, s.entryPoint)
  {
    if |query| == cfg.dimension && s.elementCount > 0 {
      var start, found := AnswerBeam(space, cfg, s, query, k, results);
    } else if s.elementCount == 0 {
      assert s.graph.index == map[];
    }
  }

  /** The first hit is at least as near as the entry point. */
  lemma AnswerBeatsEntry(space: Space, cfg: Config, s: State, query: Vector, k: nat, results: seq<SearchResult>)
    requires SearchAnswer(space, cfg, s, query, k, results)
    requires results != []
    ensures results[0].distance <= DistanceTo(space, s.graph, query, s.entryPoint)
  {
    var start, found := AnswerBeam(space, cfg, s, query, k, results);
    hide SearchAnswer;
    BeamHeadNotFarther(space, s.graph, query, start, 0, Width(cfg.efSearch), found);
  }

  /** The whole of a search: greedy moves from the entry point through every layer above the bottom one, then
      the first k of a bottom-layer beam of max(ef_search, 1) places from where they end. */
  ghost predicate SearchedAlong(space: Space, cfg: Config, s: State, query: Vector, k: nat,
                                results: seq<SearchResult>, path: seq<VectorId>, found: seq<VectorId>)
  {
    && GreedyPath(space, s.graph, query, s.maxLevel, 0, path)
    && path[0] == s.entryPoint
    && BeamResult(space, s.graph, query, path[|path|-1], 0, if cfg.efSearch > 1 then cfg.efSearch else 1, found)
    && |results| == (if k < |found| then k else |found|)
    && (forall i :: 0 <= i < |results| ==>
                      results[i].id == found[i] && results[i].distance == DistanceTo(space, s.graph, query, found[i]))
    && (k > 0 ==> results != [] && GreedyMove(space, s.graph, query, 0, path[|path|-1], results[0].id))
  }

  /** Every search from a live entry point takes such a way. */
  lemma SearchIsGreedyPath(space: Space, cfg: Config, s: State, query: Vector, k: nat, results: seq<SearchResult>)
    requires SearchAnswer(space, cfg, s, query, k, results)
    requires |query| == cfg.dimension && s.elementCount > 0 && Live(s.graph, s.entryPoint)
    ensures exists path, found :: SearchedAlong(space, cfg, s, query, k, results, path, found)
  {
    var start, found :| SearchedFrom(space, cfg, s, query, start, found)
                        && results == Labelled(space, s.graph, query, found[..Min(k, |found|)]);
    hide SearchAnswer, SearchedFrom;
    var path := SearchedFromPath(space, cfg, s, query, k, start, found, results);
  }

  lemma SearchedFromPath(space: Space, cfg: Config, s: State, query: Vector, k: nat, start: VectorId,
                         found: seq<VectorId>, results: seq<SearchResult>)
    returns (path: seq<VectorId>)
    requires SearchedFrom(space, cfg, s, query, start, found) && Live(s.graph, s.entryPoint)
    requires results == Labelled(space, s.graph, query, found[..Min(k, |found|)])
    ensures SearchedAlong(space, cfg, s, query, k, results, path, found)
  {
    path := DescentIsGreedyPath(space, s.graph, query, s.entryPoint, s.maxLevel, 0, start);
    assert Width(cfg.efSearch) == if cfg.efSearch > 1 then cfg.efSearch else 1;
    BeamHeadIsGreedy(space, s.graph, query, start, 0, Width(cfg.efSearch), found);
  }

  /** On a connected bottom layer with a live entry point, a beam as wide as the index is exact. */
  lemma ConnectedSearchExact(space: Space, cfg: Config, s: State, query: Vector, k: nat, results: seq<SearchResult>)
    requires Consistent(cfg, s) && Connected(s.graph)
    requires s.elementCount > 0 ==> Live(s.graph, s.entryPoint)
    requires cfg.efSearch >= s.elementCount && |query| == cfg.dimension
    requires SearchAnswer(space, cfg, s, query, k, results)
    ensures ShowsBest(Distances(space, s.graph, query), k, results)
  {
    if s.elementCount > 0 {
      var start, found := AnswerBeam(space, cfg, s, query, k, results);
      hide SearchAnswer;
      ConnectedBeamExact(space, s.graph, query, start, Width(cfg.efSearch), found, k, results);
    } else {
      assert Distances(space, s.graph, query) == map[];
    }
  }

  lemma ConnectedBeamExact(space: Space, g: Graph, query: Vector, start: VectorId, width: nat, found: seq<VectorId>,
                           k: nat, results: seq<SearchResult>)
    requires IndexOk(g) && Connected(g) && Live(g, start) && width >= |g.index|
    requires BeamResult(space, g, query, start, 0, width, found)
    requires results == Labelled(space, g, query, found[..Min(k, |found|)])
    ensures ShowsBest(Distances(space, g, query), k, results)
  {
    var table := Distances(space, g, query);
    WideBeamIsComplete(space, g, query, start, 0, width, found);
    SortedPrefixIsBest(table, k, found);
    assert Ids(results) == found[..Min(k, |found|)];
  }

  /** After any insert-only run of at most 2M + 1 fresh ids, a search whose beam is as wide as the index
      lists the same distances as every other correct answer, brute force included. */
  lemma SmallRunSearchExact(space: Space, cfg: Config, ops: seq<Op>, states: seq<State>, query: Vector, k: nat,
                            results: seq<SearchResult>, exact: seq<SearchResult>)
    requires Run(space, cfg, ops, states)
    requires cfg.M >= 1 && |ops| <= 2 * cfg.M + 1 && cfg.efSearch >= |ops|
    requires forall i :: 0 <= i < |ops| ==> ops[i].Add?
    requires |query| == cfg.dimension
    requires SearchAnswer(space, cfg, states[|ops|], query, k, results)
    requires ShowsBest(Distances(space, states[|ops|].graph, query), k, exact)
    ensures ShowsBest(Distances(space, states[|ops|].graph, query), k, results)
    ensures |results| == Min(k, |ops|) == |exact|
    ensures forall i :: 0 <= i < |results| ==> results[i].distance == exact[i].distance
  {
    var s := states[|ops|];
    SmallRunConnected(space, cfg, ops, states);
    CountIsLiveNodes(cfg, s);
    AllLiveCount(s.graph.nodes);
    if s.elementCount > 0 {
      EntryExists(cfg, s);
    }
    ConnectedSearchExact(space, cfg, s, query, k, results);
    assert Distances(space, s.graph, query).Keys == s.graph.index.Keys;
    AnswersAgree(Distances(space, s.graph, query), k, results, exact);
  }

  lemma AllLiveCount(nodes: seq<Node>)
    requires forall i :: 0 <= i < |nodes| ==> !nodes[i].deleted
    ensures |set i | 0 <= i < |nodes| && !nodes[i].deleted| == |nodes|
  {
    var positions := seq(|nodes|, i => i);
    assert NoDup(positions);
    NoDupLength(positions);
    assert SetOf(positions) == set i | 0 <= i < |nodes| && !nodes[i].deleted by {
      forall i | 0 <= i < |nodes|
        ensures i in SetOf(positions)
      {
        assert positions[i] == i;
      }
    }
  }

  // ------------------------------------------------------------------ filtered search

  /** The first k results that pass, in order. */
  function FirstPassing(results: seq<SearchResult>, filter: VectorId -> bool, k: nat): seq<SearchResult> {
    if results == [] || k == 0 then []
    else if filter(results[0].id) then [results[0]] + FirstPassing(results[1..], filter, k - 1)
    else FirstPassing(results[1..], filter, k)
  }

  function Passing(results: seq<SearchResult>, filter: VectorId -> bool): (out: seq<SearchResult>)
    ensures forall r :: r in out <==> r in results && filter(r.id)
  {
    if results == [] then []
    else
      assert results == [results[0]] + results[1..];
      (if filter(results[0].id) then [results[0]] else []) + Passing(results[1..], filter)
  }

  lemma {:induction false} FirstPassingIsPrefix(results: seq<SearchResult>, filter: VectorId -> bool, k: nat)
    ensures var all := Passing(results, filter);
            FirstPassing(results, filter, k) == all[..Min(k, |all|)]
  {
    if results != [] && k > 0 {
      FirstPassingIsPrefix(results[1..], filter, if filter(results[0].id) then k - 1 else k);
    }
  }

  /** Distinct ids in ascending order of distance. */
  ghost predicate Ranked(results: seq<SearchResult>) {
    forall i, j :: 0 <= i < j < |results| ==>
                     results[i].id != results[j].id && results[i].distance <= results[j].distance
  }

  lemma {:induction false} PassingKeepsRank(results: seq<SearchResult>, filter: VectorId -> bool)
    requires Ranked(results)
    ensures Ranked(Passing(results, filter))
  {
    if results != [] {
      var rest := results[1..];
      PassingKeepsRank(rest, filter);
      var tail := Passing(rest, filter);
      forall i | 0 <= i < |tail|
        ensures tail[i].id != results[0].id && results[0].distance <= tail[i].distance
      {
        assert tail[i] in rest;
        var j :| 0 <= j < |rest| && rest[j] == tail[i];
        assert results[j+1] == tail[i];
      }
    }
  }

  /** A ranked list holding every entry of a table shows, cut after k entries, the best k. */
  lemma RankedPrefixShowsBest(table: map<nat, real>, k: nat, all: seq<SearchResult>)
    requires Ranked(all)
    requires forall r :: r in all <==> r.id in table && r.distance == table[r.id]
    ensures ShowsBest(table, k, all[..Min(k, |all|)])
  {
    var ids := Ids(all);
    forall x
      ensures x in ids <==> x in table
    {
      if x in table {
        var i :| 0 <= i < |all| && all[i] == SearchResult(x, table[x]);
        assert ids[i] == x;
      }
      if x in ids {
        var i :| 0 <= i < |ids| && ids[i] == x;
        assert all[i] in all;
      }
    }
    forall i | 0 <= i < |all|
      ensures all[i].distance == table[all[i].id]
    {
      assert all[i] in all;
    }
    SortedPrefixIsBest(table, k, ids);
    assert Ids(all[..Min(k, |all|)]) == ids[..Min(k, |ids|)];
  }

  /** When three times k covers the whole connected index, filtering loses nothing: the answer is
      the best k of the elements that pass. */
  lemma FilteredExact(space: Space, cfg: Config, s: State, query: Vector, k: nat, filter: VectorId -> bool,
                      candidates: seq<SearchResult>)
    requires Consistent(cfg, s) && Connected(s.graph)
    requires s.elementCount > 0 ==> Live(s.graph, s.entryPoint)
    requires cfg.efSearch >= s.elementCount && |query| == cfg.dimension
    requires k * 3 >= s.elementCount
    requires SearchAnswer(space, cfg, s, query, k * 3, candidates)
    ensures var passing := map id | id in s.graph.index && filter(id) :: DistanceTo(space, s.graph, query, id);
            ShowsBest(passing, k, FirstPassing(candidates, filter, k))
  {
    var table := Distances(space, s.graph, query);
    var passing := map id | id in s.graph.index && filter(id) :: DistanceTo(space, s.graph, query, id);
    ConnectedSearchExact(space, cfg, s, query, k * 3, candidates);
    assert table.Keys == s.graph.index.Keys;
    FullAnswerIsRanked(table, k * 3, candidates);
    PassingKeepsRank(candidates, filter);
    FirstPassingIsPrefix(candidates, filter, k);
    RankedPrefixShowsBest(passing, k, Passing(candidates, filter));
  }

  /** An answer with room for the whole table shows the whole table. */
  lemma FullAnswerIsRanked(table: map<nat, real>, k: nat, results: seq<SearchResult>)
    requires ShowsBest(table, k, results) && k >= |table|
    ensures Ranked(results)
    ensures forall r :: r in results <==> r.id in table && r.distance == table[r.id]
  {
    var ids := Ids(results);
    NoDupLength(ids);
    forall x | x in table
      ensures SearchResult(x, table[x]) in results
    {
      MemberOfFull(SetOf(ids), table.Keys, x);
      var i :| 0 <= i < |ids| && ids[i] == x;
      assert results[i] in results;
    }
    forall i, j | 0 <= i < j < |results|
      ensures results[i].id != results[j].id && results[i].distance <= results[j].distance
    {
      assert results[i] in results && results[j] in results;
      assert ids[i] != ids[j] && table[ids[i]] <= table[ids[j]];
    }
  }

  lemma MemberOfFull<T>(a: set<T>, b: set<T>, x: T)
    requires a <= b && |a| == |b| && x in b
    ensures x in a
  {
    if x !in a {
      SubsetSize(a, b - {x});
    }
  }
}
