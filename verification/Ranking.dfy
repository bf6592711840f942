/**
 Ranked results: what it means for a list to be the best k of a finite table of keys,
 and why any two such lists show the same keys. Shared by the nearest-neighbour indexes
 and the full-text engine.
 */
module Ranking {
  import opened Sequences

  function Min(a: nat, b: nat): nat {
    if a < b then a else b
  }

  /** Keys never fall along the list. */
  ghost predicate Ascending(table: map<nat, real>, s: seq<nat>)
    requires forall x :: x in s ==> x in table
  {
    forall i, j :: 0 <= i < j < |s| ==> table[s[i]] <= table[s[j]]
  }

  /** `best` holds min(k, |table|) distinct entries in ascending order of key, and no
      entry left out has a smaller key than one that was kept. */
  ghost predicate IsBest(table: map<nat, real>, k: nat, best: seq<nat>) {
    && |best| == Min(k, |table|)
    && NoDup(best)
    && (forall x :: x in best ==> x in table)
    && Ascending(table, best)
    && (forall x, i :: x in table && x !in best && 0 <= i < |best| ==> table[best[i]] <= table[x])
  }

  /** Two best-k lists of one table may break ties differently but show the same keys. */
  lemma BestKeysAgree(table: map<nat, real>, k: nat, a: seq<nat>, b: seq<nat>)
    requires IsBest(table, k, a) && IsBest(table, k, b)
    ensures |a| == |b|
    ensures forall i :: 0 <= i < |a| ==> table[a[i]] == table[b[i]]
  {
    forall i | 0 <= i < |a|
      ensures table[a[i]] == table[b[i]]
    {
      NotBelow(table, k, a, b, i);
      NotBelow(table, k, b, a, i);
    }
  }

  /** If a[i] had a smaller key than b[i], i + 1 distinct entries would fit in i places. */
  lemma NotBelow(table: map<nat, real>, k: nat, a: seq<nat>, b: seq<nat>, i: nat)
    requires IsBest(table, k, a) && IsBest(table, k, b)
    requires i < |a|
    ensures table[a[i]] >= table[b[i]]
  {
    if table[a[i]] < table[b[i]] {
      var front := a[..i+1];
      forall x | x in front
        ensures x in SetOf(b[..i])
      {
        var j :| 0 <= j < |front| && front[j] == x;
        EarlierInOther(table, k, b, i, x);
      }
      NoDupBound(front, SetOf(b[..i]));
      NoDupLength(b[..i]);
    }
  }

  /** An entry with a smaller key than b[i] comes before b[i]. */
  lemma EarlierInOther(table: map<nat, real>, k: nat, b: seq<nat>, i: nat, x: nat)
    requires IsBest(table, k, b) && i < |b|
    requires x in table && table[x] < table[b[i]]
    ensures x in b[..i]
  {
    assert x in b;
    var m :| 0 <= m < |b| && b[m] == x;
    assert m < i;
    assert b[..i][m] == x;
  }

  /** Sorting a whole table and cutting it after k entries selects the best k. */
  lemma SortedPrefixIsBest(table: map<nat, real>, k: nat, sorted: seq<nat>)
    requires NoDup(sorted)
    requires forall x :: x in sorted <==> x in table
    requires Ascending(table, sorted)
    ensures |sorted| == |table|
    ensures IsBest(table, k, sorted[..Min(k, |sorted|)])
  {
    NoDupLength(sorted);
    assert SetOf(sorted) == table.Keys;
    var best := sorted[..Min(k, |sorted|)];
    forall x, i | x in table && x !in best && 0 <= i < |best|
      ensures table[best[i]] <= table[x]
    {
      assert sorted == best + sorted[|best|..];
      assert x in sorted[|best|..];
    }
  }

  // ------------------------------------------------------------------ result lists

  datatype SearchResult = SearchResult(id: nat, distance: real)

  function Ids(results: seq<SearchResult>): (ids: seq<nat>)
    ensures |ids| == |results| && forall i :: 0 <= i < |ids| ==> ids[i] == results[i].id
  {
    seq(|results|, i requires 0 <= i < |results| => results[i].id)
  }

  /** The best k entries of a table, each shown with its own key. */
  ghost predicate ShowsBest(table: map<nat, real>, k: nat, results: seq<SearchResult>) {
    && IsBest(table, k, Ids(results))
    && forall r :: r in results ==> r.id in table && r.distance == table[r.id]
  }

  /** Any two answers to the same nearest-neighbour question list the same distances. */
  lemma AnswersAgree(table: map<nat, real>, k: nat, a: seq<SearchResult>, b: seq<SearchResult>)
    requires ShowsBest(table, k, a) && ShowsBest(table, k, b)
    ensures |a| == |b|
    ensures forall i :: 0 <= i < |a| ==> a[i].distance == b[i].distance
  {
    BestKeysAgree(table, k, Ids(a), Ids(b));
    forall i | 0 <= i < |a|
      ensures a[i].distance == b[i].distance
    {
      assert a[i] in a && b[i] in b;
      assert table[Ids(a)[i]] == table[Ids(b)[i]];
    }
  }
}
