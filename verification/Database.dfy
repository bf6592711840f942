/**
 The vector database (src/database.cpp): one index and two stores that are kept in step by hand,
 with a rollback when a later stage of an insertion fails, and the last stage of a query that
 filters what the index found.
 */
module Databases {
  import opened Ranking
  import opened Results
  import opened HnswGraph
  import opened HnswState
  import opened HnswRuns
  import opened HnswSearch
  import opened HnswIndexes
  import opened VectorStores
  import opened HnswPersistence
  import opened Vectors

  // --------------------------------------------------------- the ids each part knows

  /** `held` are the ids that the index has a node for, removed ones included. */
  datatype Keys = Keys(index: set<VectorId>, vectors: set<VectorId>, metadata: set<VectorId>, nextId: nat,
                       held: set<VectorId>)

  /** How a call on the database ended. */
  datatype Event =
    | Refused              // nothing happened
    | Stored               // all three stages of an insertion succeeded
    | TurnedAway           // the index refused the new element; an id was drawn
    | StoreFailed          // the vector store had no room, and the index was rolled back
    | AppendFailed         // the metadata line could not be written, and the rest was rolled back
    | Erased(id: VectorId)
    | Rewritten(id: VectorId)

  const OPENED: Keys := Keys({}, {}, {}, 1, {})

  function After(k: Keys, e: Event): Keys {
    var n := k.nextId;
    match e
    case Refused => k
    case Stored => Keys(k.index + {n}, k.vectors + {n}, k.metadata + {n}, n + 1, k.held + {n})
    case TurnedAway => k.(nextId := n + 1)
    case StoreFailed => k.(nextId := n + 1, held := k.held + {n})
    case AppendFailed => k.(metadata := k.metadata + {n}, nextId := n + 1, held := k.held + {n})
    case Erased(id) =>
      if id in k.index then Keys(k.index - {id}, k.vectors - {id}, k.metadata - {id}, n, k.held) else k
    case Rewritten(id) => k.(metadata := k.metadata + {id})
  }

  /** What holds in every session: index and vector store know the same ids, which are among those held,
      and these have all been drawn. */
  ghost predicate KeysOk(k: Keys) {
    && k.index == k.vectors && k.index <= k.held && k.nextId >= 1
    && forall id :: id in k.held ==> 1 <= id < k.nextId
  }

  ghost predicate Agree(k: Keys) { k.index == k.vectors == k.metadata }

  /** One call keeps the three parts in agreement, unless the metadata line of an insertion could not
      be written or a metadata update names an id that has no record. */
  lemma StepAgreesExactlyWhen(k: Keys, e: Event)
    requires KeysOk(k) && Agree(k)
    ensures Agree(After(k, e)) <==> !e.AppendFailed? && (e.Rewritten? ==> e.id in k.metadata)
  {
    if e.AppendFailed? {
      assert k.nextId in After(k, e).metadata;
    } else if e.Rewritten? {
      assert e.id in After(k, e).metadata;
    }
  }

  function RunKeys(events: seq<Event>): Keys {
    if events == [] then OPENED else After(RunKeys(events[..|events| - 1]), events[|events| - 1])
  }

  /** In every run index and vector store know the same ids, all of them drawn and with a record. */
  lemma {:induction false} RunKeepsKeys(events: seq<Event>)
    ensures KeysOk(RunKeys(events)) && RunKeys(events).index <= RunKeys(events).metadata
  {
    if events != [] {
      RunKeepsKeys(events[..|events| - 1]);
    }
  }

  /** Call i of a run enters a record under an id that the index does not know. */
  ghost predicate Strays(events: seq<Event>, i: nat, id: VectorId)
    requires i < |events|
  {
    var k := RunKeys(events[..i]);
    match events[i]
    case AppendFailed => id == k.nextId
    case Rewritten(x) => id == x && id !in k.index
    case _ => false
  }

  ghost predicate StoresAt(events: seq<Event>, j: nat, id: VectorId)
    requires j < |events|
  {
    events[j] == Stored && RunKeys(events[..j]).nextId == id
  }

  /** The id is stored by one of the calls from i on. */
  ghost predicate StoredFrom(events: seq<Event>, i: nat, id: VectorId) {
    exists j :: i <= j < |events| && StoresAt(events, j, id)
  }

  /** Call i left a record without a vector, and no later call stored one under its id. */
  ghost predicate Orphaned(events: seq<Event>, i: nat, id: VectorId)
    requires i < |events|
  {
    Strays(events, i, id) && !StoredFrom(events, i + 1, id)
  }

  /** One more call changes what is orphaned only if it strays or stores itself. */
  lemma OrphanedStep(events: seq<Event>, i: nat, id: VectorId)
    requires i < |events| - 1
    ensures var before := events[..|events| - 1];
            Orphaned(events, i, id) <==> Orphaned(before, i, id) && !StoresAt(events, |events| - 1, id)
  {
    hide RunKeys;
    var n := |events| - 1;
    var before := events[..n];
    forall j | 0 <= j < n
      ensures before[..j] == events[..j] && before[j] == events[j]
    {
    }
    assert forall j :: 0 <= j < n ==> (StoresAt(before, j, id) <==> StoresAt(events, j, id));
    assert StoredFrom(events, i + 1, id) <==> StoredFrom(before, i + 1, id) || StoresAt(events, n, id);
  }

  /** A record has no vector exactly when some call entered it without one and no later call stored one.
      Removals do not help: the index does not know the id. */
  lemma {:induction false} OrphanExactlyWhen(events: seq<Event>, id: VectorId)
    ensures var k := RunKeys(events);
            id in k.metadata - k.index <==> exists i :: 0 <= i < |events| && Orphaned(events, i, id)
  {
    if events != [] {
      var n := |events| - 1;
      var before := events[..n];
      RunKeepsKeys(before);
      OrphanExactlyWhen(before, id);
      assert Orphaned(events, n, id) <==> Strays(events, n, id);
      forall i | 0 <= i < n
        ensures Orphaned(events, i, id) <==> Orphaned(before, i, id) && !StoresAt(events, n, id)
      {
        OrphanedStep(events, i, id);
      }
      OrphansMove(events, id);
    }
  }

  /** The records without a vector after one more call. */
  lemma OrphansMove(events: seq<Event>, id: VectorId)
    requires events != [] && KeysOk(RunKeys(events[..|events| - 1]))
    ensures var n := |events| - 1;
            var k, after := RunKeys(events[..n]), RunKeys(events);
            id in after.metadata - after.index <==>
              Strays(events, n, id) || (id in k.metadata - k.index && !StoresAt(events, n, id))
  {
  }

  /** The three parts know the same ids exactly when every record entered without a vector got one later. */
  lemma RunAgreesExactlyWhen(events: seq<Event>)
    ensures Agree(RunKeys(events)) <==>
            forall i, id :: 0 <= i < |events| && Strays(events, i, id) ==> StoredFrom(events, i + 1, id)
  {
    var k := RunKeys(events);
    RunKeepsKeys(events);
    if Agree(k) {
      forall i, id | 0 <= i < |events| && Strays(events, i, id)
        ensures StoredFrom(events, i + 1, id)
      {
        OrphanExactlyWhen(events, id);
        assert id !in k.metadata - k.index;
        assert !Orphaned(events, i, id);
      }
    } else {
      assert k.metadata - k.index != {};
      var id :| id in k.metadata - k.index;
      OrphanExactlyWhen(events, id);
      var i :| 0 <= i < |events| && Orphaned(events, i, id);
    }
  }

  lemma {:induction false} NextIdGrows(events: seq<Event>, i: nat)
    requires i <= |events|
    ensures RunKeys(events[..i]).nextId <= RunKeys(events).nextId
  {
    if i == |events| {
      assert events[..i] == events;
    } else {
      var before := events[..|events| - 1];
      NextIdGrows(before, i);
      assert before[..i] == events[..i];
    }
  }

  /** An insertion whose metadata line was not written is never repaired: its id is not drawn again. */
  lemma AppendFailureStays(events: seq<Event>, i: nat)
    requires i < |events| && events[i] == AppendFailed
    ensures !Agree(RunKeys(events))
  {
    var id := RunKeys(events[..i]).nextId;
    assert Strays(events, i, id);
    forall j | i < j < |events|
      ensures !StoresAt(events, j, id)
    {
      assert events[..j][..i + 1] == events[..i + 1] && events[..i + 1][..i] == events[..i];
      NextIdGrows(events[..j], i + 1);
    }
    RunAgreesExactlyWhen(events);
  }

  // ------------------------------------------------------------------------ metadata

  datatype Metadata = Metadata(id: VectorId, docType: nat, date: string, asset: string, bias: string)

  /** The in-memory record table.  An added record is entered before its line is written to the
      file, and stays when the write fails. */
  class MetadataStore {
    var records: map<VectorId, Metadata>

    constructor ()
      ensures records == map[]
    {
      records := map[];
    }

    method Add(meta: Metadata, writable: bool) returns (r: Status)
      modifies this
      ensures records == old(records)[meta.id := meta]
      ensures r == if writable then Ok(()) else Err(IoError)
    {
      records := records[meta.id := meta];
      r := AppendToFile(writable);
    }

    method AppendToFile(writable: bool) returns (r: Status)
      ensures r == if writable then Ok(()) else Err(IoError)
    {
      r := if writable then Ok(()) else Err(IoError);
    }

    method Update(meta: Metadata)
      modifies this
      ensures records == old(records)[meta.id := meta]
    {
      records := records[meta.id := meta];
    }

    method Remove(id: VectorId)
      modifies this
      ensures records == old(records) - {id}
    {
      records := records - {id};
    }
  }

  // ------------------------------------------------------------------- query options

  /** An `efSearch` of zero leaves the beam width of the index as it is. */
  datatype QueryOptions = QueryOptions(
    k: nat,
    efSearch: nat,
    typeFilter: Option<nat>,
    dateFilter: Option<string>,
    dateFrom: Option<string>,
    dateTo: Option<string>,
    assetFilter: Option<string>,
    biasFilter: Option<string>,
    includeMetadata: bool,
    deduplicateByDate: bool)

  datatype QueryResult = QueryResult(id: VectorId, distance: real, score: real, metadata: Option<Metadata>)

  type Records = map<VectorId, Metadata>

  function Lookup(records: Records, id: VectorId): Option<Metadata> {
    if id in records then Some(records[id]) else None
  }

  /** The order of character strings: first difference, then length. */
  predicate Before(a: string, b: string) {
    b != [] && (a == [] || a[0] < b[0] || (a[0] == b[0] && Before(a[1..], b[1..])))
  }

  /** The strings agree up to place i, where `a` ends or has the smaller character. */
  ghost predicate PrecedesAt(a: string, b: string, i: nat) {
    i <= |a| && i < |b| && a[..i] == b[..i] && (i == |a| || a[i] < b[i])
  }

  lemma {:induction false} BeforeIsLexicographic(a: string, b: string)
    ensures Before(a, b) <==> exists i :: PrecedesAt(a, b, i)
  {
    if a == [] || b == [] || a[0] != b[0] {
      assert PrecedesAt(a, b, 0) <==> Before(a, b);
      forall i: nat | 0 < i <= |a| && i <= |b|
        ensures a[..i] != b[..i]
      {
        assert a[..i][0] != b[..i][0];
      }
    } else {
      BeforeIsLexicographic(a[1..], b[1..]);
      if i: nat :| PrecedesAt(a[1..], b[1..], i) {
        assert a[..i+1] == [a[0]] + a[1..][..i] && b[..i+1] == [b[0]] + b[1..][..i];
        assert PrecedesAt(a, b, i + 1);
      }
      if i: nat :| PrecedesAt(a, b, i) {
        assert a[1..][..i-1] == a[..i][1..] && b[1..][..i-1] == b[..i][1..];
        assert PrecedesAt(a[1..], b[1..], i - 1);
      }
    }
  }

  predicate MeetsExactFilters(o: QueryOptions, m: Metadata) {
    && (o.typeFilter.Some? ==> m.docType == o.typeFilter.value)
    && (o.dateFilter.Some? ==> m.date == o.dateFilter.value)
    && (o.assetFilter.Some? ==> m.asset == o.assetFilter.value)
  }

  predicate MeetsRangeFilters(o: QueryOptions, m: Metadata) {
    && (o.dateFrom.Some? ==> !Before(m.date, o.dateFrom.value))
    && (o.dateTo.Some? ==> !Before(o.dateTo.value, m.date))
    && (o.biasFilter.Some? ==> m.bias == o.biasFilter.value)
  }

  /** The record the filters look at: none when metadata was not asked for or is missing. */
  function Examined(records: Records, o: QueryOptions, id: VectorId): Option<Metadata> {
    if o.includeMetadata then Lookup(records, id) else None
  }

  predicate Passes(records: Records, o: QueryOptions, id: VectorId) {
    var m := Examined(records, o, id);
    m.Some? ==> MeetsRangeFilters(o, m.value)
  }

  predicate Dated(records: Records, o: QueryOptions, id: VectorId) {
    o.deduplicateByDate && Examined(records, o, id).Some?
  }

  // --------------------------------------------------------------- filtering results

  /** A result of the search is kept when it passes and no earlier passing one has its date. */
  ghost predicate Kept(records: Records, o: QueryOptions, raw: seq<SearchResult>, j: nat)
    requires j < |raw|
  {
    && Passes(records, o, raw[j].id)
    && !(Dated(records, o, raw[j].id) && DateSeen(records, o, raw, j, records[raw[j].id].date))
  }

  ghost predicate DateSeen(records: Records, o: QueryOptions, raw: seq<SearchResult>, n: nat, date: string)
    requires n <= |raw|
  {
    exists i :: 0 <= i < n && GivesDate(records, o, raw[i].id, date)
  }

  ghost predicate GivesDate(records: Records, o: QueryOptions, id: VectorId, date: string) {
    Passes(records, o, id) && Dated(records, o, id) && records[id].date == date
  }

  ghost function KeptIndices(records: Records, o: QueryOptions, raw: seq<SearchResult>, n: nat): seq<nat>
    requires n <= |raw|
  {
    if n == 0 then []
    else if Kept(records, o, raw, n - 1) then KeptIndices(records, o, raw, n - 1) + [n - 1]
    else KeptIndices(records, o, raw, n - 1)
  }

  function Shown(records: Records, o: QueryOptions, r: SearchResult): QueryResult {
    QueryResult(r.id, r.distance, 1.0 - r.distance, Examined(records, o, r.id))
  }

  ghost function ShowAll(records: Records, o: QueryOptions, raw: seq<SearchResult>,
                         indices: seq<nat>): (shown: seq<QueryResult>)
    requires forall i :: 0 <= i < |indices| ==> indices[i] < |raw|
    ensures |shown| == |indices|
    ensures forall p :: 0 <= p < |indices| ==> shown[p] == Shown(records, o, raw[indices[p]])
  {
    if indices == [] then []
    else ShowAll(records, o, raw, indices[..|indices| - 1]) + [Shown(records, o, raw[indices[|indices| - 1]])]
  }

  ghost predicate Ascends(indices: seq<nat>) {
    forall i, j :: 0 <= i < j < |indices| ==> indices[i] < indices[j]
  }

  lemma {:induction false} KeptIndicesFacts(records: Records, o: QueryOptions, raw: seq<SearchResult>, n: nat)
    requires n <= |raw|
    ensures Ascends(KeptIndices(records, o, raw, n))
    ensures forall j: nat :: j in KeptIndices(records, o, raw, n) <==> j < n && Kept(records, o, raw, j)
  {
    hide Kept;
    if n > 0 {
      KeptIndicesFacts(records, o, raw, n - 1);
      AscendsAppend(KeptIndices(records, o, raw, n - 1), n - 1);
    }
  }

  lemma AscendsAppend(indices: seq<nat>, n: nat)
    requires Ascends(indices) && forall j :: j in indices ==> j < n
    ensures Ascends(indices + [n])
  {
    assert forall i :: 0 <= i < |indices| ==> indices[i] in indices;
  }

  lemma {:induction false} KeptIndicesGrow(records: Records, o: QueryOptions, raw: seq<SearchResult>, n: nat, m: nat)
    requires n <= m <= |raw|
    ensures KeptIndices(records, o, raw, n) <= KeptIndices(records, o, raw, m)
    decreases m - n
  {
    if n < m { KeptIndicesGrow(records, o, raw, n, m - 1); }
  }

  function Limit(o: QueryOptions): nat { if o.k == 0 then 1 else o.k }

  /** The answer of a query: the first kept results, at most k of them (one where k is zero). */
  ghost predicate Filtered(records: Records, o: QueryOptions, raw: seq<SearchResult>, results: seq<QueryResult>) {
    var kept := KeptIndices(records, o, raw, |raw|);
    var first := kept[..Min(Limit(o), |kept|)];
    && (forall i :: 0 <= i < |first| ==> first[i] < |raw|)
    && results == ShowAll(records, o, raw, first)
  }

  /** Result i of the answer is result `from[i]` of the search. */
  ghost predicate Picks(records: Records, o: QueryOptions, raw: seq<SearchResult>, from: seq<nat>,
                        results: seq<QueryResult>)
  {
    && |from| == |results|
    && Ascends(from)
    && forall i :: 0 <= i < |from| ==>
         from[i] < |raw| && Kept(records, o, raw, from[i]) && results[i] == Shown(records, o, raw[from[i]])
  }

  /** An answer is an order-preserving selection of the kept results, of at most k (at least one
      is let through when k is zero); if it is shorter, no kept result is missing. */
  lemma FilteredIsSelection(records: Records, o: QueryOptions, raw: seq<SearchResult>, results: seq<QueryResult>)
    requires Filtered(records, o, raw, results)
    ensures |results| <= Limit(o)
    ensures exists from ::
              && Picks(records, o, raw, from, results)
              && (|results| < Limit(o) ==> forall j: nat :: j < |raw| && Kept(records, o, raw, j) ==> j in from)
  {
    var kept := KeptIndices(records, o, raw, |raw|);
    KeptIndicesFacts(records, o, raw, |raw|);
    var from := kept[..Min(Limit(o), |kept|)];
    forall i | 0 <= i < |from| ensures from[i] < |raw| && Kept(records, o, raw, from[i]) {
      assert from[i] == kept[i] && kept[i] in kept;
    }
    assert Picks(records, o, raw, from, results);
    if |results| < Limit(o) {
      assert from == kept;
    }
  }

  ghost predicate DistinctDates(results: seq<QueryResult>) {
    forall i, j :: 0 <= i < j < |results| && results[i].metadata.Some? && results[j].metadata.Some? ==>
                     results[i].metadata.value.date != results[j].metadata.value.date
  }

  /** Every record shown meets the range and bias filters, and with deduplication no two of them
      carry the same date. */
  lemma FilteredMeetsFilters(records: Records, o: QueryOptions, raw: seq<SearchResult>, results: seq<QueryResult>)
    requires Filtered(records, o, raw, results)
    ensures forall q :: q in results && q.metadata.Some? ==> MeetsRangeFilters(o, q.metadata.value)
    ensures o.deduplicateByDate ==> DistinctDates(results)
  {
    FilteredIsSelection(records, o, raw, results);
    var from :| Picks(records, o, raw, from, results);
    forall i | 0 <= i < |results| && results[i].metadata.Some?
      ensures MeetsRangeFilters(o, results[i].metadata.value)
    {
      assert Passes(records, o, raw[from[i]].id);
    }
    forall i, j | 0 <= i < j < |results| && o.deduplicateByDate
      && results[i].metadata.Some? && results[j].metadata.Some?
      ensures results[i].metadata.value.date != results[j].metadata.value.date
    {
      assert Kept(records, o, raw, from[j]) && Kept(records, o, raw, from[i]);
      assert GivesDate(records, o, raw[from[i]].id, records[raw[from[i]].id].date);
    }
  }

  /** What every answer shows, in the words of the query: at most k results (one where k is zero) and none twice,
      each with the record of its id if metadata was asked for, scored by one minus its distance and the best
      first, within the dates and of the bias asked for. */
  ghost predicate Answers(records: Records, o: QueryOptions, results: seq<QueryResult>) {
    && |results| <= (if o.k == 0 then 1 else o.k)
    && (forall q :: q in results ==> q.score + q.distance == 1.0)
    && (forall i, j :: 0 <= i < j < |results| ==>
                         results[i].id != results[j].id && results[i].score >= results[j].score)
    && (forall q :: q in results ==>
                      q.metadata == if o.includeMetadata && q.id in records then Some(records[q.id]) else None)
    && (forall q :: q in results && q.metadata.Some? && o.dateFrom.Some? ==>
                      !Before(q.metadata.value.date, o.dateFrom.value))
    && (forall q :: q in results && q.metadata.Some? && o.dateTo.Some? ==>
                      !Before(o.dateTo.value, q.metadata.value.date))
    && (forall q :: q in results && q.metadata.Some? && o.biasFilter.Some? ==>
                      q.metadata.value.bias == o.biasFilter.value)
    && (o.deduplicateByDate ==> DistinctDates(results))
  }

  lemma FilteredAnswers(records: Records, o: QueryOptions, raw: seq<SearchResult>, results: seq<QueryResult>)
    requires Filtered(records, o, raw, results) && Ranked(raw)
    ensures Answers(records, o, results)
    ensures forall q :: q in results ==> SearchResult(q.id, q.distance) in raw
  {
    FilteredIsSelection(records, o, raw, results);
    FilteredMeetsFilters(records, o, raw, results);
    var from :| Picks(records, o, raw, from, results);
    forall i | 0 <= i < |results|
      ensures results[i] == Shown(records, o, raw[from[i]]) && SearchResult(results[i].id, results[i].distance) in raw
    {
      assert raw[from[i]] in raw;
    }
  }

  /** The search gave distinct ids in ascending order, and only such as meet the exact filters if there are any. */
  lemma PassingIsRanked(candidates: seq<SearchResult>, filter: VectorId -> bool, k: nat)
    requires Ranked(candidates)
    ensures Ranked(FirstPassing(candidates, filter, k))
    ensures forall r :: r in FirstPassing(candidates, filter, k) ==> r in candidates && filter(r.id)
  {
    FirstPassingIsPrefix(candidates, filter, k);
    PassingKeepsRank(candidates, filter);
  }

  lemma SearchIsRanked(space: Space, cfg: Config, s: State, query: Vector, k: nat, results: seq<SearchResult>)
    requires SearchAnswer(space, cfg, s, query, k, results)
    ensures Ranked(results)
  {
    AnswerIsSorted(space, cfg, s, query, k, results);
    forall i, j | 0 <= i < j < |results|
      ensures results[i].id != results[j].id
    {
      assert Ids(results)[i] != Ids(results)[j];
    }
  }

  /** With room left in the answer nothing that passes is missing from it. */
  lemma NothingPassingMissed(records: Records, o: QueryOptions, raw: seq<SearchResult>, results: seq<QueryResult>,
                             j: nat)
    requires Filtered(records, o, raw, results) && !o.deduplicateByDate
    requires |results| < o.k && j < |raw|
    requires o.includeMetadata && raw[j].id in records ==>
               var m := records[raw[j].id];
               && (o.dateFrom.Some? ==> !Before(m.date, o.dateFrom.value))
               && (o.dateTo.Some? ==> !Before(o.dateTo.value, m.date))
               && (o.biasFilter.Some? ==> m.bias == o.biasFilter.value)
    ensures exists i :: 0 <= i < |results| && results[i].id == raw[j].id && results[i].distance == raw[j].distance
  {
    FilteredIsSelection(records, o, raw, results);
    var from :| Picks(records, o, raw, from, results)
                && (|results| < Limit(o) ==> forall j: nat :: j < |raw| && Kept(records, o, raw, j) ==> j in from);
    assert Kept(records, o, raw, j);
    var i :| 0 <= i < |from| && from[i] == j;
    assert results[i] == Shown(records, o, raw[from[i]]);
  }

  /** Without range filters and deduplication the search result passes through unchanged. */
  lemma PlainQueryKeepsAll(records: Records, o: QueryOptions, raw: seq<SearchResult>, results: seq<QueryResult>)
    requires Filtered(records, o, raw, results)
    requires o.dateFrom.None? && o.dateTo.None? && o.biasFilter.None? && !o.deduplicateByDate
    requires |raw| <= o.k
    ensures |results| == |raw|
    ensures forall i :: 0 <= i < |raw| ==> results[i] == Shown(records, o, raw[i])
  {
    AllKept(records, o, raw, |raw|);
    var kept := KeptIndices(records, o, raw, |raw|);
    assert kept[..Min(Limit(o), |kept|)] == kept;
  }

  /** The distances of the live elements that have the type, date and asset asked for. */
  ghost function Wanted(space: Space, g: Graph, records: Records, query: Vector, o: QueryOptions): map<VectorId, real> {
    map id | && id in g.index
             && (o.typeFilter.Some? ==> id in records && records[id].docType == o.typeFilter.value)
             && (o.dateFilter.Some? ==> id in records && records[id].date == o.dateFilter.value)
             && (o.assetFilter.Some? ==> id in records && records[id].asset == o.assetFilter.value)
      :: DistanceTo(space, g, query, id)
  }

  lemma FilteredQueryExact(space: Space, cfg: Config, s: State, records: Records, query: Vector, o: QueryOptions,
                           candidates: seq<SearchResult>)
    requires Consistent(cfg, s) && Connected(s.graph) && |query| == cfg.dimension
    requires s.elementCount > 0 ==> Live(s.graph, s.entryPoint)
    requires cfg.efSearch >= s.elementCount && 6 * o.k >= s.elementCount
    requires o.typeFilter.Some? || o.dateFilter.Some? || o.assetFilter.Some?
    requires SearchAnswer(space, cfg, s, query, o.k * 2 * 3, candidates)
    ensures ShowsBest(Wanted(space, s.graph, records, query, o), o.k * 2,
                      FirstPassing(candidates, ExactFilter(records, o), o.k * 2))
  {
    FilteredExact(space, cfg, s, query, o.k * 2, ExactFilter(records, o), candidates);
    WantedPass(space, s.graph, records, query, o);
    hide Wanted, ExactFilter;
  }

  lemma WantedPass(space: Space, g: Graph, records: Records, query: Vector, o: QueryOptions)
    requires o.typeFilter.Some? || o.dateFilter.Some? || o.assetFilter.Some?
    ensures Wanted(space, g, records, query, o)
         == map id | id in g.index && ExactFilter(records, o)(id) :: DistanceTo(space, g, query, id)
  {
  }

  lemma PlainQueryExact(space: Space, cfg: Config, s: State, records: Records, query: Vector, o: QueryOptions,
                        raw: seq<SearchResult>)
    requires Consistent(cfg, s) && Connected(s.graph) && |query| == cfg.dimension
    requires s.elementCount > 0 ==> Live(s.graph, s.entryPoint)
    requires cfg.efSearch >= s.elementCount
    requires o.typeFilter.None? && o.dateFilter.None? && o.assetFilter.None?
    requires SearchAnswer(space, cfg, s, query, o.k, raw)
    ensures ShowsBest(Wanted(space, s.graph, records, query, o), o.k, raw)
  {
    ConnectedSearchExact(space, cfg, s, query, o.k, raw);
    assert Wanted(space, s.graph, records, query, o) == Distances(space, s.graph, query);
  }

  /** The results of an answer without their scores and records. */
  function Bare(results: seq<QueryResult>): (r: seq<SearchResult>)
    ensures |r| == |results|
    ensures forall i :: 0 <= i < |r| ==> r[i] == SearchResult(results[i].id, results[i].distance)
  {
    seq(|results|, i requires 0 <= i < |results| => SearchResult(results[i].id, results[i].distance))
  }

  /** The front of a best-K list is a best-k list. */
  lemma BestFront(table: map<nat, real>, k: nat, more: nat, all: seq<SearchResult>)
    requires ShowsBest(table, more, all) && k <= more
    ensures ShowsBest(table, k, all[..Min(k, |all|)])
  {
    var ids, front := Ids(all), all[..Min(k, |all|)];
    assert Ids(front) == ids[..Min(k, |all|)];
    forall x, i | x in table && x !in Ids(front) && 0 <= i < |front|
      ensures table[Ids(front)[i]] <= table[x]
    {
      if x in ids {
        assert ids == Ids(front) + ids[|front|..];
        assert x in ids[|front|..];
      }
    }
  }

  /** Without range filters and deduplication an answer is the front of the search result. */
  lemma PlainQueryIsFront(records: Records, o: QueryOptions, raw: seq<SearchResult>, results: seq<QueryResult>)
    requires Filtered(records, o, raw, results) && o.k >= 1
    requires o.dateFrom.None? && o.dateTo.None? && o.biasFilter.None? && !o.deduplicateByDate
    ensures Bare(results) == raw[..Min(o.k, |raw|)]
  {
    AllKept(records, o, raw, |raw|);
    var kept := KeptIndices(records, o, raw, |raw|);
    var first := kept[..Min(o.k, |kept|)];
    forall i | 0 <= i < |results|
      ensures Bare(results)[i] == raw[i]
    {
      assert first[i] == kept[i] == i;
    }
  }

  lemma {:induction false} AllKept(records: Records, o: QueryOptions, raw: seq<SearchResult>, n: nat)
    requires o.dateFrom.None? && o.dateTo.None? && o.biasFilter.None? && !o.deduplicateByDate && n <= |raw|
    ensures |KeptIndices(records, o, raw, n)| == n
    ensures forall i :: 0 <= i < n ==> KeptIndices(records, o, raw, n)[i] == i
  {
    if n > 0 {
      AllKept(records, o, raw, n - 1);
      assert Kept(records, o, raw, n - 1);
    }
  }

  // ------------------------------------------------------------- the filtering loop

  /** What the loop holds after `n` results of the search: the kept ones, and the dates met. */
  ghost predicate FilteredSoFar(records: Records, o: QueryOptions, raw: seq<SearchResult>, n: nat,
                                results: seq<QueryResult>, seen: set<string>)
  {
    && n <= |raw|
    && var kept := KeptIndices(records, o, raw, n);
    && (forall i :: 0 <= i < |kept| ==> kept[i] < |raw|)
    && results == ShowAll(records, o, raw, kept)
    && forall date :: date in seen <==> DateSeen(records, o, raw, n, date)
  }

  lemma SkipOne(records: Records, o: QueryOptions, raw: seq<SearchResult>, n: nat, results: seq<QueryResult>,
                seen: set<string>)
    requires FilteredSoFar(records, o, raw, n, results, seen) && n < |raw| && !Kept(records, o, raw, n)
    ensures FilteredSoFar(records, o, raw, n + 1, results, seen)
  {
    forall date ensures DateSeen(records, o, raw, n + 1, date) <==> DateSeen(records, o, raw, n, date) {
      if GivesDate(records, o, raw[n].id, date) {
        assert DateSeen(records, o, raw, n, date);
      }
    }
  }

  lemma KeepOne(records: Records, o: QueryOptions, raw: seq<SearchResult>, n: nat, results: seq<QueryResult>,
                seen: set<string>)
    requires FilteredSoFar(records, o, raw, n, results, seen) && n < |raw| && Kept(records, o, raw, n)
    ensures FilteredSoFar(records, o, raw, n + 1, results + [Shown(records, o, raw[n])],
      if Dated(records, o, raw[n].id) then seen + {records[raw[n].id].date} else seen)
  {
    forall date
      ensures DateSeen(records, o, raw, n + 1, date) <==>
              DateSeen(records, o, raw, n, date) || GivesDate(records, o, raw[n].id, date)
    {
      if GivesDate(records, o, raw[n].id, date) {
        assert DateSeen(records, o, raw, n + 1, date);
      }
    }
    var kept := KeptIndices(records, o, raw, n);
    assert KeptIndices(records, o, raw, n + 1) == kept + [n];
    assert (kept + [n])[..|kept|] == kept;
  }

  lemma LoopDone(records: Records, o: QueryOptions, raw: seq<SearchResult>, n: nat, results: seq<QueryResult>,
                 seen: set<string>)
    requires FilteredSoFar(records, o, raw, n, results, seen)
    requires if n == |raw| then |results| <= Limit(o) else |results| == Limit(o)
    ensures Filtered(records, o, raw, results)
  {
    KeptIndicesGrow(records, o, raw, n, |raw|);
    var kept := KeptIndices(records, o, raw, |raw|);
    assert kept[..Min(Limit(o), |kept|)] == KeptIndices(records, o, raw, n);
  }

  lemma NothingFiltered(records: Records, o: QueryOptions, raw: seq<SearchResult>)
    ensures FilteredSoFar(records, o, raw, 0, [], {})
  {
  }

  lemma SeenSoFar(records: Records, o: QueryOptions, raw: seq<SearchResult>, n: nat, results: seq<QueryResult>,
                  seen: set<string>)
    requires FilteredSoFar(records, o, raw, n, results, seen)
    ensures n <= |raw| && forall date :: date in seen <==> DateSeen(records, o, raw, n, date)
  {
  }

  method ApplyFilters(records: Records, o: QueryOptions, raw: seq<SearchResult>) returns (results: seq<QueryResult>)
    ensures Filtered(records, o, raw, results)
  {
    results := [];
    var seen: set<string> := {};
    var i := 0;
    hide FilteredSoFar, Filtered, Kept, DateSeen, Dated;
    NothingFiltered(records, o, raw);
    while i < |raw| && |results| < Limit(o)
      invariant i <= |raw| && |results| <= Limit(o)
      invariant FilteredSoFar(records, o, raw, i, results, seen)
    {
      SeenSoFar(records, o, raw, i, results, seen);
      var keep, dates := Examine(records, o, raw, i, raw[i], seen);
      if keep {
        KeepOne(records, o, raw, i, results, seen);
        results := results + [Shown(records, o, raw[i])];
      } else {
        SkipOne(records, o, raw, i, results, seen);
      }
      seen := dates;
      i := i + 1;
    }
    LoopDone(records, o, raw, i, results, seen);
  }

  /** One turn of the loop: the additional filters, then the date, which is recorded when new. */
  method Examine(records: Records, o: QueryOptions, ghost raw: seq<SearchResult>, ghost n: nat, r: SearchResult,
                 seen: set<string>) returns (keep: bool, dates: set<string>)
    requires n < |raw| && raw[n] == r
    requires forall date :: date in seen <==> DateSeen(records, o, raw, n, date)
    ensures keep <==> Kept(records, o, raw, n)
    ensures dates == if keep && Dated(records, o, r.id) then seen + {records[r.id].date} else seen
  {
    keep, dates := true, seen;
    if o.includeMetadata && r.id in records {
      var m := records[r.id];
      if o.dateFrom.Some? && Before(m.date, o.dateFrom.value) {
        return false, seen;
      }
      if o.dateTo.Some? && Before(o.dateTo.value, m.date) {
        return false, seen;
      }
      if o.biasFilter.Some? && m.bias != o.biasFilter.value {
        return false, seen;
      }
      if o.deduplicateByDate {
        if m.date in seen {
          return false, seen;
        }
        dates := seen + {m.date};
      }
    }
  }

  // ------------------------------------------------------------------ the database

  /** What the parts hold: the index as a transition system knows it, the vectors and records as
      readers see them. */
  datatype Snapshot = Snapshot(index: State, vectors: map<VectorId, Vector>, records: Records, nextId: nat)

  /** The ids of all nodes of the index, removed ones included. */
  ghost function Held(s: State): set<VectorId> {
    AtLevel(s.graph.nodes, 0)
  }

  lemma HeldIsNotFresh(s: State, id: VectorId)
    ensures id in Held(s) <==> !Fresh(s, id)
  {
    if i :| 0 <= i < |s.graph.nodes| && s.graph.nodes[i].id == id {
      assert s.graph.nodes[i].level >= 0;
    }
  }

  ghost function KeysOf(s: Snapshot): Keys {
    Keys(s.index.graph.index.Keys, s.vectors.Keys, s.records.Keys, s.nextId, Held(s.index))
  }

  ghost predicate InStep(s: Snapshot) { KeysOk(KeysOf(s)) }

  /** The next id was never used. */
  lemma NextIdFresh(s: Snapshot)
    requires InStep(s)
    ensures Fresh(s.index, s.nextId) && s.nextId !in s.vectors && s.nextId !in s.index.graph.index
  {
    HeldIsNotFresh(s.index, s.nextId);
  }

  lemma InsertedIds(space: Space, cfg: Config, s: State, id: VectorId, vector: Vector, t: State)
    requires Inserted(space, cfg, s, id, vector, t)
    ensures t.graph.index.Keys == s.graph.index.Keys + {id}
    ensures Held(t) == Held(s) + {id}
  {
    var level :| Added(space, cfg, s, id, vector, level, t);
    AddGrowsByOne(space, cfg, s, id, vector, level, t);
    AddKeepsHeaders(space, cfg, s, id, vector, level, t);
    SameIds(s.graph.nodes, t.graph.nodes, NewNode(id, vector, level));
  }

  lemma SameIds(before: seq<Node>, after: seq<Node>, added: Node)
    requires |after| == |before| + 1 && SameHeader(added, after[|before|])
    requires forall i :: 0 <= i < |before| ==> SameHeader(before[i], after[i])
    ensures AtLevel(after, 0) == AtLevel(before, 0) + {added.id}
  {
    forall i | 0 <= i < |before|
      ensures after[i].id == before[i].id
    {
      assert SameHeader(before[i], after[i]);
    }
    forall id | id in AtLevel(before, 0)
      ensures id in AtLevel(after, 0)
    {
      var i :| 0 <= i < |before| && before[i].level >= 0 && before[i].id == id;
      assert after[i].level >= 0;
    }
    assert after[|before|].level >= 0;
  }

  lemma RemovedIds(s: State, id: VectorId, t: State)
    requires Removed(s, id, t)
    ensures t.graph.index.Keys == s.graph.index.Keys - {id}
    ensures Held(t) == Held(s)
  {
    AtLevelGrows(s.graph.nodes, t.graph.nodes, 0);
    AtLevelGrows(t.graph.nodes, s.graph.nodes, 0);
  }

  /** How an insertion changes what the parts hold, by the way it ends. */
  ghost predicate Inserts(space: Space, cfg: Config, a: Snapshot, vector: Vector, meta: Metadata, e: Event, b: Snapshot)
  {
    var id := a.nextId;
    && b.nextId == id + 1
    && b.vectors == (if e == Stored then a.vectors[id := vector] else a.vectors)
    && b.records == (if e == Stored || e == AppendFailed then a.records[id := meta.(id := id)] else a.records)
    && (if e == Stored then Inserted(space, cfg, a.index, id, vector, b.index)
        else if e == TurnedAway then b.index == a.index
        else TakenBack(space, cfg, a.index, id, vector, b.index))
  }

  /** The index after an insertion that was undone: a deleted node remains, and so may changes to
      its neighbours' lists. */
  ghost predicate TakenBack(space: Space, cfg: Config, s: State, id: VectorId, vector: Vector, t: State) {
    exists middle :: Inserted(space, cfg, s, id, vector, middle) && Removed(middle, id, t)
  }

  /** What the later stages do to a state of the index that knows the new id. */
  ghost predicate Settles(a: Snapshot, id: VectorId, vector: Vector, meta: Metadata, e: Event, b: Snapshot) {
    && b.nextId == a.nextId
    && b.vectors == (if e == Stored then a.vectors[id := vector] else a.vectors)
    && b.records == (if e == StoreFailed then a.records else a.records[id := meta])
    && (if e == Stored then b.index == a.index else Removed(a.index, id, b.index))
  }

  lemma StagesInsert(space: Space, cfg: Config, a: Snapshot, middle: Snapshot, vector: Vector, meta: Metadata,
                     e: Event, b: Snapshot)
    requires middle == a.(index := middle.index, nextId := a.nextId + 1)
    requires Inserted(space, cfg, a.index, a.nextId, vector, middle.index)
    requires Settles(middle, a.nextId, vector, meta.(id := a.nextId), e, b)
    requires e == Stored || e == StoreFailed || e == AppendFailed
    ensures Inserts(space, cfg, a, vector, meta, e, b)
  {}

  lemma RefusedInserts(space: Space, cfg: Config, a: Snapshot, vector: Vector, meta: Metadata, b: Snapshot)
    requires b == a.(nextId := a.nextId + 1)
    ensures Inserts(space, cfg, a, vector, meta, TurnedAway, b)
  {
  }

  lemma InsertKeepsStep(space: Space, cfg: Config, a: Snapshot, vector: Vector, meta: Metadata, e: Event, b: Snapshot)
    requires e == Stored || e == TurnedAway || e == StoreFailed || e == AppendFailed
    requires InStep(a) && Inserts(space, cfg, a, vector, meta, e, b)
    ensures KeysOf(b) == After(KeysOf(a), e) && InStep(b)
  {
    NextIdFresh(a);
    AfterKeepsOk(KeysOf(a), e);
    hide KeysOk, KeysOf, Inserts, After;
    match e
    case Stored => StoredKeys(space, cfg, a, vector, meta, b);
    case TurnedAway => TurnedAwayKeys(space, cfg, a, vector, meta, b);
    case _ => UndoneKeys(space, cfg, a, vector, meta, e, b);
  }

  lemma StoredKeys(space: Space, cfg: Config, a: Snapshot, vector: Vector, meta: Metadata, b: Snapshot)
    requires Inserts(space, cfg, a, vector, meta, Stored, b)
    ensures KeysOf(b) == After(KeysOf(a), Stored)
  {
    InsertedIds(space, cfg, a.index, a.nextId, vector, b.index);
    hide Held;
  }

  /** An insertion that the index refuses only uses up an id. */
  lemma TurnedAwayKeys(space: Space, cfg: Config, a: Snapshot, vector: Vector, meta: Metadata, b: Snapshot)
    requires Inserts(space, cfg, a, vector, meta, TurnedAway, b)
    ensures b == a.(nextId := a.nextId + 1)
    ensures KeysOf(b) == After(KeysOf(a), TurnedAway)
  {
  }

  lemma UndoneKeys(space: Space, cfg: Config, a: Snapshot, vector: Vector, meta: Metadata, e: Event, b: Snapshot)
    requires e == StoreFailed || e == AppendFailed
    requires Inserts(space, cfg, a, vector, meta, e, b) && a.nextId !in a.index.graph.index
    ensures KeysOf(b) == After(KeysOf(a), e)
  {
    TakenBackIds(space, cfg, a.index, a.nextId, vector, b.index);
    hide Held, TakenBack;
  }

  lemma AfterKeepsOk(k: Keys, e: Event)
    requires KeysOk(k)
    ensures KeysOk(After(k, e))
  {
  }

  lemma TakenBackIds(space: Space, cfg: Config, s: State, id: VectorId, vector: Vector, t: State)
    requires TakenBack(space, cfg, s, id, vector, t) && id !in s.graph.index
    ensures t.graph.index.Keys == s.graph.index.Keys
    ensures Held(t) == Held(s) + {id}
  {
    var middle :| Inserted(space, cfg, s, id, vector, middle) && Removed(middle, id, t);
    InsertedIds(space, cfg, s, id, vector, middle);
    RemovedIds(middle, id, t);
  }

  /** What a removal does. */
  ghost predicate Removes(a: Snapshot, id: VectorId, b: Snapshot) {
    if id in a.index.graph.index
    then Removed(a.index, id, b.index) && b == Snapshot(b.index, a.vectors - {id}, a.records - {id}, a.nextId)
    else b == a
  }

  lemma RemoveKeepsStep(a: Snapshot, id: VectorId, b: Snapshot)
    requires InStep(a) && Removes(a, id, b)
    ensures InStep(b) && KeysOf(b) == After(KeysOf(a), Erased(id))
  {
    if id in a.index.graph.index {
      RemovedIds(a.index, id, b.index);
    }
  }

  lemma UpdateKeepsStep(a: Snapshot, meta: Metadata)
    requires InStep(a)
    ensures var b := a.(records := a.records[meta.id := meta]);
      InStep(b) && KeysOf(b) == After(KeysOf(a), Rewritten(meta.id))
  {}

  lemma AddThenRemove(vectors: map<VectorId, Vector>, id: VectorId, vector: Vector)
    requires id !in vectors
    ensures vectors[id := vector] - {id} == vectors
  {}

  // ----------------------------------------------------------------------- reopening

  /** What a new session on the same files starts from: the index as it comes back from its file, the
      records, no vectors (the table of slots is not rebuilt), and ids counted on from the number of
      records. */
  ghost function Reopening(s: Snapshot): Snapshot {
    Snapshot(Reopened(s.index), map[], s.records, |s.records| + 1)
  }

  function ReopenedKeys(k: Keys): Keys {
    Keys(k.held, {}, k.metadata, |k.metadata| + 1, k.held)
  }

  /** The index comes back knowing every id it ever held. */
  lemma ReopeningKeys(cfg: Config, s: Snapshot)
    requires Consistent(cfg, s.index)
    ensures KeysOf(Reopening(s)) == ReopenedKeys(KeysOf(s))
  {
    var t := Reopened(s.index);
    forall id
      ensures id in t.graph.index <==> id in Held(s.index)
      ensures id in Held(t) <==> id in Held(s.index)
    {
      ReopenedKnowsEveryId(cfg, s.index, id);
      HeldIsNotFresh(s.index, id);
      HeldIsNotFresh(t, id);
      TableIsLive(cfg, s.index);
      SameFresh(s.index, t, id);
    }
    assert |s.records| == |s.records.Keys|;
  }

  lemma TableIsLive(cfg: Config, s: State)
    requires Consistent(cfg, s)
    ensures forall id :: id in Reopened(s).graph.index ==> Live(Reopened(s).graph, id)
  {
    TableOfDistinct(Revived(s.graph.nodes));
  }

  lemma SameFresh(s: State, t: State, id: VectorId)
    requires t.graph.nodes == Revived(s.graph.nodes)
    ensures Fresh(t, id) <==> Fresh(s, id)
  {
    if Fresh(s, id) {
      assert forall i :: 0 <= i < |t.graph.nodes| ==> t.graph.nodes[i].id == s.graph.nodes[i].id;
    } else {
      var i :| 0 <= i < |s.graph.nodes| && s.graph.nodes[i].id == id;
      assert t.graph.nodes[i].id == id;
    }
  }

  /** All ids from n on are new to the index. */
  ghost predicate FreshFrom(s: State, n: nat) { forall id :: id >= n ==> Fresh(s, id) }

  /** The ids drawn after reopening are all new exactly when no id that the index ever held, removed ones
      included, is larger than the number of records. */
  lemma ReopenedIdsFreshExactlyWhen(s: Snapshot)
    ensures FreshFrom(Reopening(s).index, Reopening(s).nextId) <==>
            forall id :: id in Held(s.index) ==> id <= |s.records|
  {
    forall id
      ensures Fresh(Reopening(s).index, id) <==> id !in Held(s.index)
    {
      HeldIsNotFresh(s.index, id);
      SameFresh(s.index, Reopening(s).index, id);
    }
  }

  /** The first insertion after reopening meets an id that the index knows exactly when the index ever held
      the id that follows the number of records. */
  lemma ReopenedIdClashesExactlyWhen(cfg: Config, s: Snapshot)
    requires Consistent(cfg, s.index)
    ensures Reopening(s).nextId in Reopening(s).index.graph.index <==> |s.records| + 1 in Held(s.index)
  {
    ReopeningKeys(cfg, s);
  }

  /** Where every record belongs to an id that the index held, that is when nothing was ever removed or
      lost: the ids held are those of the records, and these are 1 to n. */
  lemma NothingLostExactlyWhen(k: Keys)
    requires KeysOk(k) && k.metadata <= k.held
    ensures (forall id :: id in k.held ==> id <= |k.metadata|)
            <==> k.held == k.metadata == FirstSlots(|k.metadata| + 1) - {0}
  {
    var n := |k.metadata|;
    var gapless := FirstSlots(n + 1) - {0};
    assert FirstSlots(n + 1) == gapless + {0};
    assert |gapless| == n;
    if forall id :: id in k.held ==> id <= n {
      assert k.held <= gapless;
      if k.metadata < gapless { ProperSubsetSmaller(k.metadata, gapless); }
    }
  }

  /** After reopening, index and vector store are in step exactly when the index never held anything, and all
      three parts agree exactly when there are no records either. */
  lemma ReopenedInStepExactlyWhen(k: Keys)
    ensures KeysOk(ReopenedKeys(k)) <==> k.held == {}
    ensures Agree(ReopenedKeys(k)) <==> k.held == {} && k.metadata == {}
  {
  }

  /** The record is given the drawn id, whatever id it came with. */
  lemma ForgetId(space: Space, cfg: Config, a: Snapshot, vector: Vector, meta: Metadata, e: Event, b: Snapshot)
    requires Inserts(space, cfg, a, vector, meta.(id := a.nextId), e, b)
    ensures Inserts(space, cfg, a, vector, meta, e, b)
  {
  }

  class VectorDatabase {
    const index: HnswIndex
    const vectors: VectorStore
    const metadata: MetadataStore
    var nextId: nat

    ghost function Snap(): Snapshot
      reads this, index, vectors, metadata
    {
      Snapshot(index.S(), vectors.Vectors(), metadata.records, nextId)
    }

    ghost predicate Ready()
      reads index, vectors
    {
      index.Valid() && vectors.Valid() && index.cfg.dimension == vectors.dimension
    }

    ghost predicate Valid()
      reads this, index, vectors, metadata
    {
      Ready() && InStep(Snap())
    }

    /** A new database directory: no index file, no vectors, no metadata. */
    constructor (cfg: Config, space: Space, initialCapacity: nat)
      ensures Valid() && KeysOf(Snap()) == OPENED
      ensures index.cfg == cfg && index.space == space && |vectors.file| == initialCapacity
      ensures fresh(index) && fresh(vectors) && fresh(metadata)
    {
      index := new HnswIndex(cfg, space);
      vectors := new VectorStore(cfg.dimension, initialCapacity);
      metadata := new MetadataStore();
      nextId := 1;
    }

    /** An existing directory: the index as it was loaded, and the records of the metadata file. */
    constructor OverFiles(index: HnswIndex, records: Records, capacity: nat)
      ensures this.index == index && fresh(vectors) && fresh(metadata) && vectors.Valid()
      ensures Snap() == Snapshot(index.S(), map[], records, |records| + 1)
    {
      this.index := index;
      vectors := new VectorStore(index.cfg.dimension, capacity);
      metadata := new MetadataStore();
      nextId := |records| + 1;
      new;
      metadata.records := records;
    }

    /** Writes the files: the index, and the records. */
    method Sync() returns (file: seq<Cell>, records: Records)
      requires index.Valid()
      ensures file == SavedCells(index.cfg, index.S()) && records == metadata.records
    {
      file := Save(index);
      records := metadata.records;
    }

    ghost function LaterOutcome(growable: bool, writable: bool): Event
      reads vectors
    {
      if vectors.Full(growable) then StoreFailed
      else if writable then Stored
      else AppendFailed
    }

    /** How an insertion of a vector of the right dimension ends. */
    ghost function Outcome(id: VectorId, growable: bool, writable: bool): Event
      reads index, vectors
    {
      if index.elementCount >= index.cfg.maxElements || id in index.idToIndex then TurnedAway
      else LaterOutcome(growable, writable)
    }

    ghost function Answer(id: VectorId, vector: Vector, growable: bool, writable: bool): Status
      reads index, vectors
    {
      var r := AddOutcome(index.cfg, index.S(), id, vector);
      if r.Err? then r else if LaterOutcome(growable, writable) == Stored then Ok(()) else Err(IoError)
    }

    /** Inserts under the next id.  Whether the vector file can be grown and the metadata file written
        is decided outside.  In a session that did not start empty the index may know the next id. */
    method AddVector(vector: Vector, meta: Metadata, growable: bool, writable: bool) returns (r: Status, id: VectorId)
      requires Valid() || nextId in index.idToIndex
      modifies this, index, vectors, metadata
      ensures old(Valid()) ==> Valid()
      ensures index.cfg == old(index.cfg) && |old(vectors.file)| <= |vectors.file|
      ensures r == old(Answer(nextId, vector, growable, writable))
      ensures |vector| != index.cfg.dimension ==> Snap() == old(Snap())
      ensures |vector| == index.cfg.dimension ==>
                Inserts(index.space, index.cfg, old(Snap()), vector, meta, old(Outcome(nextId, growable, writable)),
                    Snap())
      ensures |vector| == index.cfg.dimension && old(Valid()) ==>
                KeysOf(Snap()) == After(old(KeysOf(Snap())), old(Outcome(nextId, growable, writable)))
      ensures r.Ok? ==> id == old(nextId)
    {
      hide Inserts, InStep, KeysOf, Held;
      id := 0;
      if |vector| != index.cfg.dimension {
        r := Err(InvalidDimension);
      } else {
        ghost var before, e, valid := Snap(), Outcome(nextId, growable, writable), Valid();
        id := nextId;
        if valid {
          NextIdFresh(before);
        }
        r := AddNext(vector, meta, growable, writable);
        if valid {
          InsertKeepsStep(index.space, index.cfg, before, vector, meta, e, Snap());
        }
      }
    }

    /** Draws the id. */
    method AddNext(vector: Vector, meta: Metadata, growable: bool, writable: bool) returns (r: Status)
      requires nextId in index.idToIndex
               || (Ready() && Fresh(index.S(), nextId) && nextId !in vectors.Vectors())
      requires |vector| == index.cfg.dimension
      modifies this, index, vectors, metadata
      ensures old(Ready()) ==> Ready()
      ensures index.cfg == old(index.cfg) && |old(vectors.file)| <= |vectors.file|
      ensures r == old(Answer(nextId, vector, growable, writable))
      ensures Inserts(index.space, index.cfg, old(Snap()), vector, meta, old(Outcome(nextId, growable, writable)),
              Snap())
    {
      hide Inserts;
      ghost var before := Snap();
      var id := nextId;
      nextId := nextId + 1;
      assert Snap().(nextId := id) == before;
      r := AddStages(id, vector, meta.(id := id), growable, writable);
      ForgetId(index.space, index.cfg, before, vector, meta, old(Outcome(nextId, growable, writable)), Snap());
    }

    /** An insertion into a database with room for it. */
    method AddWithRoom(vector: Vector, meta: Metadata)
      requires Valid() && |vector| == index.cfg.dimension && vectors.file != []
      requires |KeysOf(Snap()).index| < index.cfg.maxElements
      modifies this, index, vectors, metadata
      ensures Valid() && index.cfg == old(index.cfg) && vectors.file != []
      ensures KeysOf(Snap()) == After(old(KeysOf(Snap())), Stored)
    {
      NextIdFresh(Snap());
      assert Outcome(nextId, true, true) == Stored;
      hide Inserts, InStep, Held;
      var r, id := AddVector(vector, meta, true, true);
    }

    /** An insertion under an id that the index already knows. */
    method AddKnown(vector: Vector, meta: Metadata) returns (r: Status)
      requires nextId in index.idToIndex
      requires |vector| == index.cfg.dimension && index.elementCount < index.cfg.maxElements
      modifies this, index, vectors, metadata
      ensures r == Err(InvalidVectorId) && Snap() == old(Snap()).(nextId := old(nextId) + 1)
    {
      ghost var before := Snap();
      assert Outcome(nextId, true, true) == TurnedAway;
      assert Answer(nextId, vector, true, true) == Err(InvalidVectorId);
      hide *;
      var id;
      r, id := AddVector(vector, meta, true, true);
      TurnedAwayKeys(index.space, index.cfg, before, vector, meta, Snap());
    }

    /** The three stages under a drawn id, each undone when a later one fails. */
    method AddStages(id: VectorId, vector: Vector, meta: Metadata, growable: bool, writable: bool) returns (r: Status)
      requires id in index.idToIndex || (Ready() && Fresh(index.S(), id) && id !in vectors.Vectors())
      requires nextId == id + 1 && |vector| == index.cfg.dimension && meta.id == id
      modifies index, vectors, metadata
      ensures old(Ready()) ==> Ready()
      ensures index.cfg == old(index.cfg) && |old(vectors.file)| <= |vectors.file|
      ensures r == old(Answer(id, vector, growable, writable))
      ensures Inserts(index.space, index.cfg, old(Snap()).(nextId := id), vector, meta,
                      old(Outcome(id, growable, writable)), Snap())
    {
      ghost var before := Snap().(nextId := id);
      ghost var answer, outcome, later :=
        Answer(id, vector, growable, writable), Outcome(id, growable, writable), LaterOutcome(growable, writable);
      assert outcome == if AddOutcome(index.cfg, index.S(), id, vector).Err? then TurnedAway else later;
      assert answer == if outcome == TurnedAway then AddOutcome(index.cfg, index.S(), id, vector)
                       else if later == Stored then Ok(()) else Err(IoError);
      assert later == Stored || later == StoreFailed || later == AppendFailed;
      RefusedInserts(index.space, index.cfg, before, vector, meta, before.(nextId := id + 1));
      hide Inserts, Settles, KeysOk, KeysOf, InStep;
      r := AddToIndex(id, vector);
      if r.Ok? {
        ghost var middle := Snap();
        r := StoreOrTakeBack(id, vector, meta, growable, writable);
        StagesInsert(index.space, index.cfg, before, middle, vector, meta, later, Snap());
      }
    }

    method AddToIndex(id: VectorId, vector: Vector) returns (r: Status)
      requires id in index.idToIndex || (Ready() && Fresh(index.S(), id))
      modifies index
      ensures index.cfg == old(index.cfg)
      ensures r == AddOutcome(index.cfg, old(index.S()), id, vector)
      ensures r.Err? ==> index.S() == old(index.S())
      ensures r.Ok? ==> Ready() && Inserted(index.space, index.cfg, old(index.S()), id, vector, index.S())
      ensures r.Ok? ==> id in index.idToIndex && vectors.Vectors() == old(vectors.Vectors())
    {
      ghost var s := index.S();
      r := index.Add(id, vector);
      if r.Ok? {
        InsertedIds(index.space, index.cfg, s, id, vector, index.S());
        assert id in index.S().graph.index.Keys;
      }
    }

    /** The stages after the index, which is undone when they fail. */
    method StoreOrTakeBack(id: VectorId, vector: Vector, meta: Metadata, growable: bool, writable: bool)
      returns (r: Status)
      requires Ready() && id in index.idToIndex && id !in vectors.Vectors()
      requires |vector| == vectors.dimension && meta.id == id
      modifies index, vectors, metadata
      ensures Ready() && index.cfg == old(index.cfg) && |old(vectors.file)| <= |vectors.file|
      ensures r == if old(LaterOutcome(growable, writable)) == Stored then Ok(()) else Err(IoError)
      ensures Settles(old(Snap()), id, vector, meta, old(LaterOutcome(growable, writable)), Snap())
    {
      r := AddToStores(id, vector, meta, growable, writable);
      if r.Err? {
        var gone := index.Remove(id);
      }
    }

    /** The second and third stage; a vector whose metadata is refused is taken out again. */
    method AddToStores(id: VectorId, vector: Vector, meta: Metadata, growable: bool, writable: bool) returns (r: Status)
      requires vectors.Valid() && id !in vectors.Vectors() && |vector| == vectors.dimension && meta.id == id
      modifies vectors, metadata
      ensures vectors.Valid() && |old(vectors.file)| <= |vectors.file|
      ensures r == if old(vectors.Full(growable)) || !writable then Err(IoError) else Ok(())
      ensures vectors.Vectors() == if r.Ok? then old(vectors.Vectors())[id := vector] else old(vectors.Vectors())
      ensures metadata.records ==
        if old(vectors.Full(growable)) then old(metadata.records) else old(metadata.records)[id := meta]
    {
      ghost var before := vectors.Vectors();
      r := vectors.Add(id, vector, growable);
      if r.Ok? {
        AddThenRemove(before, id, vector);
        r := RecordOrTakeOut(id, meta, writable);
      }
    }

    method RecordOrTakeOut(id: VectorId, meta: Metadata, writable: bool) returns (r: Status)
      requires vectors.Valid() && meta.id == id
      modifies vectors, metadata
      ensures vectors.Valid() && |old(vectors.file)| <= |vectors.file|
      ensures r == if writable then Ok(()) else Err(IoError)
      ensures vectors.Vectors() == if writable then old(vectors.Vectors()) else old(vectors.Vectors()) - {id}
      ensures metadata.records == old(metadata.records)[id := meta]
    {
      r := metadata.Add(meta, writable);
      if r.Err? {
        var gone := vectors.Remove(id);
      }
    }

    method Remove(id: VectorId) returns (r: Status)
      requires Valid()
      modifies index, vectors, metadata
      ensures Valid() && index.cfg == old(index.cfg)
      ensures r == if id in old(index.idToIndex) then Ok(()) else Err(VectorNotFound)
      ensures Removes(old(Snap()), id, Snap())
      ensures KeysOf(Snap()) == After(old(KeysOf(Snap())), Erased(id))
    {
      ghost var before := Snap();
      r := index.Remove(id);
      if r.Ok? {
        RemoveFromStores(id);
      }
      RemoveKeepsStep(before, id, Snap());
    }

    method RemoveFromStores(id: VectorId)
      requires vectors.Valid()
      modifies vectors, metadata
      ensures vectors.Valid()
      ensures Snap() == old(Snap()).(vectors := old(Snap()).vectors - {id}, records := old(Snap()).records - {id})
    {
      var gone := vectors.Remove(id);
      metadata.Remove(id);
    }

    /** Replaces the record that the new metadata names; the id passed beside it is not looked at. */
    method UpdateMetadata(id: VectorId, meta: Metadata)
      requires Valid()
      modifies metadata
      ensures Valid()
      ensures Snap() == old(Snap()).(records := old(metadata.records)[meta.id := meta])
    {
      UpdateKeepsStep(Snap(), meta);
      metadata.Update(meta);
    }

    /** Closes the gaps in the vector file; nothing a reader can see changes. */
    method Compact()
      requires Valid()
      modifies vectors
      ensures Valid() && Snap() == old(Snap())
      ensures UsedSlots(vectors.offsets) == FirstSlots(|vectors.offsets|)
    {
      vectors.Compact();
    }

    /** What the index was asked for: k results, or 2k passing the exact filters when there are any. */
    ghost predicate Searched(query: Vector, o: QueryOptions, raw: seq<SearchResult>)
      reads this, index, metadata
    {
      if o.typeFilter.Some? || o.dateFilter.Some? || o.assetFilter.Some?
      then exists candidates ::
             && SearchAnswer(index.space, index.cfg, index.S(), query, o.k * 2 * 3, candidates)
             && raw == FirstPassing(candidates, ExactFilter(metadata.records, o), o.k * 2)
      else SearchAnswer(index.space, index.cfg, index.S(), query, o.k, raw)
    }

    /** A result names a live element of the index, at its true distance, whose record has the type, date and asset
        asked for. */
    ghost predicate Answered(query: Vector, o: QueryOptions, q: QueryResult)
      reads this, index, metadata
    {
      && Live(index.G(), q.id) && q.distance == DistanceTo(index.space, index.G(), query, q.id)
      && (o.typeFilter.Some? ==>
            q.id in metadata.records && metadata.records[q.id].docType == o.typeFilter.value)
      && (o.dateFilter.Some? ==> q.id in metadata.records && metadata.records[q.id].date == o.dateFilter.value)
      && (o.assetFilter.Some? ==> q.id in metadata.records && metadata.records[q.id].asset == o.assetFilter.value)
    }

    lemma SearchedIsRanked(query: Vector, o: QueryOptions, raw: seq<SearchResult>)
      requires Searched(query, o, raw)
      ensures Ranked(raw)
      ensures forall r :: r in raw ==> Answered(query, o, QueryResult(r.id, r.distance, 1.0 - r.distance, None))
    {
      if o.typeFilter.Some? || o.dateFilter.Some? || o.assetFilter.Some? {
        var candidates :| SearchAnswer(index.space, index.cfg, index.S(), query, o.k * 2 * 3, candidates)
                          && raw == FirstPassing(candidates, ExactFilter(metadata.records, o), o.k * 2);
        AnswerIsSorted(index.space, index.cfg, index.S(), query, o.k * 2 * 3, candidates);
        SearchIsRanked(index.space, index.cfg, index.S(), query, o.k * 2 * 3, candidates);
        PassingIsRanked(candidates, ExactFilter(metadata.records, o), o.k * 2);
      } else {
        AnswerIsSorted(index.space, index.cfg, index.S(), query, o.k, raw);
        SearchIsRanked(index.space, index.cfg, index.S(), query, o.k, raw);
      }
    }

    /** On a connected index with a live entry point, a query whose beam is as wide as the index and whose six k
        cover it is answered by the k nearest of the elements that meet its type, date and asset filters. */
    lemma QueryIsExact(query: Vector, o: QueryOptions, raw: seq<SearchResult>, results: seq<QueryResult>)
      requires index.Valid() && Connected(index.G()) && |query| == index.cfg.dimension
      requires index.elementCount > 0 ==> Live(index.G(), index.entryPoint)
      requires index.cfg.efSearch >= index.elementCount && o.k >= 1 && 6 * o.k >= index.elementCount
      requires o.dateFrom.None? && o.dateTo.None? && o.biasFilter.None? && !o.deduplicateByDate
      requires Searched(query, o, raw) && Filtered(metadata.records, o, raw, results)
      ensures ShowsBest(Wanted(index.space, index.G(), metadata.records, query, o), o.k, Bare(results))
    {
      var s := index.S();
      PlainQueryIsFront(metadata.records, o, raw, results);
      hide Filtered, Wanted;
      if o.typeFilter.Some? || o.dateFilter.Some? || o.assetFilter.Some? {
        var candidates :| SearchAnswer(index.space, index.cfg, s, query, o.k * 2 * 3, candidates)
                          && raw == FirstPassing(candidates, ExactFilter(metadata.records, o), o.k * 2);
        FilteredQueryExact(index.space, index.cfg, s, metadata.records, query, o, candidates);
        BestFront(Wanted(index.space, index.G(), metadata.records, query, o), o.k, o.k * 2, raw);
      } else {
        PlainQueryExact(index.space, index.cfg, s, metadata.records, query, o, raw);
        BestFront(Wanted(index.space, index.G(), metadata.records, query, o), o.k, o.k, raw);
      }
    }

    lemma QueryAnswered(query: Vector, o: QueryOptions, raw: seq<SearchResult>, results: seq<QueryResult>)
      requires Searched(query, o, raw) && Filtered(metadata.records, o, raw, results)
      ensures Answers(metadata.records, o, results)
      ensures forall q :: q in results ==> Answered(query, o, q)
    {
      SearchedIsRanked(query, o, raw);
      FilteredAnswers(metadata.records, o, raw, results);
      forall q | q in results
        ensures Answered(query, o, q)
      {
        assert SearchResult(q.id, q.distance) in raw;
      }
    }

    method SearchIndex(query: Vector, o: QueryOptions) returns (raw: seq<SearchResult>)
      requires index.Valid()
      ensures Searched(query, o, raw)
    {
      if o.typeFilter.Some? || o.dateFilter.Some? || o.assetFilter.Some? {
        raw := index.SearchFiltered(query, o.k * 2, ExactFilter(metadata.records, o));
      } else {
        raw := index.Search(query, o.k);
      }
    }

    method QueryVector(query: Vector, o: QueryOptions) returns (r: Status, results: seq<QueryResult>)
      requires Valid()
      modifies index`cfg
      ensures Valid() && Snap() == old(Snap())
      ensures r == if |query| != index.cfg.dimension then Err(InvalidDimension) else Ok(())
      ensures index.cfg == if r.Ok? && o.efSearch > 0 then old(index.cfg).(efSearch := o.efSearch) else old(index.cfg)
      ensures r.Ok? ==> exists raw :: Searched(query, o, raw) && Filtered(metadata.records, o, raw, results)
      ensures r.Ok? ==> Answers(metadata.records, o, results)
      ensures r.Ok? ==> forall q :: q in results ==> Answered(query, o, q)
    {
      hide InStep, Filtered, Answers, Answered, Searched;
      results := [];
      if |query| != index.cfg.dimension {
        return Err(InvalidDimension), results;
      }
      if o.efSearch > 0 {
        index.SetEfSearch(o.efSearch);
      }
      results := SearchAndFilter(query, o);
      return Ok(()), results;
    }

    method SearchAndFilter(query: Vector, o: QueryOptions) returns (results: seq<QueryResult>)
      requires index.Valid()
      ensures exists raw :: Searched(query, o, raw) && Filtered(metadata.records, o, raw, results)
      ensures Answers(metadata.records, o, results) && forall q :: q in results ==> Answered(query, o, q)
    {
      hide Filtered, Answers, Answered, Searched;
      var raw := SearchIndex(query, o);
      results := ApplyFilters(metadata.records, o, raw);
      QueryAnswered(query, o, raw, results);
    }
  }

  /** Opens the files of an earlier session. */
  method Open(file: seq<Cell>, records: Records, spaceOf: nat -> Space, defaults: Config, capacity: nat)
    returns (r: Result<VectorDatabase>)
    ensures if KnownHeader(file) then r.Ok? else r == Err(IndexCorrupted)
    ensures r.Ok? ==> fresh(r.value) && fresh(r.value.index) && fresh(r.value.vectors) && fresh(r.value.metadata)
    ensures r.Ok? ==> r.value.index.cfg == LoadedConfig(file, defaults)
    ensures r.Ok? ==> r.value.Snap() == Snapshot(LoadedState(file, defaults), map[], records, |records| + 1)
  {
    var loaded := Load(file, spaceOf, defaults);
    if loaded.Err? {
      return Err(loaded.error);
    }
    var db := new VectorDatabase.OverFiles(loaded.value, records, capacity);
    return Ok(db);
  }

  const THREE_IN_ONE_OUT: seq<Event> := [Stored, Stored, Stored, Erased(3)]

  /** Ids 1 to n stored and nothing else done. */
  function Filled(n: nat): (k: Keys)
    ensures k.nextId == n + 1 && |k.index| == n
    ensures forall id :: id in k.index <==> 1 <= id <= n
  {
    if n == 0 then OPENED else After(Filled(n - 1), Stored)
  }

  lemma RunOneMore(events: seq<Event>, e: Event)
    ensures RunKeys(events + [e]) == After(RunKeys(events), e)
  {
    assert (events + [e])[..|events|] == events;
  }

  lemma {:induction false} FilledRun(n: nat)
    ensures RunKeys(seq(n, i => Stored)) == Filled(n)
  {
    hide After;
    if n > 0 {
      FilledRun(n - 1);
      RunOneMore(seq(n - 1, i => Stored), Stored);
      assert seq(n - 1, i => Stored) + [Stored] == seq(n, i => Stored);
    }
  }

  lemma FilledSteps()
    ensures Filled(0) == OPENED && forall n: nat :: Filled(n + 1) == After(Filled(n), Stored)
  {
  }

  lemma FilledThree()
    ensures Filled(3) == Keys({1, 2, 3}, {1, 2, 3}, {1, 2, 3}, 4, {1, 2, 3})
  {
    assert Filled(1) == Keys({1}, {1}, {1}, 2, {1});
    assert Filled(2) == Keys({1, 2}, {1, 2}, {1, 2}, 3, {1, 2});
    assert Filled(3) == After(Filled(2), Stored);
  }

  lemma ThreeInOneOutKeys()
    ensures RunKeys(THREE_IN_ONE_OUT) == After(Filled(3), Erased(3))
    ensures After(Filled(3), Erased(3)) == Keys({1, 2}, {1, 2}, {1, 2}, 4, {1, 2, 3})
  {
    FilledRun(3);
    RunOneMore(seq(3, i => Stored), Erased(3));
    assert seq(3, i => Stored) + [Erased(3)] == THREE_IN_ONE_OUT;
    FilledThree();
    hide Filled, RunKeys;
    assert {1, 2, 3} - {3} == {1, 2};
  }

  /** Three insertions and the removal of the last one. */
  method ThreeInOneOut(cfg: Config, space: Space, vector: Vector, meta: Metadata) returns (db: VectorDatabase)
    requires |vector| == cfg.dimension && cfg.maxElements >= 3
    ensures fresh(db) && db.Valid() && db.index.cfg == cfg
    ensures KeysOf(db.Snap()) == RunKeys(THREE_IN_ONE_OUT)
  {
    ThreeInOneOutKeys();
    FilledSteps();
    hide *;
    db := new VectorDatabase(cfg, space, 3);
    for i := 0 to 3
      invariant fresh(db) && fresh(db.index) && fresh(db.vectors) && fresh(db.metadata)
      invariant db.Valid() && db.index.cfg == cfg && db.vectors.file != []
      invariant KeysOf(db.Snap()) == Filled(i)
    {
      db.AddWithRoom(vector, meta);
    }
    var gone := db.Remove(3);
  }

  /** What a session on the files of that one starts from: the next id is 3, which the loaded index knows. */
  lemma ThreeInOneOutReopened(cfg: Config, s: Snapshot)
    requires Consistent(cfg, s.index) && KeysOf(s) == RunKeys(THREE_IN_ONE_OUT)
    ensures Reopening(s).nextId == 3 && 3 in Reopening(s).index.graph.index
    ensures Reopening(s).index.elementCount == 2
  {
    ThreeInOneOutKeys();
    hide RunKeys;
    ReopeningKeys(cfg, s);
    assert |s.records| == |s.records.Keys| == |{1, 2}|;
    assert |s.index.graph.index| == |s.index.graph.index.Keys| == |{1, 2}|;
  }

  /** So its first insertion is refused; `s` is what the first session left. */
  method RemovedIdClashes(cfg: Config, spaceOf: nat -> Space, vector: Vector, meta: Metadata)
    returns (again: VectorDatabase, r: Status, ghost s: Snapshot)
    requires |vector| == cfg.dimension && cfg.maxElements >= 3
    ensures KeysOf(s) == RunKeys(THREE_IN_ONE_OUT)
    ensures r == Err(InvalidVectorId) && again.Snap() == Reopening(s).(nextId := 4)
  {
    var db := ThreeInOneOut(cfg, spaceOf(cfg.metric), vector, meta);
    s := db.Snap();
    ThreeInOneOutReopened(cfg, s);
    hide *;
    again := OpenAgain(db, spaceOf);
    r := again.AddKnown(vector, meta);
  }

  /** Writes the files of a database and opens them again. */
  method OpenAgain(db: VectorDatabase, spaceOf: nat -> Space) returns (again: VectorDatabase)
    requires db.index.Valid()
    ensures fresh(again) && fresh(again.index) && fresh(again.vectors) && fresh(again.metadata)
    ensures again.index.cfg == db.index.cfg && again.Snap() == Reopening(db.Snap())
  {
    var file, records := db.Sync();
    SavedReadsBack(db.index.cfg, db.index.S(), db.index.cfg);
    var reopened := Open(file, records, spaceOf, db.index.cfg, |db.vectors.file|);
    again := reopened.value;
  }

  /** The filter handed to the index: an id without metadata never passes. */
  function ExactFilter(records: Records, o: QueryOptions): VectorId -> bool {
    (id: VectorId) => id in records && MeetsExactFilters(o, records[id])
  }
}
