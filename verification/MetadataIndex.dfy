/**
 The metadata index: per-field posting sets and sorted numeric keys, kept in step with the records
 they were built from, and queries that equal a linear scan of those records.
 */
module MetadataIndexes {
  import opened Results

  type RecordId = nat

  /** `kind` is the document type as the decimal text it is indexed under. */
  datatype Metadata = Metadata(date: string, kind: string, asset: string, bias: string, sourceFile: string,
      contentHash: string)

  function FieldValue(m: Metadata, field: string): string {
    if field == "date" then m.date
    else if field == "type" then m.kind
    else if field == "asset" then m.asset
    else if field == "bias" then m.bias
    else if field == "source_file" then m.sourceFile
    else if field == "content_hash" then m.contentHash
    else ""
  }

  /** Text to number; None where the conversion throws. */
  type Parser = string -> Option<real>

  datatype InvertedIndex = InvertedIndex(
    isNumeric: bool,
    postings: map<string, set<RecordId>>,
    numeric: map<real, set<RecordId>>)

  // --------------------------------------------------------------- index and records

  /** The records whose field has the given text. */
  ghost function Having(records: map<RecordId, Metadata>, field: string, value: string): set<RecordId> {
    set id | id in records && FieldValue(records[id], field) == value
  }

  /** The records whose non-empty field text parses to the given number. */
  ghost function Parsing(records: map<RecordId, Metadata>, field: string, stod: Parser, x: real): set<RecordId> {
    set id | id in records && FieldValue(records[id], field) != "" && stod(FieldValue(records[id], field)) == Some(x)
  }

  ghost predicate PostingsMirror(idx: InvertedIndex, field: string, records: map<RecordId, Metadata>) {
    forall v :: (v in idx.postings <==> v != "" && Having(records, field, v) != {})
                && (v in idx.postings ==> idx.postings[v] == Having(records, field, v))
  }

  ghost predicate NumericMirror(idx: InvertedIndex, field: string, records: map<RecordId, Metadata>, stod: Parser) {
    forall x :: (x in idx.numeric <==> idx.isNumeric && Parsing(records, field, stod, x) != {})
                && (x in idx.numeric ==> idx.numeric[x] == Parsing(records, field, stod, x))
  }

  ghost predicate Mirrors(idx: InvertedIndex, field: string, records: map<RecordId, Metadata>, stod: Parser) {
    PostingsMirror(idx, field, records) && NumericMirror(idx, field, records, stod)
  }

  // ---------------------------------------------------------------- insert and remove

  function Enter<K>(table: map<K, set<RecordId>>, key: K, id: RecordId): map<K, set<RecordId>> {
    table[key := (if key in table then table[key] else {}) + {id}]
  }

  /** Erases an id from the set under a key, and the set itself when it becomes empty. */
  function Leave<K>(table: map<K, set<RecordId>>, key: K, id: RecordId): map<K, set<RecordId>> {
    if key !in table then table
    else if table[key] - {id} == {} then table - {key}
    else table[key := table[key] - {id}]
  }

  function Inserted(idx: InvertedIndex, id: RecordId, value: string, stod: Parser): InvertedIndex {
    if value == "" then idx
    else
      InvertedIndex(idx.isNumeric, Enter(idx.postings, value, id),
        if idx.isNumeric && stod(value).Some? then Enter(idx.numeric, stod(value).value, id) else idx.numeric)
  }

  function Erased(idx: InvertedIndex, id: RecordId, value: string, stod: Parser): InvertedIndex {
    if value == "" then idx
    else
      InvertedIndex(idx.isNumeric, Leave(idx.postings, value, id),
        if idx.isNumeric && stod(value).Some? then Leave(idx.numeric, stod(value).value, id) else idx.numeric)
  }

  /** What the record of an id holds in a field is nothing, or `value`. */
  predicate Unstale(records: map<RecordId, Metadata>, id: RecordId, field: string, value: string) {
    id in records ==> FieldValue(records[id], field) == "" || FieldValue(records[id], field) == value
  }

  lemma InsertKeepsMirror(idx: InvertedIndex, field: string, records: map<RecordId, Metadata>, stod: Parser,
                          id: RecordId, m: Metadata)
    requires Mirrors(idx, field, records, stod)
    requires Unstale(records, id, field, FieldValue(m, field))
    ensures Mirrors(Inserted(idx, id, FieldValue(m, field), stod), field, records[id := m], stod)
  {
    InsertKeepsPostings(idx, field, records, stod, id, m);
    InsertKeepsNumeric(idx, field, records, stod, id, m);
  }

  lemma InsertKeepsPostings(idx: InvertedIndex, field: string, records: map<RecordId, Metadata>, stod: Parser,
                            id: RecordId, m: Metadata)
    requires PostingsMirror(idx, field, records)
    requires Unstale(records, id, field, FieldValue(m, field))
    ensures PostingsMirror(Inserted(idx, id, FieldValue(m, field), stod), field, records[id := m])
  {
    var value := FieldValue(m, field);
    var next := Inserted(idx, id, value, stod);
    assert next.postings == if value == "" then idx.postings else Enter(idx.postings, value, id);
    forall v
      ensures (v in next.postings <==> v != "" && Having(records[id := m], field, v) != {})
              && (v in next.postings ==> next.postings[v] == Having(records[id := m], field, v))
    {
      if v != "" {
        HavingAfter(records, field, id, m, v);
      }
    }
  }

  lemma HavingAfter(records: map<RecordId, Metadata>, field: string, id: RecordId, m: Metadata, v: string)
    requires Unstale(records, id, field, FieldValue(m, field)) && v != ""
    ensures Having(records[id := m], field, v)
         == Having(records, field, v) + if v == FieldValue(m, field) then {id} else {}
  {
    hide FieldValue;
  }

  lemma InsertKeepsNumeric(idx: InvertedIndex, field: string, records: map<RecordId, Metadata>, stod: Parser,
                           id: RecordId, m: Metadata)
    requires NumericMirror(idx, field, records, stod)
    requires Unstale(records, id, field, FieldValue(m, field))
    ensures NumericMirror(Inserted(idx, id, FieldValue(m, field), stod), field, records[id := m], stod)
  {
    var value := FieldValue(m, field);
    var after := records[id := m];
    var next := Inserted(idx, id, value, stod);
    forall x
      ensures (x in next.numeric <==> next.isNumeric && Parsing(after, field, stod, x) != {})
              && (x in next.numeric ==> next.numeric[x] == Parsing(after, field, stod, x))
    {
      assert Parsing(after, field, stod, x) == Parsing(records, field, stod, x)
             + if value != "" && stod(value) == Some(x) then {id} else {};
    }
  }

  /** Inserting an id keeps an index in step with the records exactly when the id leaves nothing behind there:
      a posting under another text stays. */
  lemma InsertMirrorsExactlyWhen(idx: InvertedIndex, field: string, records: map<RecordId, Metadata>, stod: Parser,
                                 id: RecordId, m: Metadata)
    requires Mirrors(idx, field, records, stod)
    ensures Mirrors(Inserted(idx, id, FieldValue(m, field), stod), field, records[id := m], stod)
            <==> Unstale(records, id, field, FieldValue(m, field))
  {
    if Unstale(records, id, field, FieldValue(m, field)) {
      InsertKeepsMirror(idx, field, records, stod, id, m);
    } else {
      var recorded := FieldValue(records[id], field);
      assert id in Having(records, field, recorded);
      StalePosting(Inserted(idx, id, FieldValue(m, field), stod), field, records[id := m], stod, id, recorded);
    }
  }

  /** A posting under a text that the record does not have. */
  lemma StalePosting(idx: InvertedIndex, field: string, records: map<RecordId, Metadata>, stod: Parser, id: RecordId,
                     value: string)
    requires value in idx.postings && id in idx.postings[value]
    requires id in records ==> FieldValue(records[id], field) != value
    ensures !Mirrors(idx, field, records, stod)
  {
    assert id !in Having(records, field, value);
  }

  lemma EraseKeepsMirror(idx: InvertedIndex, field: string, records: map<RecordId, Metadata>, stod: Parser,
                         id: RecordId)
    requires Mirrors(idx, field, records, stod)
    requires id in records
    ensures Mirrors(Erased(idx, id, FieldValue(records[id], field), stod), field, records - {id}, stod)
  {
    var value := FieldValue(records[id], field);
    var after := records - {id};
    var next := Erased(idx, id, value, stod);
    forall v
      ensures (v in next.postings <==> v != "" && Having(after, field, v) != {})
              && (v in next.postings ==> next.postings[v] == Having(after, field, v))
    {
      assert Having(after, field, v) == Having(records, field, v) - {id};
      assert v != value ==> id !in Having(records, field, v);
    }
    forall x
      ensures (x in next.numeric <==> next.isNumeric && Parsing(after, field, stod, x) != {})
              && (x in next.numeric ==> next.numeric[x] == Parsing(after, field, stod, x))
    {
      assert Parsing(after, field, stod, x) == Parsing(records, field, stod, x) - {id};
      assert stod(value) != Some(x) ==> id !in Parsing(records, field, stod, x);
      assert id in Parsing(records, field, stod, x) ==> value != "" && stod(value) == Some(x);
    }
  }

  /** Erasing an id that a field does not index changes nothing. */
  lemma EraseAbsent(idx: InvertedIndex, field: string, records: map<RecordId, Metadata>, stod: Parser, id: RecordId,
                    value: string)
    requires Mirrors(idx, field, records, stod)
    requires id in records ==> FieldValue(records[id], field) == ""
    ensures Erased(idx, id, value, stod) == idx
    ensures Mirrors(idx, field, records - {id}, stod)
  {
    if value in idx.postings {
      assert idx.postings[value] - {id} == idx.postings[value];
      assert Leave(idx.postings, value, id) == idx.postings;
    }
    if value != "" && stod(value).Some? && stod(value).value in idx.numeric {
      var x := stod(value).value;
      assert idx.numeric[x] - {id} == idx.numeric[x];
      assert Leave(idx.numeric, x, id) == idx.numeric;
    }
    SameHoldings(idx, field, records, records - {id}, stod);
  }

  /** An index mirrors other records as well when they have the same non-empty texts. */
  lemma SameHoldings(idx: InvertedIndex, field: string, records: map<RecordId, Metadata>,
                     other: map<RecordId, Metadata>, stod: Parser)
    requires Mirrors(idx, field, records, stod)
    requires forall id :: (id in records && FieldValue(records[id], field) != "") <==>
                          (id in other && FieldValue(other[id], field) != "")
    requires forall id :: id in records && id in other ==>
            FieldValue(records[id], field) == FieldValue(other[id], field)
    ensures Mirrors(idx, field, other, stod)
  {
    assert forall v :: v != "" ==> Having(records, field, v) == Having(other, field, v);
    assert forall x :: Parsing(records, field, stod, x) == Parsing(other, field, stod, x);
  }

  /** Erasing an id under `value` keeps an index in step exactly when the id was recorded with that text there,
      or with none, or not at all. */
  lemma EraseMirrorsExactlyWhen(idx: InvertedIndex, field: string, records: map<RecordId, Metadata>, stod: Parser,
                                id: RecordId, value: string)
    requires Mirrors(idx, field, records, stod)
    ensures Mirrors(Erased(idx, id, value, stod), field, records - {id}, stod) <==> Unstale(records, id, field, value)
  {
    if id !in records || FieldValue(records[id], field) == "" {
      EraseAbsent(idx, field, records, stod, id, value);
    } else if FieldValue(records[id], field) == value {
      EraseKeepsMirror(idx, field, records, stod, id);
    } else {
      var recorded := FieldValue(records[id], field);
      assert id in Having(records, field, recorded);
      StalePosting(Erased(idx, id, value, stod), field, records - {id}, stod, id, recorded);
    }
  }

  /** Erasing an id under one text and inserting it under another keeps an index in step exactly when the text
      it was recorded with, if any, is one of the two. */
  lemma UpdateMirrorsExactlyWhen(idx: InvertedIndex, field: string, records: map<RecordId, Metadata>, stod: Parser,
                                 id: RecordId, before: string, after: Metadata)
    requires Mirrors(idx, field, records, stod)
    ensures Mirrors(Inserted(Erased(idx, id, before, stod), id, FieldValue(after, field), stod), field,
                    records[id := after], stod)
            <==> Unstale(records, id, field, before) || Unstale(records, id, field, FieldValue(after, field))
  {
    var value := FieldValue(after, field);
    var erased := Erased(idx, id, before, stod);
    EraseMirrorsExactlyWhen(idx, field, records, stod, id, before);
    if Unstale(records, id, field, before) {
      InsertKeepsMirror(erased, field, records - {id}, stod, id, after);
      assert (records - {id})[id := after] == records[id := after];
    } else {
      assert id in Having(records, field, FieldValue(records[id], field));
      if FieldValue(records[id], field) == value {
        EraseThenSame(idx, field, records, stod, id, before);
        SameHoldings(idx, field, records, records[id := after], stod);
      } else {
        StalePosting(Inserted(erased, id, value, stod), field, records[id := after], stod, id,
                     FieldValue(records[id], field));
      }
    }
  }

  /** Erasing under another text and inserting under the recorded one gives back the same index. */
  lemma EraseThenSame(idx: InvertedIndex, field: string, records: map<RecordId, Metadata>, stod: Parser, id: RecordId,
                      before: string)
    requires Mirrors(idx, field, records, stod)
    requires id in records && FieldValue(records[id], field) != "" && FieldValue(records[id], field) != before
    ensures Inserted(Erased(idx, id, before, stod), id, FieldValue(records[id], field), stod) == idx
  {
    var value := FieldValue(records[id], field);
    assert id in Having(records, field, value) && id !in Having(records, field, before);
    LeaveEnterOther(idx.postings, before, value, id);
    if idx.isNumeric && stod(value).Some? {
      var x := stod(value).value;
      assert id in Parsing(records, field, stod, x);
      assert before != "" && stod(before).Some? && stod(before) != stod(value) ==>
             id !in Parsing(records, field, stod, stod(before).value);
      if before != "" && stod(before).Some? {
        LeaveEnter(idx.numeric, stod(before).value, x, id);
      } else {
        assert idx.numeric[x] + {id} == idx.numeric[x];
      }
    } else if idx.isNumeric && before != "" && stod(before).Some? {
      assert id !in Parsing(records, field, stod, stod(before).value);
      LeaveNone(idx.numeric, stod(before).value, id);
    }
  }

  lemma LeaveNone<K>(table: map<K, set<RecordId>>, key: K, id: RecordId)
    requires key in table ==> id !in table[key] && table[key] != {}
    ensures Leave(table, key, id) == table
  {
    if key in table {
      assert table[key] - {id} == table[key];
    }
  }

  lemma LeaveEnterOther<K>(table: map<K, set<RecordId>>, gone: K, key: K, id: RecordId)
    requires key in table && id in table[key]
    requires gone in table ==> id !in table[gone] && table[gone] != {}
    ensures Enter(Leave(table, gone, id), key, id) == table
    ensures Enter(table, key, id) == table
  {
    LeaveNone(table, gone, id);
    assert table[key] + {id} == table[key];
  }

  lemma LeaveEnter<K>(table: map<K, set<RecordId>>, gone: K, key: K, id: RecordId)
    requires key in table && id in table[key]
    requires gone != key && gone in table ==> id !in table[gone] && table[gone] != {}
    ensures Enter(Leave(table, gone, id), key, id) == table
  {
    if gone == key {
      assert table[key] - {id} + {id} == table[key];
    } else {
      LeaveEnterOther(table, gone, key, id);
    }
  }

  /** An index created empty over existing records answers for them exactly when none has the field. */
  lemma LateIndexMirrors(field: string, isNumeric: bool, records: map<RecordId, Metadata>, stod: Parser)
    ensures Mirrors(InvertedIndex(isNumeric, map[], map[]), field, records, stod)
            <==> forall id :: id in records ==> FieldValue(records[id], field) == ""
  {
    var idx := InvertedIndex(isNumeric, map[], map[]);
    if Mirrors(idx, field, records, stod) {
      forall id | id in records
        ensures FieldValue(records[id], field) == ""
      {
        assert id in Having(records, field, FieldValue(records[id], field));
        assert FieldValue(records[id], field) !in idx.postings;
      }
    }
  }

  // -------------------------------------------------------------------------- queries

  datatype FilterOp = Equal | NotEqual | LessThan | LessOrEqual | GreaterThan | GreaterOrEqual | Range | In
                    | NotIn | Contains | StartsWith

  datatype FilterCondition = FilterCondition(field: string, op: FilterOp, value: string, value2: string,
      values: seq<string>)

  predicate InInterval(x: real, lo: real, hi: real, loIncluded: bool, hiIncluded: bool) {
    (lo < x || (loIncluded && x == lo)) && (x < hi || (hiIncluded && x == hi))
  }

  /** Keys that come before the first one a range looks at. */
  predicate Under(x: real, lo: real, loIncluded: bool) {
    x < lo || (x == lo && !loIncluded)
  }

  /** Keys from which on a range looks at nothing. */
  predicate Over(x: real, hi: real, hiIncluded: bool) {
    x > hi || (x == hi && !hiIncluded)
  }

  ghost predicate Increasing(keys: seq<real>) {
    forall i, j :: 0 <= i < j < |keys| ==> keys[i] < keys[j]
  }

  /** `lower` is the first key of the range and `upper` the first one beyond it, as positions in order. */
  ghost predicate RangePositions(keys: seq<real>, lo: real, hi: real, loIncluded: bool, hiIncluded: bool,
                                 lower: nat, upper: nat)
  {
    && lower <= |keys| && upper <= |keys|
    && (forall i :: 0 <= i < lower ==> Under(keys[i], lo, loIncluded))
    && (lower < |keys| ==> !Under(keys[lower], lo, loIncluded))
    && (forall i :: 0 <= i < upper ==> !Over(keys[i], hi, hiIncluded))
    && (upper < |keys| ==> Over(keys[upper], hi, hiIncluded))
  }

  /** Walking from `lower` meets `upper` exactly when no key lies outside both bounds at once; otherwise the walk
      leaves the table.  So a range with its bounds the wrong way round is answered only if no key lies strictly
      between them. */
  lemma RangeWalkEndsExactlyWhen(keys: seq<real>, lo: real, hi: real, loIncluded: bool, hiIncluded: bool,
                                 lower: nat, upper: nat)
    requires Increasing(keys)
    requires RangePositions(keys, lo, hi, loIncluded, hiIncluded, lower, upper)
    ensures lower <= upper <==> forall x :: x in keys ==> !(Under(x, lo, loIncluded) && Over(x, hi, hiIncluded))
  {
    if lower > upper {
      assert keys[upper] in keys;
    } else {
      forall x | x in keys
        ensures !(Under(x, lo, loIncluded) && Over(x, hi, hiIncluded))
      {
        var i :| 0 <= i < |keys| && keys[i] == x;
        if i > lower {
          assert keys[lower] < keys[i];
        }
      }
    }
  }

  /** What lies between the two positions is what lies in the interval. */
  lemma RangeHolds(keys: seq<real>, lo: real, hi: real, loIncluded: bool, hiIncluded: bool, lower: nat, upper: nat,
                   i: nat)
    requires Increasing(keys) && i < |keys|
    requires RangePositions(keys, lo, hi, loIncluded, hiIncluded, lower, upper)
    ensures lower <= i < upper <==> InInterval(keys[i], lo, hi, loIncluded, hiIncluded)
  {
    if i > lower {
      assert keys[lower] < keys[i];
    }
    if i > upper {
      assert keys[upper] < keys[i];
    }
  }

  function InsertKey(keys: seq<real>, x: real): (out: seq<real>)
    ensures forall y :: y in out <==> y == x || y in keys
    ensures Increasing(keys) && x !in keys ==> Increasing(out)
  {
    if keys == [] then [x]
    else if x < keys[0] then
      assert Increasing(keys) ==> forall i :: 0 <= i < |keys| ==> x < keys[i];
      [x] + keys
    else
      var tail := InsertKey(keys[1..], x);
      assert forall y :: y in keys <==> y == keys[0] || y in keys[1..];
      assert Increasing(keys) && x !in keys ==>
          Increasing(tail) && forall j :: 0 <= j < |tail| ==> keys[0] < tail[j] by {
        assert forall j :: 0 <= j < |tail| ==> tail[j] in tail;
      }
      [keys[0]] + tail
  }

  lemma HasElement(s: set<real>)
    requires s != {}
    ensures exists x :: x in s
  {
    if forall x :: x !in s {
      assert false;
    }
  }

  /** The keys of an ordered table, in order. */
  method SortedKeys(s: set<real>) returns (keys: seq<real>)
    ensures Increasing(keys) && forall x :: x in keys <==> x in s
  {
    keys := [];
    var todo := s;
    while todo != {}
      invariant todo <= s && Increasing(keys)
      invariant forall x :: x in keys <==> x in s && x !in todo
      decreases |todo|
    {
      HasElement(todo);
      var x :| x in todo;
      keys := InsertKey(keys, x);
      todo := todo - {x};
    }
  }

  /** Whether a record meets a condition, judged from the record itself. Four operators are never met:
      the query does not implement them. */
  ghost predicate Meets(m: Metadata, c: FilterCondition, isNumeric: bool, stod: Parser) {
    var v := FieldValue(m, c.field);
    && v != ""
    && match c.op
       case Equal => v == c.value
       case In => v in c.values
       case LessThan => isNumeric && stod(v).Some? && stod(c.value).Some? && stod(v).value < stod(c.value).value
       case LessOrEqual => isNumeric && stod(v).Some? && stod(c.value).Some? && stod(v).value <= stod(c.value).value
       case GreaterThan => isNumeric && stod(v).Some? && stod(c.value).Some? && stod(v).value > stod(c.value).value
       case GreaterOrEqual => isNumeric && stod(v).Some? && stod(c.value).Some? && stod(v).value >= stod(c.value).value
       case Range => isNumeric && stod(v).Some? && stod(c.value).Some? && stod(c.value2).Some?
                     && stod(c.value).value <= stod(v).value <= stod(c.value2).value
       case _ => false
  }

  /** All records that meet the condition; none when the field has no index. */
  ghost function Scan(indices: map<string, InvertedIndex>, records: map<RecordId, Metadata>, c: FilterCondition,
                      stod: Parser): set<RecordId>
  {
    set id | id in records && c.field in indices && Meets(records[id], c, indices[c.field].isNumeric, stod)
  }

  /** An equality condition looks at the field it names. */
  lemma EqualByField(indices: map<string, InvertedIndex>, records: map<RecordId, Metadata>, c: FilterCondition,
                     stod: Parser, id: RecordId)
    requires c.op == Equal && c.field in indices
    ensures id in Scan(indices, records, c, stod) ==> id in records && c.value != ""
    ensures id in records && c.value != "" && c.field == "date" ==>
              (id in Scan(indices, records, c, stod) <==> records[id].date == c.value)
    ensures id in records && c.value != "" && c.field == "type" ==>
              (id in Scan(indices, records, c, stod) <==> records[id].kind == c.value)
    ensures id in records && c.value != "" && c.field == "asset" ==>
              (id in Scan(indices, records, c, stod) <==> records[id].asset == c.value)
    ensures id in records && c.value != "" && c.field == "bias" ==>
              (id in Scan(indices, records, c, stod) <==> records[id].bias == c.value)
    ensures id in records && c.value != "" && c.field == "source_file" ==>
              (id in Scan(indices, records, c, stod) <==> records[id].sourceFile == c.value)
    ensures id in records && c.value != "" && c.field == "content_hash" ==>
              (id in Scan(indices, records, c, stod) <==> records[id].contentHash == c.value)
    ensures c.field !in {"date", "type", "asset", "bias", "source_file", "content_hash"} ==>
              id !in Scan(indices, records, c, stod)
  {
  }

  /** A list of values asks for any of them. */
  lemma InIsUnionOfEquals(indices: map<string, InvertedIndex>, records: map<RecordId, Metadata>, c: FilterCondition,
                          stod: Parser, id: RecordId)
    requires c.op == In
    ensures id in Scan(indices, records, c, stod) <==>
            exists v :: v in c.values && id in Scan(indices, records, c.(op := Equal, value := v), stod)
  {
    if id in Scan(indices, records, c, stod) {
      var v := FieldValue(records[id], c.field);
      assert v in c.values && id in Scan(indices, records, c.(op := Equal, value := v), stod);
    }
  }

  /** The records that an equality condition can find in a numeric index are split at any number into those below
      it and the others, the former growing with the number; the number itself is in both closed halves; and a range
      is what two closed halves share. The remaining operators find nothing. */
  lemma ComparisonsSplit(indices: map<string, InvertedIndex>, records: map<RecordId, Metadata>, c: FilterCondition,
                         stod: Parser, id: RecordId)
    requires c.field in indices && indices[c.field].isNumeric && stod(c.value).Some?
    ensures var below := Scan(indices, records, c.(op := LessThan), stod);
            var upTo := Scan(indices, records, c.(op := LessOrEqual), stod);
            var above := Scan(indices, records, c.(op := GreaterThan), stod);
            var from := Scan(indices, records, c.(op := GreaterOrEqual), stod);
            && (id in below || id in from <==>
                  exists v :: id in Scan(indices, records, c.(op := Equal, value := v), stod) && stod(v).Some?)
            && (id in below || id in from <==> id in upTo || id in above)
            && !(id in below && id in from) && !(id in upTo && id in above)
            && (id in upTo && id in from <==>
                  exists v :: id in Scan(indices, records, c.(op := Equal, value := v), stod)
                              && stod(v) == stod(c.value))
    ensures forall more :: stod(more).Some? && stod(more).value >= stod(c.value).value
                           && id in Scan(indices, records, c.(op := LessThan), stod) ==>
                             id in Scan(indices, records, c.(op := LessThan, value := more), stod)
    ensures stod(c.value2).Some? ==>
              (id in Scan(indices, records, c.(op := Range), stod) <==>
                 && id in Scan(indices, records, c.(op := GreaterOrEqual), stod)
                 && id in Scan(indices, records, c.(op := LessOrEqual, value := c.value2), stod))
    ensures c.op !in {Equal, In, LessThan, LessOrEqual, GreaterThan, GreaterOrEqual, Range} ==>
              id !in Scan(indices, records, c, stod)
  {
    if id in records {
      var v := FieldValue(records[id], c.field);
      assert v != "" ==> id in Scan(indices, records, c.(op := Equal, value := v), stod);
    }
  }

  class MetadataIndex {
    const stod: Parser
    const lowest: real
    const highest: real
    var indices: map<string, InvertedIndex>
    ghost var records: map<RecordId, Metadata>

    /** Every index mirrors the records, and no parsed number lies outside the finite range. */
    ghost predicate Valid()
      reads this
    {
      && (forall f :: f in indices ==> Mirrors(indices[f], f, records, stod))
      && lowest <= highest
      && forall s :: stod(s).Some? ==> lowest <= stod(s).value <= highest
    }

    constructor (stod: Parser, lowest: real, highest: real)
      requires lowest <= highest && forall s :: stod(s).Some? ==> lowest <= stod(s).value <= highest
      ensures Valid() && records == map[] && indices == map[]
      ensures this.stod == stod
    {
      this.stod := stod;
      this.lowest := lowest;
      this.highest := highest;
      indices := map[];
      records := map[];
    }

    /** An index that comes after records with the field misses them. */
    method CreateIndex(field: string, isNumeric: bool) returns (ok: bool)
      requires Valid()
      modifies this`indices
      ensures Valid() <==> !ok || forall id :: id in records ==> FieldValue(records[id], field) == ""
      ensures ok <==> field !in old(indices)
      ensures indices == if ok then old(indices)[field := InvertedIndex(isNumeric, map[], map[])] else old(indices)
    {
      if field in indices {
        return false;
      }
      LateIndexMirrors(field, isNumeric, records, stod);
      indices := indices[field := InvertedIndex(isNumeric, map[], map[])];
      assert Valid() ==> Mirrors(indices[field], field, records, stod);
      return true;
    }

    /** Every index gains a posting.  If all were in step with the records they stay so exactly when an earlier
        record of the id, which is not looked for, left nothing behind. */
    method Insert(id: RecordId, m: Metadata)
      modifies this
      ensures records == old(records)[id := m] && indices.Keys == old(indices).Keys
      ensures forall f :: f in indices ==> indices[f] == Inserted(old(indices)[f], id, FieldValue(m, f), stod)
      ensures old(Valid()) ==>
                (Valid() <==> forall f :: f in indices ==> Unstale(old(records), id, f, FieldValue(m, f)))
    {
      var todo := indices.Keys;
      while todo != {}
        invariant todo <= indices.Keys == old(indices).Keys
        invariant forall f :: f in indices ==>
                                indices[f] == if f in todo then old(indices)[f]
                                              else Inserted(old(indices)[f], id, FieldValue(m, f), stod)
        invariant records == old(records)
        decreases todo
      {
        var field :| field in todo;
        var idx := indices[field];
        var value := FieldValue(m, field);
        if value != "" {
          var postings := Enter(idx.postings, value, id);
          var numeric := idx.numeric;
          if idx.isNumeric {
            var parsed := stod(value);
            if parsed.Some? {
              numeric := Enter(numeric, parsed.value, id);
            }
          }
          indices := indices[field := InvertedIndex(idx.isNumeric, postings, numeric)];
        }
        todo := todo - {field};
      }
      if old(Valid()) {
        forall f | f in indices
          ensures Mirrors(indices[f], f, records[id := m], stod) <==> Unstale(records, id, f, FieldValue(m, f))
        {
          InsertMirrorsExactlyWhen(old(indices)[f], f, records, stod, id, m);
        }
      }
      records := records[id := m];
    }

    /** Every index loses a posting under the metadata passed in.  If all were in step with the records they
        stay so exactly when that is what the id was recorded with, as far as they index it. */
    method Remove(id: RecordId, m: Metadata)
      modifies this
      ensures records == old(records) - {id} && indices.Keys == old(indices).Keys
      ensures forall f :: f in indices ==> indices[f] == Erased(old(indices)[f], id, FieldValue(m, f), stod)
      ensures old(Valid()) ==>
                (Valid() <==> forall f :: f in indices ==> Unstale(old(records), id, f, FieldValue(m, f)))
    {
      var todo := indices.Keys;
      while todo != {}
        invariant todo <= indices.Keys == old(indices).Keys
        invariant forall f :: f in indices ==>
                                indices[f] == if f in todo then old(indices)[f]
                                              else Erased(old(indices)[f], id, FieldValue(m, f), stod)
        invariant records == old(records)
        decreases todo
      {
        var field :| field in todo;
        var idx := indices[field];
        var value := FieldValue(m, field);
        if value != "" {
          var postings := Leave(idx.postings, value, id);
          var numeric := idx.numeric;
          if idx.isNumeric {
            var parsed := stod(value);
            if parsed.Some? {
              numeric := Leave(numeric, parsed.value, id);
            }
          }
          indices := indices[field := InvertedIndex(idx.isNumeric, postings, numeric)];
        }
        todo := todo - {field};
      }
      if old(Valid()) {
        forall f | f in indices
          ensures Mirrors(indices[f], f, records - {id}, stod) <==> Unstale(records, id, f, FieldValue(m, f))
        {
          EraseMirrorsExactlyWhen(old(indices)[f], f, records, stod, id, FieldValue(m, f));
        }
      }
      records := records - {id};
    }

    /** Removal and insertion. */
    method Update(id: RecordId, before: Metadata, after: Metadata)
      modifies this
      ensures records == old(records)[id := after] && indices.Keys == old(indices).Keys
      ensures old(Valid()) ==>
                (Valid() <==> forall f :: f in indices ==> || Unstale(old(records), id, f, FieldValue(before, f))
                                                           || Unstale(old(records), id, f, FieldValue(after, f)))
    {
      Remove(id, before);
      Insert(id, after);
      assert records == old(records)[id := after];
      if old(Valid()) {
        forall f | f in indices
          ensures Mirrors(indices[f], f, records, stod) <==>
                  || Unstale(old(records), id, f, FieldValue(before, f))
                  || Unstale(old(records), id, f, FieldValue(after, f))
        {
          UpdateMirrorsExactlyWhen(old(indices)[f], f, old(records), stod, id, FieldValue(before, f), after);
        }
      }
    }

    method QueryExact(field: string, value: string) returns (ids: set<RecordId>)
      requires Valid()
      ensures ids == if field in indices && value != "" then Having(records, field, value) else {}
    {
      if field !in indices {
        return {};
      }
      assert Mirrors(indices[field], field, records, stod);
      if value !in indices[field].postings {
        return {};
      }
      return indices[field].postings[value];
    }

    /** No number indexed for the field lies outside both bounds of a range. */
    ghost predicate RangeEnds(field: string, lo: real, hi: real, loIncluded: bool, hiIncluded: bool)
      reads this
    {
      field in indices && indices[field].isNumeric ==>
        forall x :: x in indices[field].numeric ==> !(Under(x, lo, loIncluded) && Over(x, hi, hiIncluded))
    }

    /** Union over the numeric keys from the first position of the range to the last. */
    method QueryRange(field: string, lo: real, hi: real, loIncluded: bool, hiIncluded: bool)
      returns (ids: set<RecordId>)
      requires Valid() && RangeEnds(field, lo, hi, loIncluded, hiIncluded)
      ensures ids == set id | id in records && field in indices && indices[field].isNumeric
                              && FieldValue(records[id], field) != "" && stod(FieldValue(records[id], field)).Some?
                              && InInterval(stod(FieldValue(records[id], field)).value, lo, hi, loIncluded, hiIncluded)
    {
      ids := {};
      if field !in indices || !indices[field].isNumeric {
        return;
      }
      var numeric := indices[field].numeric;
      assert Mirrors(indices[field], field, records, stod);
      var keys := SortedKeys(numeric.Keys);
      var lower, upper := Bounds(keys, lo, hi, loIncluded, hiIncluded);
      RangeWalkEndsExactlyWhen(keys, lo, hi, loIncluded, hiIncluded, lower, upper);
      for i := lower to upper
        invariant ids == set j, id | lower <= j < i && id in numeric[keys[j]] :: id
      {
        assert keys[i] in keys;
        ids := ids + numeric[keys[i]];
      }
      UnionIsInterval(field, lo, hi, loIncluded, hiIncluded, keys, lower, upper, ids);
    }

    /** lower_bound and upper_bound, or the other way round for excluded bounds. */
    method Bounds(keys: seq<real>, lo: real, hi: real, loIncluded: bool, hiIncluded: bool)
      returns (lower: nat, upper: nat)
      ensures RangePositions(keys, lo, hi, loIncluded, hiIncluded, lower, upper)
    {
      lower := 0;
      while lower < |keys| && Under(keys[lower], lo, loIncluded)
        invariant lower <= |keys| && forall i :: 0 <= i < lower ==> Under(keys[i], lo, loIncluded)
      {
        lower := lower + 1;
      }
      upper := 0;
      while upper < |keys| && !Over(keys[upper], hi, hiIncluded)
        invariant upper <= |keys| && forall i :: 0 <= i < upper ==> !Over(keys[i], hi, hiIncluded)
      {
        upper := upper + 1;
      }
    }

    lemma UnionIsInterval(field: string, lo: real, hi: real, loIncluded: bool, hiIncluded: bool, keys: seq<real>,
                          lower: nat, upper: nat, ids: set<RecordId>)
      requires field in indices && indices[field].isNumeric && Mirrors(indices[field], field, records, stod)
      requires Increasing(keys) && forall x :: x in keys <==> x in indices[field].numeric
      requires RangePositions(keys, lo, hi, loIncluded, hiIncluded, lower, upper)
      requires ids == set j, id | lower <= j < upper && id in indices[field].numeric[keys[j]] :: id
      ensures ids == set id | id in records && FieldValue(records[id], field) != ""
                              && stod(FieldValue(records[id], field)).Some?
                              && InInterval(stod(FieldValue(records[id], field)).value, lo, hi, loIncluded, hiIncluded)
    {
      var numeric := indices[field].numeric;
      forall id | id in ids
        ensures id in records && FieldValue(records[id], field) != "" && stod(FieldValue(records[id], field)).Some?
                && InInterval(stod(FieldValue(records[id], field)).value, lo, hi, loIncluded, hiIncluded)
      {
        var j :| lower <= j < upper && id in numeric[keys[j]];
        RangeHolds(keys, lo, hi, loIncluded, hiIncluded, lower, upper, j);
        assert keys[j] in keys;
        assert id in Parsing(records, field, stod, keys[j]);
      }
      forall id | id in records && FieldValue(records[id], field) != "" && stod(FieldValue(records[id], field)).Some?
                  && InInterval(stod(FieldValue(records[id], field)).value, lo, hi, loIncluded, hiIncluded)
        ensures id in ids
      {
        var x := stod(FieldValue(records[id], field)).value;
        assert id in Parsing(records, field, stod, x);
        var j :| 0 <= j < |keys| && keys[j] == x;
        RangeHolds(keys, lo, hi, loIncluded, hiIncluded, lower, upper, j);
      }
    }

    /** The walk of a range condition ends; everything else is answered. */
    ghost predicate Answerable(c: FilterCondition)
      reads this
    {
      c.op == Range && stod(c.value).Some? && stod(c.value2).Some? ==>
        RangeEnds(c.field, stod(c.value).value, stod(c.value2).value, true, true)
    }

    /** A query equals the linear scan. */
    method Query(c: FilterCondition) returns (ids: set<RecordId>)
      requires Valid() && Answerable(c)
      ensures ids == Scan(indices, records, c, stod)
    {
      if c.field !in indices {
        return {};
      }
      var numeric := indices[c.field].isNumeric;
      var x := stod(c.value);
      match c.op {
        case Equal =>
          ids := QueryExact(c.field, c.value);
        case LessThan =>
          if !numeric || x.None? { return {}; }
          ids := QueryRange(c.field, lowest, x.value, true, false);
        case LessOrEqual =>
          if !numeric || x.None? { return {}; }
          ids := QueryRange(c.field, lowest, x.value, true, true);
        case GreaterThan =>
          if !numeric || x.None? { return {}; }
          ids := QueryRange(c.field, x.value, highest, false, true);
        case GreaterOrEqual =>
          if !numeric || x.None? { return {}; }
          ids := QueryRange(c.field, x.value, highest, true, true);
        case Range =>
          var y := stod(c.value2);
          if !numeric || x.None? || y.None? { return {}; }
          ids := QueryRange(c.field, x.value, y.value, true, true);
        case In =>
          ids := QueryIn(c);
        case _ =>
          ids := {};
      }
    }

    method QueryIn(c: FilterCondition) returns (ids: set<RecordId>)
      requires Valid() && c.field in indices
      ensures ids == set id | id in records && FieldValue(records[id], c.field) != ""
              && FieldValue(records[id], c.field) in c.values
    {
      ids := {};
      for i := 0 to |c.values|
        invariant ids == set id | id in records && FieldValue(records[id], c.field) != ""
                                  && FieldValue(records[id], c.field) in c.values[..i]
      {
        assert c.values[..i+1] == c.values[..i] + [c.values[i]];
        var some := QueryExact(c.field, c.values[i]);
        ids := ids + some;
      }
      assert c.values[..|c.values|] == c.values;
    }

    /** Records meeting all conditions; an empty list of conditions is answered by no record. */
    method QueryAnd(conditions: seq<FilterCondition>) returns (ids: set<RecordId>)
      requires Valid() && forall i :: 0 <= i < |conditions| ==> Answerable(conditions[i])
      ensures conditions == [] ==> ids == {}
      ensures conditions != [] ==> forall id :: id in ids <==>
              forall i :: 0 <= i < |conditions| ==> id in Scan(indices, records, conditions[i], stod)
    {
      if conditions == [] {
        return {};
      }
      ids := Query(conditions[0]);
      for i := 1 to |conditions|
        invariant forall id :: id in ids <==>
                forall j :: 0 <= j < i ==> id in Scan(indices, records, conditions[j], stod)
      {
        var next := Query(conditions[i]);
        ids := ids * next;
      }
    }

    /** Records meeting some condition. */
    method QueryOr(conditions: seq<FilterCondition>) returns (ids: set<RecordId>)
      requires Valid() && forall i :: 0 <= i < |conditions| ==> Answerable(conditions[i])
      ensures forall id :: id in ids <==>
              exists i :: 0 <= i < |conditions| && id in Scan(indices, records, conditions[i], stod)
    {
      ids := {};
      for i := 0 to |conditions|
        invariant forall id :: id in ids <==>
                exists j :: 0 <= j < i && id in Scan(indices, records, conditions[j], stod)
      {
        var next := Query(conditions[i]);
        ids := ids + next;
      }
    }
  }

  // -------------------------------------------------------------------- save and load

  /** One posting list of a saved index. */
  datatype SavedPosting = SavedPosting(value: string, ids: set<RecordId>)

  /** The file lists every posting once, in any order. */
  ghost predicate SavedAs(idx: InvertedIndex, file: seq<SavedPosting>) {
    && (forall i, j :: 0 <= i < j < |file| ==> file[i].value != file[j].value)
    && (forall v :: v in idx.postings <==> exists i :: 0 <= i < |file| && file[i].value == v)
    && (forall i :: 0 <= i < |file| ==> file[i].value in idx.postings && idx.postings[file[i].value] == file[i].ids)
  }

  /** Loading stores each posting and overwrites the numeric entry of the number it parses to. */
  function Loaded(isNumeric: bool, file: seq<SavedPosting>, stod: Parser): InvertedIndex {
    if file == [] then InvertedIndex(isNumeric, map[], map[])
    else
      var before := Loaded(isNumeric, file[..|file|-1], stod);
      var last := file[|file|-1];
      InvertedIndex(isNumeric, before.postings[last.value := last.ids],
        if isNumeric && stod(last.value).Some? then before.numeric[stod(last.value).value := last.ids]
        else before.numeric)
  }

  method Load(isNumeric: bool, file: seq<SavedPosting>, stod: Parser) returns (idx: InvertedIndex)
    ensures idx == Loaded(isNumeric, file, stod)
  {
    idx := InvertedIndex(isNumeric, map[], map[]);
    for i := 0 to |file|
      invariant idx == Loaded(isNumeric, file[..i], stod)
    {
      assert file[..i+1][..i] == file[..i];
      var postings := idx.postings[file[i].value := file[i].ids];
      var numeric := idx.numeric;
      if isNumeric {
        var parsed := stod(file[i].value);
        if parsed.Some? {
          numeric := numeric[parsed.value := postings[file[i].value]];
        }
      }
      idx := InvertedIndex(isNumeric, postings, numeric);
    }
    assert file[..|file|] == file;
  }

  lemma {:induction false} LoadedValue(isNumeric: bool, file: seq<SavedPosting>, stod: Parser, v: string)
    requires v in Loaded(isNumeric, file, stod).postings
    ensures exists i :: 0 <= i < |file| && file[i].value == v
  {
    if file != [] {
      var n := |file| - 1;
      if file[n].value != v {
        LoadedValue(isNumeric, file[..n], stod, v);
        var i :| 0 <= i < n && file[..n][i].value == v;
        assert file[i].value == v;
      }
    }
  }

  lemma {:induction false} LoadedPostingAt(isNumeric: bool, file: seq<SavedPosting>, stod: Parser, i: nat)
    requires i < |file| && forall j :: i < j < |file| ==> file[i].value != file[j].value
    ensures file[i].value in Loaded(isNumeric, file, stod).postings
    ensures Loaded(isNumeric, file, stod).postings[file[i].value] == file[i].ids
  {
    var n := |file| - 1;
    if i < n {
      assert file[..n][i] == file[i];
      LoadedPostingAt(isNumeric, file[..n], stod, i);
      assert file[i].value != file[n].value;
    }
  }

  /** The posting lists come back as they were saved. */
  lemma LoadedPostings(idx: InvertedIndex, stod: Parser, file: seq<SavedPosting>)
    requires SavedAs(idx, file)
    ensures Loaded(idx.isNumeric, file, stod).postings == idx.postings
  {
    var back := Loaded(idx.isNumeric, file, stod).postings;
    forall v | v in back
      ensures v in idx.postings
    {
      LoadedValue(idx.isNumeric, file, stod, v);
    }
    forall v | v in idx.postings
      ensures v in back && back[v] == idx.postings[v]
    {
      var i :| 0 <= i < |file| && file[i].value == v;
      LoadedPostingAt(idx.isNumeric, file, stod, i);
    }
  }

  /** A loaded numeric entry holds one of the posting lists whose text parses to that number. */
  lemma {:induction false} LoadedNumeric(isNumeric: bool, file: seq<SavedPosting>, stod: Parser, x: real)
    ensures var numeric := Loaded(isNumeric, file, stod).numeric;
            && (x in numeric <==> isNumeric && exists i :: 0 <= i < |file| && stod(file[i].value) == Some(x))
            && (x in numeric ==>
                  exists i :: 0 <= i < |file| && stod(file[i].value) == Some(x) && numeric[x] == file[i].ids)
  {
    if file != [] {
      var n := |file| - 1;
      LoadedNumeric(isNumeric, file[..n], stod, x);
      assert forall i :: 0 <= i < n ==> file[..n][i] == file[i];
    }
  }

  /** No two indexed texts parse to the same number. */
  ghost predicate NoCollision(idx: InvertedIndex, stod: Parser) {
    forall v, w :: v in idx.postings && w in idx.postings && stod(v).Some? && stod(v) == stod(w) ==> v == w
  }

  /** Load after save preserves every answer exactly when, for a numeric index, no two indexed texts
      parse to the same number. */
  lemma LoadKeepsAnswersExactly(idx: InvertedIndex, field: string, records: map<RecordId, Metadata>, stod: Parser,
                                file: seq<SavedPosting>)
    requires Mirrors(idx, field, records, stod)
    requires SavedAs(idx, file)
    ensures Mirrors(Loaded(idx.isNumeric, file, stod), field, records, stod) <==>
            !idx.isNumeric || NoCollision(idx, stod)
    ensures Loaded(idx.isNumeric, file, stod).postings == idx.postings
  {
    var back := Loaded(idx.isNumeric, file, stod);
    LoadedPostings(idx, stod, file);
    if !idx.isNumeric || NoCollision(idx, stod) {
      forall x
        ensures (x in back.numeric <==> back.isNumeric && Parsing(records, field, stod, x) != {})
                && (x in back.numeric ==> back.numeric[x] == Parsing(records, field, stod, x))
      {
        NoCollisionKeeps(idx, field, records, stod, file, x);
      }
    } else {
      var v, w :| v in idx.postings && w in idx.postings && stod(v).Some? && stod(v) == stod(w) && v != w;
      CollisionLoses(idx, field, records, stod, file, v, w);
    }
  }

  lemma NoCollisionKeeps(idx: InvertedIndex, field: string, records: map<RecordId, Metadata>, stod: Parser,
                         file: seq<SavedPosting>, x: real)
    requires Mirrors(idx, field, records, stod) && SavedAs(idx, file)
    requires !idx.isNumeric || NoCollision(idx, stod)
    ensures var numeric := Loaded(idx.isNumeric, file, stod).numeric;
            (x in numeric <==> idx.isNumeric && Parsing(records, field, stod, x) != {})
            && (x in numeric ==> numeric[x] == Parsing(records, field, stod, x))
  {
    LoadedNumeric(idx.isNumeric, file, stod, x);
    if idx.isNumeric {
      forall id | id in Parsing(records, field, stod, x)
        ensures exists i :: 0 <= i < |file| && stod(file[i].value) == Some(x) && id in file[i].ids
      {
        var v := FieldValue(records[id], field);
        assert id in Having(records, field, v);
        assert v in idx.postings;
        var i :| 0 <= i < |file| && file[i].value == v;
      }
      forall i | 0 <= i < |file| && stod(file[i].value) == Some(x)
        ensures file[i].ids == Parsing(records, field, stod, x) && file[i].ids != {}
      {
        var v := file[i].value;
        assert v in idx.postings && file[i].ids == Having(records, field, v);
        forall id | id in Parsing(records, field, stod, x)
          ensures id in Having(records, field, v)
        {
          var w := FieldValue(records[id], field);
          assert id in Having(records, field, w);
          assert w in idx.postings;
        }
      }
    }
  }

  lemma CollisionLoses(idx: InvertedIndex, field: string, records: map<RecordId, Metadata>, stod: Parser,
                       file: seq<SavedPosting>,
                       v: string, w: string)
    requires Mirrors(idx, field, records, stod) && SavedAs(idx, file)
    requires idx.isNumeric && v in idx.postings && w in idx.postings && stod(v).Some? && stod(v) == stod(w) && v != w
    ensures !NumericMirror(Loaded(idx.isNumeric, file, stod), field, records, stod)
  {
    var x := stod(v).value;
    var back := Loaded(idx.isNumeric, file, stod);
    LoadedNumeric(idx.isNumeric, file, stod, x);
    var i :| 0 <= i < |file| && file[i].value == v;
    assert stod(file[i].value) == Some(x);
    var j :| 0 <= j < |file| && stod(file[j].value) == Some(x) && back.numeric[x] == file[j].ids;
    var kept := file[j].value;
    assert kept in idx.postings && file[j].ids == Having(records, field, kept);
    var lost := if kept == v then w else v;
    assert idx.postings[lost] == Having(records, field, lost);
    var id :| id in Having(records, field, lost);
    assert id in Parsing(records, field, stod, x);
    assert id !in back.numeric[x];
  }
}
