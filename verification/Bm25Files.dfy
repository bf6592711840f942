/**
 The whole file of a saved BM25 engine: a header, configuration and statistics as key=value lines, and the
 document section of `Bm25Persistence`.
 */
module Bm25Files {
  import opened Results
  import opened Strings
  import opened TextProcessing
  import opened Bm25Index
  import opened Bm25Engines
  import opened Bm25Formula
  import opened Bm25Persistence

  const HEADER: string := "BM25_ENGINE_V1"
  const START_MARK: string := "DOCUMENTS_START"

  /** How numbers with a fraction are printed and read; reading throws on other texts. */
  datatype Reals = Reals(show: real -> string, read: string -> Option<real>)

  datatype Settings = Settings(text: TextConfig, weights: Weights)

  /** How loading ends; a number that cannot be read throws. */
  datatype FileResult = Loaded(engine: BM25Engine) | Failed(error: ErrorCode) | Throws

  // ------------------------------------------------------------------------- writing

  function Flag(b: bool): string {
    if b then "1" else "0"
  }

  /** The configuration and the statistics, in the order in which they are written. */
  function Pairs(reals: Reals, c: Settings, documents: nat, terms: nat, average: real): seq<(string, string)> {
    [("k1", reals.show(c.weights.k1)), ("b", reals.show(c.weights.b)),
     ("min_term_length", Decimal(c.text.minTermLength)), ("use_stemming", Flag(c.text.useStemming)),
     ("case_sensitive", Flag(c.text.caseSensitive)),
     ("total_documents", Decimal(documents)), ("total_terms", Decimal(terms)), ("avg_doc_length", reals.show(average))]
  }

  function PairLine(pair: (string, string)): string {
    pair.0 + ['='] + pair.1
  }

  function PairLines(pairs: seq<(string, string)>): string {
    if pairs == [] then "" else PairLine(pairs[0]) + ['\n'] + PairLines(pairs[1..])
  }

  ghost function EnginePairs(reals: Reals, c: Settings, ix: Index): seq<(string, string)> {
    Pairs(reals, c, ix.totalDocuments, ix.totalTerms, ix.avgDocLength)
  }

  /** The file with the given document section. */
  ghost function FileOf(reals: Reals, c: Settings, ix: Index, body: string): string {
    HEADER + ['\n'] + (PairLines(EnginePairs(reals, c, ix)) + (START_MARK + ['\n'] + body))
  }

  function Lines(lines: seq<string>): string {
    if lines == [] then "" else lines[0] + ['\n'] + Lines(lines[1..])
  }

  lemma {:induction false} PairLinesAre(pairs: seq<(string, string)>)
    ensures PairLines(pairs) == Lines(seq(|pairs|, i requires 0 <= i < |pairs| => PairLine(pairs[i])))
  {
    var lines := seq(|pairs|, i requires 0 <= i < |pairs| => PairLine(pairs[i]));
    if pairs != [] {
      PairLinesAre(pairs[1..]);
      assert lines[1..]
          == seq(|pairs[1..]|, i requires 0 <= i < |pairs[1..]| => PairLine(pairs[1..][i]));
    }
  }

  /** The file line by line, up to the document section. */
  lemma FileLayout(reals: Reals, c: Settings, ix: Index, body: string)
    ensures FileOf(reals, c, ix, body)
         == "BM25_ENGINE_V1" + ['\n']
            + (Lines(["k1=" + reals.show(c.weights.k1),
                      "b=" + reals.show(c.weights.b),
                      "min_term_length=" + Decimal(c.text.minTermLength),
                      "use_stemming=" + (if c.text.useStemming then "1" else "0"),
                      "case_sensitive=" + (if c.text.caseSensitive then "1" else "0"),
                      "total_documents=" + Decimal(ix.totalDocuments),
                      "total_terms=" + Decimal(ix.totalTerms),
                      "avg_doc_length=" + reals.show(ix.avgDocLength)])
               + ("DOCUMENTS_START" + ['\n'] + body))
  {
    var pairs := EnginePairs(reals, c, ix);
    PairLinesAre(pairs);
    var lines := seq(|pairs|, i requires 0 <= i < |pairs| => PairLine(pairs[i]));
    assert "k1" + ['='] == "k1=" && "b" + ['='] == "b=" && "min_term_length" + ['='] == "min_term_length=";
    assert "use_stemming" + ['='] == "use_stemming=" && "case_sensitive" + ['='] == "case_sensitive=";
    assert "total_documents" + ['='] == "total_documents=" && "total_terms" + ['='] == "total_terms=";
    assert "avg_doc_length" + ['='] == "avg_doc_length=";
    hide PairLines;
    assert lines == [PairLine(pairs[0]), PairLine(pairs[1]), PairLine(pairs[2]), PairLine(pairs[3]),
                     PairLine(pairs[4]), PairLine(pairs[5]), PairLine(pairs[6]), PairLine(pairs[7])];
  }

  method SaveFile(engine: BM25Engine, reals: Reals) returns (file: string)
    ensures exists body :: IsSaved(engine.documents, body)
                           && file == FileOf(reals, Settings(engine.text, engine.weights), engine.Ix(), body)
  {
    var pairs := Pairs(reals, Settings(engine.text, engine.weights), engine.totalDocuments, engine.totalTerms,
                       engine.avgDocLength);
    var lines := PairLines(pairs);
    var body := Bm25Persistence.Save(engine);
    file := HEADER + ['\n'] + (lines + (START_MARK + ['\n'] + body));
  }

  // ------------------------------------------------------------------------- reading

  /** The position of the first equals sign, or the length where there is none. */
  function FindEquals(s: string): (n: nat)
    ensures n <= |s| && (n < |s| ==> s[n] == '=')
  {
    if s == [] || s[0] == '=' then 0 else 1 + FindEquals(s[1..])
  }

  /** What a line adds to the values read so far. */
  function Noted(values: map<string, string>, line: string): map<string, string> {
    var n := FindEquals(line);
    if n < |line| then values[line[..n] := line[n+1..]] else values
  }

  /** The values of all key=value lines up to the start mark, and the text behind it. */
  ghost function ValuesFrom(values: map<string, string>, text: string): (map<string, string>, string)
    decreases |text|
  {
    if text == [] then (values, [])
    else
      var (line, rest) := GetLine(text);
      if line == START_MARK then (values, rest) else ValuesFrom(Noted(values, line), rest)
  }

  method ReadValues(text: string) returns (values: map<string, string>, rest: string)
    ensures (values, rest) == ValuesFrom(map[], text)
  {
    values, rest := map[], text;
    while rest != []
      invariant ValuesFrom(values, rest) == ValuesFrom(map[], text)
      decreases |rest|
    {
      var (line, after) := GetLine(rest);
      rest := after;
      if line == START_MARK {
        return;
      }
      values := Noted(values, line);
    }
  }

  function ReadReal(reals: Reals, values: map<string, string>, key: string, default: real): Option<real> {
    if key in values then reals.read(values[key]) else Some(default)
  }

  function ReadNat(values: map<string, string>, key: string, default: nat): Option<nat> {
    if key !in values then Some(default)
    else match ReadNumber(values[key]) case None => None case Some((n, rest)) => Some(n)
  }

  function ReadFlag(values: map<string, string>, key: string, default: bool): bool {
    if key in values then values[key] == "1" else default
  }

  /** The settings of a loaded engine; what the file does not name keeps its default. */
  function ReadSettings(reals: Reals, values: map<string, string>, defaults: Settings): Option<Settings> {
    var k1 := ReadReal(reals, values, "k1", defaults.weights.k1);
    var b := ReadReal(reals, values, "b", defaults.weights.b);
    var least := ReadNat(values, "min_term_length", defaults.text.minTermLength);
    if k1.None? || b.None? || least.None? then None
    else
      Some(Settings(TextConfig(least.value, ReadFlag(values, "use_stemming", defaults.text.useStemming),
                               ReadFlag(values, "case_sensitive", defaults.text.caseSensitive),
                               defaults.text.stopWords),
                    Weights(k1.value, b.value)))
  }

  /** What is behind the header line, if that is the right one. */
  ghost function Behind(file: string): Option<string> {
    var (line, rest) := GetLine(file);
    if line == HEADER then Some(rest) else None
  }

  ghost predicate LoadsAs(reals: Reals, defaults: Settings, text: string, r: FileResult)
    reads if r.Loaded? then {r.engine} else {}
  {
    var (values, body) := ValuesFrom(map[], text);
    var settings := ReadSettings(reals, values, defaults);
    if settings.None? then r == Throws
    else
      var loaded := LoadedFrom(EMPTY, body, settings.value.text);
      if loaded.None? then r == Failed(InvalidData)
      else
        && r.Loaded? && r.engine.Valid() && r.engine.Ix() == loaded.value
        && Settings(r.engine.text, r.engine.weights) == settings.value
  }

  method LoadFile(file: string, reals: Reals, defaults: Settings, log: real -> real) returns (r: FileResult)
    ensures Behind(file).None? ==> r == Failed(InvalidData)
    ensures Behind(file).Some? ==> LoadsAs(reals, defaults, Behind(file).value, r)
    ensures r.Loaded? ==> fresh(r.engine)
  {
    var (line, rest) := GetLine(file);
    if line != HEADER {
      return Failed(InvalidData);
    }
    var values, body := ReadValues(rest);
    var settings := ReadSettings(reals, values, defaults);
    if settings.None? {
      return Throws;
    }
    var engine := new BM25Engine(settings.value.text, settings.value.weights, log);
    var ok := Bm25Persistence.Load(engine, body);
    if !ok {
      return Failed(InvalidData);
    }
    return Loaded(engine);
  }

  // ---------------------------------------------------------------- save, then load

  /** A pair that fits on one line and is split where it was put together. */
  ghost predicate Printable(pair: (string, string)) {
    '=' !in pair.0 && '\n' !in pair.0 && '\n' !in pair.1
  }

  lemma {:induction false} EqualsAt(key: string, rest: string)
    requires '=' !in key
    ensures FindEquals(key + ['='] + rest) == |key|
  {
    var s := key + ['='] + rest;
    if key != [] {
      assert s[0] == key[0] && key[0] in key;
      assert s[1..] == key[1..] + ['='] + rest;
      EqualsAt(key[1..], rest);
    }
  }

  lemma PairNoted(values: map<string, string>, pair: (string, string))
    requires Printable(pair)
    ensures PairLine(pair) != START_MARK && '\n' !in PairLine(pair)
    ensures Noted(values, PairLine(pair)) == values[pair.0 := pair.1]
  {
    var line := PairLine(pair);
    EqualsAt(pair.0, pair.1);
    assert line[|pair.0|] == '=';
    assert '=' !in START_MARK;
    assert line[..|pair.0|] == pair.0 && line[|pair.0| + 1..] == pair.1;
  }

  function Entered(values: map<string, string>, pairs: seq<(string, string)>): map<string, string>
    decreases |pairs|
  {
    if pairs == [] then values else Entered(values[pairs[0].0 := pairs[0].1], pairs[1..])
  }

  lemma {:induction false} PairsReadBack(values: map<string, string>, pairs: seq<(string, string)>, body: string)
    requires forall pair :: pair in pairs ==> Printable(pair)
    ensures ValuesFrom(values, PairLines(pairs) + (START_MARK + ['\n'] + body)) == (Entered(values, pairs), body)
    decreases |pairs|
  {
    var tail := START_MARK + ['\n'] + body;
    if pairs == [] {
      assert PairLines(pairs) + tail == tail;
      GetLineOf(START_MARK, body);
    } else {
      var line, rest := PairLine(pairs[0]), PairLines(pairs[1..]) + tail;
      assert pairs[0] in pairs;
      PairNoted(values, pairs[0]);
      GetLineOf(line, rest);
      assert PairLines(pairs) + tail == line + ['\n'] + rest;
      PairsReadBack(values[pairs[0].0 := pairs[0].1], pairs[1..], body);
    }
  }

  /** The printed forms of the fractions in use fit on a line, and those of the weights are read back: that is,
      rounding is left aside. */
  ghost predicate Readable(reals: Reals, weights: Weights, average: real) {
    && '\n' !in reals.show(weights.k1) && reals.read(reals.show(weights.k1)) == Some(weights.k1)
    && '\n' !in reals.show(weights.b) && reals.read(reals.show(weights.b)) == Some(weights.b)
    && '\n' !in reals.show(average)
  }

  lemma NumberPrintable(n: nat)
    ensures '\n' !in Decimal(n)
  {
    assert forall c :: c in Decimal(n) ==> IsDigit(c);
  }

  lemma PairsPrintable(reals: Reals, c: Settings, ix: Index)
    requires Readable(reals, c.weights, ix.avgDocLength)
    ensures forall pair :: pair in EnginePairs(reals, c, ix) ==> Printable(pair)
  {
    NumberPrintable(c.text.minTermLength);
    NumberPrintable(ix.totalDocuments);
    NumberPrintable(ix.totalTerms);
    var pairs := EnginePairs(reals, c, ix);
    forall i | 0 <= i < |pairs|
      ensures Printable(pairs[i])
    {
    }
  }

  lemma {:induction false} EnteredKeeps(values: map<string, string>, pairs: seq<(string, string)>, key: string)
    requires key in values && forall i :: 0 <= i < |pairs| ==> pairs[i].0 != key
    ensures key in Entered(values, pairs) && Entered(values, pairs)[key] == values[key]
    decreases |pairs|
  {
    if pairs != [] {
      EnteredKeeps(values[pairs[0].0 := pairs[0].1], pairs[1..], key);
    }
  }

  lemma {:induction false} EnteredAt(values: map<string, string>, pairs: seq<(string, string)>, i: nat)
    requires i < |pairs| && forall j :: i < j < |pairs| ==> pairs[j].0 != pairs[i].0
    ensures pairs[i].0 in Entered(values, pairs) && Entered(values, pairs)[pairs[i].0] == pairs[i].1
    decreases |pairs|
  {
    var next := values[pairs[0].0 := pairs[0].1];
    if i == 0 {
      EnteredKeeps(next, pairs[1..], pairs[0].0);
    } else {
      EnteredAt(next, pairs[1..], i - 1);
    }
  }

  /** The settings come back as they were saved. */
  lemma SettingsReadBack(reals: Reals, c: Settings, ix: Index, defaults: Settings)
    requires Readable(reals, c.weights, ix.avgDocLength)
    requires defaults.text.stopWords == c.text.stopWords
    ensures ReadSettings(reals, Entered(map[], EnginePairs(reals, c, ix)), defaults) == Some(c)
  {
    var pairs := EnginePairs(reals, c, ix);
    EnteredAt(map[], pairs, 0);
    EnteredAt(map[], pairs, 1);
    EnteredAt(map[], pairs, 2);
    EnteredAt(map[], pairs, 3);
    EnteredAt(map[], pairs, 4);
    ReadBack(c.text.minTermLength, []);
    assert Decimal(c.text.minTermLength) + [] == Decimal(c.text.minTermLength);
  }

  /** A saved file is found to hold the settings and the document section that were written. */
  lemma FileReadsBack(reals: Reals, c: Settings, ix: Index, body: string, defaults: Settings)
    requires Readable(reals, c.weights, ix.avgDocLength)
    requires defaults.text.stopWords == c.text.stopWords
    ensures var behind := Behind(FileOf(reals, c, ix, body));
            && behind.Some?
            && ValuesFrom(map[], behind.value).1 == body
            && ReadSettings(reals, ValuesFrom(map[], behind.value).0, defaults) == Some(c)
  {
    var pairs := EnginePairs(reals, c, ix);
    GetLineOf(HEADER, PairLines(pairs) + (START_MARK + ['\n'] + body));
    PairsPrintable(reals, c, ix);
    PairsReadBack(map[], pairs, body);
    SettingsReadBack(reals, c, ix, defaults);
  }

  /** An engine that is saved and loaded has the same settings, and the same documents exactly when none of them
      holds a literal backslash-n pair; its index is then the saved one up to the order of posting lists. */
  method SaveAndLoad(engine: BM25Engine, reals: Reals, defaults: Settings) returns (r: FileResult)
    requires engine.Valid() && Readable(reals, engine.weights, engine.avgDocLength)
    requires defaults.text.stopWords == engine.text.stopWords
    ensures !r.Throws? && (r.Failed? ==> r.error == InvalidData)
    ensures r.Loaded? ==> fresh(r.engine) && r.engine.Valid()
    ensures r.Loaded? ==> r.engine.text == engine.text && r.engine.weights == engine.weights
    ensures PairFree(engine.documents) <==> r.Loaded? && r.engine.documents == engine.documents
    ensures PairFree(engine.documents) ==> SameUpToOrder(r.engine.Ix(), engine.Ix())
  {
    ghost var ix := engine.Ix();
    ghost var c := Settings(engine.text, engine.weights);
    var file := SaveFile(engine, reals);
    ghost var body :| IsSaved(ix.documents, body) && file == FileOf(reals, c, ix, body);
    ghost var order :| ListsAll(ix.documents, order) && body == SavedBody(ix.documents, order);
    FileReadsBack(reals, c, ix, body, defaults);
    LoadAfterSave(ix, order, engine.text);
    hide ValuesFrom, FileOf, Behind, ReadSettings, Readable;
    r := LoadFile(file, reals, defaults, engine.log);
  }
}
