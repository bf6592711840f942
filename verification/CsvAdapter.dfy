/**
 The CSV adapter (src/adapters/csv_adapter.cpp): the field printer of `write` and the line parser.
 The printer doubles the quote characters of a field it quotes; the parser toggles on every quote
 and keeps none.  Section 2 of RFC 4180 would keep one of each doubled pair.
 */
module CsvAdapter {
  import opened Strings

  datatype Config = Config(delimiter: char, quote: char, skipEmptyRows: bool)

  type Row = seq<string>

  // -------------------------------------------------------------------------- parsing

  datatype Scan = Scan(fields: seq<string>, current: string, inQuotes: bool)

  const START: Scan := Scan([], "", false)

  function ScanChar(cfg: Config, s: Scan, c: char): Scan {
    if c == cfg.quote then s.(inQuotes := !s.inQuotes)
    else if c == cfg.delimiter && !s.inQuotes then Scan(s.fields + [s.current], "", s.inQuotes)
    else s.(current := s.current + [c])
  }

  function ScanAll(cfg: Config, s: Scan, line: string): Scan
    decreases |line|
  {
    if line == "" then s else ScanAll(cfg, ScanChar(cfg, s, line[0]), line[1..])
  }

  /** The row a scan has collected. */
  function Collected(s: Scan): Row { s.fields + [s.current] }

  function Parsed(cfg: Config, line: string): Row {
    Collected(ScanAll(cfg, START, line))
  }

  method ParseLine(cfg: Config, line: string) returns (fields: Row)
    ensures fields == Parsed(cfg, line)
  {
    fields := [];
    var currentField, inQuotes := "", false;
    for i := 0 to |line|
      invariant ScanAll(cfg, START, line) == ScanAll(cfg, Scan(fields, currentField, inQuotes), line[i..])
    {
      var c := line[i];
      assert line[i..][1..] == line[i + 1..];
      if c == cfg.quote {
        inQuotes := !inQuotes;
      } else if c == cfg.delimiter && !inQuotes {
        fields := fields + [currentField];
        currentField := "";
      } else {
        currentField := currentField + [c];
      }
    }
    fields := fields + [currentField];
  }

  // ------------------------------------------------------------------------- printing

  predicate NeedsQuotes(cfg: Config, field: string) {
    cfg.delimiter in field || cfg.quote in field || '\n' in field
  }

  function Doubled(cfg: Config, field: string): string {
    if field == "" then ""
    else if field[0] == cfg.quote then [cfg.quote, cfg.quote] + Doubled(cfg, field[1..])
    else [field[0]] + Doubled(cfg, field[1..])
  }

  function Printed(cfg: Config, field: string): string {
    if NeedsQuotes(cfg, field) then [cfg.quote] + Doubled(cfg, field) + [cfg.quote] else field
  }

  function PrintedRow(cfg: Config, row: Row): string {
    if row == [] then ""
    else if |row| == 1 then Printed(cfg, row[0])
    else Printed(cfg, row[0]) + ([cfg.delimiter] + PrintedRow(cfg, row[1..]))
  }

  /** A field stays as it is unless it holds the delimiter, a quote or a newline; then it stands between quotes, with
      as many more quotes as it holds and nothing else added. */
  lemma PrintedAddsQuotesOnly(cfg: Config, field: string)
    ensures cfg.delimiter !in field && cfg.quote !in field && '\n' !in field ==> Printed(cfg, field) == field
    ensures cfg.delimiter in field || cfg.quote in field || '\n' in field ==>
              var out := Printed(cfg, field);
              && |out| >= 2 && out[0] == out[|out|-1] == cfg.quote
              && multiset(out)[cfg.quote] == 2 * multiset(field)[cfg.quote] + 2
              && forall c :: c != cfg.quote ==> multiset(out)[c] == multiset(field)[c]
  {
    DoubledCounts(cfg, field);
  }

  lemma {:induction false} DoubledCounts(cfg: Config, field: string)
    ensures multiset(Doubled(cfg, field))[cfg.quote] == 2 * multiset(field)[cfg.quote]
    ensures forall c :: c != cfg.quote ==> multiset(Doubled(cfg, field))[c] == multiset(field)[c]
  {
    if field != "" {
      DoubledCounts(cfg, field[1..]);
      assert field == [field[0]] + field[1..];
    }
  }

  method WriteField(cfg: Config, field: string) returns (out: string)
    ensures out == Printed(cfg, field)
  {
    if cfg.delimiter in field || cfg.quote in field || '\n' in field {
      var body := WriteQuoted(cfg, field);
      out := [cfg.quote] + body + [cfg.quote];
    } else {
      out := field;
    }
  }

  /** The loop over the characters of a quoted field. */
  method WriteQuoted(cfg: Config, field: string) returns (body: string)
    ensures body == Doubled(cfg, field)
  {
    body := "";
    for i := 0 to |field|
      invariant Doubled(cfg, field) == body + Doubled(cfg, field[i..])
    {
      assert field[i..][1..] == field[i + 1..];
      if field[i] == cfg.quote {
        body := body + [cfg.quote, cfg.quote];
      } else {
        body := body + [field[i]];
      }
    }
  }

  method WriteRow(cfg: Config, row: Row) returns (out: string)
    ensures out == PrintedRow(cfg, row)
  {
    if row == [] {
      return "";
    }
    out := WriteField(cfg, row[0]);
    assert row[0..] == row;
    for i := 1 to |row|
      invariant PrintedRow(cfg, row) ==
        if i == |row| then out else out + ([cfg.delimiter] + PrintedRow(cfg, row[i..]))
    {
      var field := WriteField(cfg, row[i]);
      assert i + 1 < |row| ==> row[i..][1..] == row[i + 1..];
      out := out + [cfg.delimiter] + field;
    }
  }

  // ------------------------------------------------------------ print, then parse a row

  /** The field with its quote characters taken out. */
  function Unquoted(cfg: Config, field: string): (out: string)
    ensures out == field <==> cfg.quote !in field
    ensures |out| <= |field| && cfg.quote !in out
  {
    if field == "" then ""
    else if field[0] == cfg.quote then Unquoted(cfg, field[1..])
    else [field[0]] + Unquoted(cfg, field[1..])
  }

  function UnquotedRow(cfg: Config, row: Row): (out: Row)
    ensures |out| == |row|
    ensures forall i :: 0 <= i < |row| ==> out[i] == Unquoted(cfg, row[i])
  {
    if row == [] then [] else [Unquoted(cfg, row[0])] + UnquotedRow(cfg, row[1..])
  }

  lemma {:induction false} ScanConcat(cfg: Config, s: Scan, a: string, b: string)
    ensures ScanAll(cfg, s, a + b) == ScanAll(cfg, ScanAll(cfg, s, a), b)
    decreases |a|
  {
    if a == "" {
      assert a + b == b;
    } else {
      assert (a + b)[1..] == a[1..] + b;
      ScanConcat(cfg, ScanChar(cfg, s, a[0]), a[1..], b);
    }
  }

  lemma {:induction false} ScanDoubled(cfg: Config, s: Scan, field: string)
    requires s.inQuotes
    ensures ScanAll(cfg, s, Doubled(cfg, field)) == s.(current := s.current + Unquoted(cfg, field))
    decreases |field|
  {
    if field == "" {
      assert s.current + "" == s.current;
    } else if field[0] == cfg.quote {
      var rest := Doubled(cfg, field[1..]);
      assert Doubled(cfg, field)[1..] == [cfg.quote] + rest;
      assert ([cfg.quote] + rest)[1..] == rest;
      ScanDoubled(cfg, s, field[1..]);
    } else {
      assert Doubled(cfg, field)[1..] == Doubled(cfg, field[1..]);
      ScanDoubled(cfg, s.(current := s.current + [field[0]]), field[1..]);
      assert s.current + [field[0]] + Unquoted(cfg, field[1..]) == s.current + Unquoted(cfg, field);
    }
  }

  lemma {:induction false} ScanPlain(cfg: Config, s: Scan, field: string)
    requires !s.inQuotes && !NeedsQuotes(cfg, field)
    ensures ScanAll(cfg, s, field) == s.(current := s.current + field)
    decreases |field|
  {
    if field == "" {
      assert s.current + "" == s.current;
    } else {
      assert field[0] in field && forall c :: c in field[1..] ==> c in field;
      ScanPlain(cfg, s.(current := s.current + [field[0]]), field[1..]);
      assert s.current + [field[0]] + field[1..] == s.current + field;
    }
  }

  lemma ScanPrinted(cfg: Config, fields: seq<string>, field: string)
    ensures ScanAll(cfg, Scan(fields, "", false), Printed(cfg, field)) == Scan(fields, Unquoted(cfg, field), false)
  {
    var s := Scan(fields, "", false);
    if NeedsQuotes(cfg, field) {
      var body := Doubled(cfg, field);
      var inside := s.(inQuotes := true);
      assert Printed(cfg, field) == [cfg.quote] + (body + [cfg.quote]);
      ScanConcat(cfg, s, [cfg.quote], body + [cfg.quote]);
      assert ScanAll(cfg, s, [cfg.quote]) == inside;
      ScanConcat(cfg, inside, body, [cfg.quote]);
      ScanDoubled(cfg, inside, field);
      assert "" + Unquoted(cfg, field) == Unquoted(cfg, field);
      ScanOne(cfg, Scan(fields, Unquoted(cfg, field), true), cfg.quote);
    } else {
      ScanPlain(cfg, s, field);
      assert "" + field == field;
    }
  }

  lemma ScanOne(cfg: Config, s: Scan, c: char)
    ensures ScanAll(cfg, s, [c]) == ScanChar(cfg, s, c)
  {
    assert [c][1..] == "";
  }

  lemma ScanSeparator(cfg: Config, fields: seq<string>, current: string, rest: string)
    requires cfg.delimiter != cfg.quote
    ensures ScanAll(cfg, Scan(fields, current, false), [cfg.delimiter] + rest)
         == ScanAll(cfg, Scan(fields + [current], "", false), rest)
  {
    assert ([cfg.delimiter] + rest)[1..] == rest;
  }

  lemma ScanFieldAndSeparator(cfg: Config, fields: seq<string>, field: string, rest: string)
    requires cfg.delimiter != cfg.quote
    ensures ScanAll(cfg, Scan(fields, "", false), Printed(cfg, field) + ([cfg.delimiter] + rest))
         == ScanAll(cfg, Scan(fields + [Unquoted(cfg, field)], "", false), rest)
  {
    ScanPrinted(cfg, fields, field);
    ScanConcat(cfg, Scan(fields, "", false), Printed(cfg, field), [cfg.delimiter] + rest);
    ScanSeparator(cfg, fields, Unquoted(cfg, field), rest);
  }

  lemma {:induction false} ScanPrintedRow(cfg: Config, fields: seq<string>, row: Row)
    requires cfg.delimiter != cfg.quote && row != []
    ensures Collected(ScanAll(cfg, Scan(fields, "", false), PrintedRow(cfg, row))) == fields + UnquotedRow(cfg, row)
    decreases |row|
  {
    var field := Unquoted(cfg, row[0]);
    if |row| == 1 {
      ScanPrinted(cfg, fields, row[0]);
      assert UnquotedRow(cfg, row) == [field];
    } else {
      ScanPrintedRow(cfg, fields + [field], row[1..]);
      ScanFieldAndSeparator(cfg, fields, row[0], PrintedRow(cfg, row[1..]));
      UnquotedCons(cfg, fields, row);
    }
  }

  lemma UnquotedCons(cfg: Config, fields: seq<string>, row: Row)
    requires row != []
    ensures fields + [Unquoted(cfg, row[0])] + UnquotedRow(cfg, row[1..]) == fields + UnquotedRow(cfg, row)
  {}

  /** Parsing a printed row gives as many fields, each without its quote characters, whatever the
      fields hold. */
  lemma PrintedRowParses(cfg: Config, row: Row)
    requires cfg.delimiter != cfg.quote && row != []
    ensures Parsed(cfg, PrintedRow(cfg, row)) == UnquotedRow(cfg, row)
  {
    ScanPrintedRow(cfg, [], row);
    assert [] + UnquotedRow(cfg, row) == UnquotedRow(cfg, row);
  }

  ghost predicate QuoteFree(cfg: Config, row: Row) {
    forall i :: 0 <= i < |row| ==> cfg.quote !in row[i]
  }

  /** Printer and parser are inverse exactly on rows without quote characters. */
  lemma RowRoundTripExactlyWhen(cfg: Config, row: Row)
    requires cfg.delimiter != cfg.quote && row != []
    ensures Parsed(cfg, PrintedRow(cfg, row)) == row <==> QuoteFree(cfg, row)
  {
    PrintedRowParses(cfg, row);
    var out := UnquotedRow(cfg, row);
    if QuoteFree(cfg, row) {
      assert out == row;
    } else {
      var i :| 0 <= i < |row| && cfg.quote in row[i];
      assert out[i] != row[i];
    }
  }

  // ------------------------------------------------------------------ lines and files

  function ParsedContent(cfg: Config, text: string): seq<Row>
    decreases |text|
  {
    if text == "" then []
    else
      var (line, rest) := GetLine(text);
      if cfg.skipEmptyRows && line == "" then ParsedContent(cfg, rest)
      else [Parsed(cfg, line)] + ParsedContent(cfg, rest)
  }

  method ParseContent(cfg: Config, text: string) returns (rows: seq<Row>)
    ensures rows == ParsedContent(cfg, text)
  {
    rows := [];
    var stream := text;
    while stream != ""
      invariant ParsedContent(cfg, text) == rows + ParsedContent(cfg, stream)
      decreases |stream|
    {
      var (line, rest) := GetLine(stream);
      if !(cfg.skipEmptyRows && line == "") {
        var row := ParseLine(cfg, line);
        rows := rows + [row];
      }
      stream := rest;
    }
  }

  function Written(cfg: Config, rows: seq<Row>): string {
    if rows == [] then "" else PrintedRow(cfg, rows[0]) + (['\n'] + Written(cfg, rows[1..]))
  }

  method WriteRows(cfg: Config, rows: seq<Row>) returns (file: string)
    ensures file == Written(cfg, rows)
  {
    file := "";
    for i := 0 to |rows|
      invariant Written(cfg, rows) == file + Written(cfg, rows[i..])
    {
      assert rows[i..][1..] == rows[i + 1..];
      var row := WriteRow(cfg, rows[i]);
      file := file + row + ['\n'];
    }
  }

  ghost predicate NewlineFree(row: Row) { forall i :: 0 <= i < |row| ==> '\n' !in row[i] }

  /** Delimiter, quote and newline are three different characters. */
  predicate ConfigOk(cfg: Config) { cfg.delimiter != cfg.quote && '\n' != cfg.delimiter && '\n' != cfg.quote }

  /** A row that prints to something, or a parser that keeps empty lines. */
  ghost predicate Noticed(cfg: Config, row: Row) {
    row != [] && (cfg.skipEmptyRows ==> |row| > 1 || row[0] != "")
  }

  lemma {:induction false} DoubledMembers(cfg: Config, field: string)
    ensures forall c :: c in Doubled(cfg, field) <==> c in field
  {
    if field != "" {
      DoubledMembers(cfg, field[1..]);
      assert field == [field[0]] + field[1..];
    }
  }

  lemma {:induction false} PrintedRowNewlines(cfg: Config, row: Row)
    requires ConfigOk(cfg) && row != []
    ensures '\n' in PrintedRow(cfg, row) <==> !NewlineFree(row)
    decreases |row|
  {
    DoubledMembers(cfg, row[0]);
    assert '\n' in Printed(cfg, row[0]) <==> '\n' in row[0];
    if |row| > 1 {
      PrintedRowNewlines(cfg, row[1..]);
      if !NewlineFree(row) && '\n' !in row[0] {
        var i :| 0 <= i < |row| && '\n' in row[i];
        assert row[1..][i - 1] == row[i];
      }
      assert forall i :: 0 <= i < |row| - 1 ==> row[1..][i] == row[i + 1];
    }
  }

  /** A printed row neither begins nor ends with a newline. */
  lemma {:induction false} PrintedRowEnds(cfg: Config, row: Row)
    requires ConfigOk(cfg) && row != []
    ensures var p := PrintedRow(cfg, row);
      && (p == "" <==> |row| == 1 && row[0] == "")
      && (p != "" ==> p[0] != '\n' && p[|p| - 1] != '\n')
    decreases |row|
  {
    var p := Printed(cfg, row[0]);
    assert p != "" ==> p[0] != '\n' && p[|p| - 1] != '\n';
    if |row| > 1 {
      PrintedRowEnds(cfg, row[1..]);
    }
  }

  /** Writing rows without newlines and reading the file gives the rows without their quotes. */
  lemma {:induction false} WrittenRowsParse(cfg: Config, rows: seq<Row>)
    requires ConfigOk(cfg)
    requires forall i :: 0 <= i < |rows| ==> Noticed(cfg, rows[i]) && NewlineFree(rows[i])
    ensures |ParsedContent(cfg, Written(cfg, rows))| == |rows|
    ensures forall i :: 0 <= i < |rows| ==> ParsedContent(cfg, Written(cfg, rows))[i] == UnquotedRow(cfg, rows[i])
  {
    if rows != [] {
      var line := PrintedRow(cfg, rows[0]);
      PrintedRowNewlines(cfg, rows[0]);
      PrintedRowEnds(cfg, rows[0]);
      GetLineOf(line, Written(cfg, rows[1..]));
      PrintedRowParses(cfg, rows[0]);
      WrittenRowsParse(cfg, rows[1..]);
    }
  }

  lemma {:induction false} SplitAtNewline(text: string) returns (line: string, rest: string)
    requires '\n' in text
    ensures text == line + (['\n'] + rest) && '\n' !in line
  {
    if text[0] == '\n' {
      line, rest := "", text[1..];
    } else {
      var l;
      l, rest := SplitAtNewline(text[1..]);
      line := [text[0]] + l;
    }
  }

  /** A piece of text that does not end with a newline is read as at least one row. */
  lemma {:induction false} PieceGivesRow(cfg: Config, piece: string, rest: string)
    requires piece != "" && piece[|piece| - 1] != '\n'
    ensures |ParsedContent(cfg, piece + (['\n'] + rest))| >= 1 + |ParsedContent(cfg, rest)|
    decreases |piece|
  {
    if '\n' in piece {
      var line, more := SplitAtNewline(piece);
      assert more != "" && more[|more| - 1] == piece[|piece| - 1];
      var tail := more + (['\n'] + rest);
      assert piece + (['\n'] + rest) == line + (['\n'] + tail);
      GetLineOf(line, tail);
      PieceGivesRow(cfg, more, rest);
    } else {
      GetLineOf(piece, rest);
    }
  }

  lemma BrokenPieceGivesTwo(cfg: Config, piece: string, rest: string)
    requires '\n' in piece && piece[0] != '\n' && piece[|piece| - 1] != '\n'
    ensures |ParsedContent(cfg, piece + (['\n'] + rest))| >= 2 + |ParsedContent(cfg, rest)|
  {
    var line, more := SplitAtNewline(piece);
    assert line != "" && more != "" && more[|more| - 1] == piece[|piece| - 1];
    var tail := more + (['\n'] + rest);
    assert piece + (['\n'] + rest) == line + (['\n'] + tail);
    GetLineOf(line, tail);
    PieceGivesRow(cfg, more, rest);
  }

  lemma {:induction false} BrokenRowsMultiply(cfg: Config, rows: seq<Row>)
    requires ConfigOk(cfg)
    requires forall i :: 0 <= i < |rows| ==> Noticed(cfg, rows[i])
    ensures |ParsedContent(cfg, Written(cfg, rows))| >= |rows|
    ensures (exists i :: 0 <= i < |rows| && !NewlineFree(rows[i])) ==>
      |ParsedContent(cfg, Written(cfg, rows))| > |rows|
  {
    if rows != [] {
      var line, rest := PrintedRow(cfg, rows[0]), Written(cfg, rows[1..]);
      PrintedRowNewlines(cfg, rows[0]);
      PrintedRowEnds(cfg, rows[0]);
      BrokenRowsMultiply(cfg, rows[1..]);
      if NewlineFree(rows[0]) {
        GetLineOf(line, rest);
        if i :| 0 <= i < |rows| && !NewlineFree(rows[i]) {
          assert rows[1..][i - 1] == rows[i];
        }
      } else {
        BrokenPieceGivesTwo(cfg, line, rest);
      }
    }
  }

  /** A written file is read back as it was exactly when no field holds a newline or a quote
      character, although the printer quotes for both. */
  lemma FileRoundTripExactlyWhen(cfg: Config, rows: seq<Row>)
    requires ConfigOk(cfg)
    requires forall i :: 0 <= i < |rows| ==> Noticed(cfg, rows[i])
    ensures ParsedContent(cfg, Written(cfg, rows)) == rows <==>
            forall i :: 0 <= i < |rows| ==> NewlineFree(rows[i]) && QuoteFree(cfg, rows[i])
  {
    var back := ParsedContent(cfg, Written(cfg, rows));
    BrokenRowsMultiply(cfg, rows);
    if forall i :: 0 <= i < |rows| ==> NewlineFree(rows[i]) {
      WrittenRowsParse(cfg, rows);
      forall i | 0 <= i < |rows| ensures back[i] == rows[i] <==> QuoteFree(cfg, rows[i]) {
        PrintedRowParses(cfg, rows[i]);
        RowRoundTripExactlyWhen(cfg, rows[i]);
      }
    }
  }
}
