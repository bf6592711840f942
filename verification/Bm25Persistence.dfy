/**
 Saving and loading the BM25 engine: one line per document, with newlines in the content escaped.
 */
module Bm25Persistence {
  import opened Results
  import opened Sequences
  import opened Strings
  import opened TextProcessing
  import opened Bm25Index
  import opened Bm25Engines

  // ------------------------------------------------------------- newline escaping

  /** Every newline becomes a backslash followed by n. */
  function Escape(s: string): string {
    if s == [] then []
    else if s[0] == '\n' then ['\\', 'n'] + Escape(s[1..])
    else [s[0]] + Escape(s[1..])
  }

  /** A literal backslash followed by n. */
  predicate PairAt(s: string, i: nat) {
    i + 1 < |s| && s[i] == '\\' && s[i+1] == 'n'
  }

  predicate HasPair(s: string) {
    exists i: nat :: i < |s| && PairAt(s, i)
  }

  /** From left to right, every such pair becomes a newline. */
  function Unescape(s: string): string {
    if s == [] then []
    else if PairAt(s, 0) then ['\n'] + Unescape(s[2..])
    else [s[0]] + Unescape(s[1..])
  }

  lemma {:induction false} EscapeSkip(s: string, k: nat)
    requires k <= |s| && forall i :: 0 <= i < k ==> s[i] != '\n'
    ensures Escape(s) == s[..k] + Escape(s[k..])
  {
    if k > 0 {
      EscapeSkip(s[1..], k - 1);
      assert s[..k] == [s[0]] + s[1..][..k-1];
      assert s[1..][k-1..] == s[k..];
    } else {
      assert s[0..] == s;
    }
  }

  lemma {:induction false} UnescapeSkip(s: string, k: nat)
    requires k <= |s| && forall i: nat :: i < k ==> !PairAt(s, i)
    ensures Unescape(s) == s[..k] + Unescape(s[k..])
  {
    if k > 0 {
      forall i: nat | i < k - 1
        ensures !PairAt(s[1..], i)
      {
        assert !PairAt(s, i + 1);
      }
      UnescapeSkip(s[1..], k - 1);
      assert !PairAt(s, 0);
      assert s[..k] == [s[0]] + s[1..][..k-1];
      assert s[1..][k-1..] == s[k..];
    } else {
      assert s[0..] == s;
    }
  }

  /** The escaped form of a newline is a backslash and an n, and nothing else changes. */
  lemma EscapedNewline()
    ensures Escape("a\nb\\c") == "a\\nb\\c"
    ensures Unescape("a\\nb\\c") == "a\nb\\c"
  {
    var escaped, plain := "a\\nb\\c", "a\nb\\c";
    assert plain[1..] == ['\n', 'b', '\\', 'c'] && escaped[1..] == ['\\', 'n', 'b', '\\', 'c'];
    assert plain[1..][1..] == ['b', '\\', 'c'] == escaped[1..][2..];
    assert ['b', '\\', 'c'][1..] == ['\\', 'c'] && ['\\', 'c'][1..] == ['c'] && ['c'][1..] == [];
    assert Escape(['\\', 'c']) == ['\\', 'c'] == Unescape(['\\', 'c']);
  }

  /** Position of the first newline at or after `pos`; the length when there is none. */
  function FindNewline(s: string, pos: nat): (next: nat)
    requires pos <= |s|
    ensures pos <= next <= |s|
    ensures forall i :: pos <= i < next ==> s[i] != '\n'
    ensures next < |s| ==> s[next] == '\n'
    decreases |s| - pos
  {
    if pos == |s| || s[pos] == '\n' then pos else FindNewline(s, pos + 1)
  }

  /** Position of the first escaped newline at or after `pos`; the length when there is none. */
  function FindPair(s: string, pos: nat): (next: nat)
    requires pos <= |s|
    ensures pos <= next <= |s|
    ensures forall i :: pos <= i < next ==> !PairAt(s, i)
    ensures next < |s| ==> PairAt(s, next)
    decreases |s| - pos
  {
    if pos == |s| || PairAt(s, pos) then pos else FindPair(s, pos + 1)
  }

  /** Replacing the next newline moves the escaped part forward. */
  lemma EscapeStep(s: string, pos: nat, next: nat)
    requires pos <= next < |s| && s[next] == '\n'
    requires forall i :: pos <= i < next ==> s[i] != '\n'
    ensures var t := s[..next] + ['\\', 'n'] + s[next+1..];
            t[..next+2] + Escape(t[next+2..]) == s[..pos] + Escape(s[pos..])
  {
    var rest, k := s[pos..], next - pos;
    EscapeSkip(rest, k);
    assert rest[k..][1..] == s[next+1..];
    assert Escape(rest[k..]) == ['\\', 'n'] + Escape(s[next+1..]);
    hide *;
    var t := s[..next] + ['\\', 'n'] + s[next+1..];
    assert t[next+2..] == s[next+1..];
    assert t[..next+2] == s[..next] + ['\\', 'n'];
    assert s[..next] == s[..pos] + rest[..k];
  }

  method EscapeNewlines(content: string) returns (escaped: string)
    ensures escaped == Escape(content)
  {
    hide Escape;
    escaped := content;
    var pos := 0;
    while FindNewline(escaped, pos) < |escaped|
      invariant pos <= |escaped|
      invariant escaped[..pos] + Escape(escaped[pos..]) == Escape(content)
      decreases |escaped| - pos
    {
      var next := FindNewline(escaped, pos);
      EscapeStep(escaped, pos, next);
      escaped := escaped[..next] + ['\\', 'n'] + escaped[next+1..];
      pos := next + 2;
    }
    NothingToEscape(escaped, pos);
  }

  lemma NothingToEscape(s: string, pos: nat)
    requires pos <= |s| && FindNewline(s, pos) == |s|
    ensures s[..pos] + Escape(s[pos..]) == s
  {
    var t := s[pos..];
    forall i | 0 <= i < |t|
      ensures t[i] != '\n'
    {
      assert t[i] == s[pos + i];
    }
    EscapeNothing(t);
    hide *;
    assert s[..pos] + t == s;
  }

  lemma EscapeNothing(t: string)
    requires forall i :: 0 <= i < |t| ==> t[i] != '\n'
    ensures Escape(t) == t
  {
    EscapeSkip(t, |t|);
    assert t[..|t|] == t && t[|t|..] == [];
  }

  method UnescapeNewlines(text: string) returns (content: string)
    ensures content == Unescape(text)
  {
    content := text;
    var pos := 0;
    while FindPair(content, pos) < |content|
      invariant pos <= |content|
      invariant content[..pos] + Unescape(content[pos..]) == Unescape(text)
      decreases |content| - pos
    {
      var next := FindPair(content, pos);
      UnescapeStep(content, pos, next);
      content := content[..next] + ['\n'] + content[next+2..];
      pos := next + 1;
    }
    ShiftedPairs(content, pos, |content| - pos);
    UnescapeSkip(content[pos..], |content| - pos);
    assert content[pos..][|content| - pos..] == [];
  }

  /** Replacing the first pair at or after `pos` does one step of the unescaping. */
  lemma UnescapeStep(content: string, pos: nat, next: nat)
    requires pos <= next < |content| && PairAt(content, next)
    requires forall i :: pos <= i < next ==> !PairAt(content, i)
    ensures var replaced := content[..next] + ['\n'] + content[next+2..];
            replaced[..next+1] + Unescape(replaced[next+1..]) == content[..pos] + Unescape(content[pos..])
  {
    var rest := content[pos..];
    var k := next - pos;
    ShiftedPairs(content, pos, k);
    UnescapeSkip(rest, k);
    assert rest[k..] == content[next..];
    assert rest[k..][2..] == content[next+2..];
    var replaced := content[..next] + ['\n'] + content[next+2..];
    assert replaced[next+1..] == content[next+2..];
    assert replaced[..next+1] == content[..pos] + rest[..k] + ['\n'];
  }

  lemma ShiftedPairs(s: string, pos: nat, k: nat)
    requires pos + k <= |s| && forall i :: pos <= i < pos + k ==> !PairAt(s, i)
    ensures forall i: nat :: i < k ==> !PairAt(s[pos..], i)
  {
    forall i: nat | i < k
      ensures !PairAt(s[pos..], i)
    {
      assert !PairAt(s, pos + i);
    }
  }

  /** Escaping first makes no difference to what unescaping yields. */
  lemma {:induction false} UnescapeOfEscape(s: string)
    ensures Unescape(Escape(s)) == Unescape(s)
  {
    if s != [] {
      if s[0] == '\n' {
        UnescapeOfEscape(s[1..]);
        assert Escape(s)[2..] == Escape(s[1..]);
      } else if PairAt(s, 0) {
        UnescapeOfEscape(s[2..]);
        assert Escape(s[1..]) == [s[1]] + Escape(s[1..][1..]);
        assert s[1..][1..] == s[2..];
        assert Escape(s)[2..] == Escape(s[2..]);
      } else {
        UnescapeOfEscape(s[1..]);
        assert Escape(s)[1..] == Escape(s[1..]);
        EscapeHead(s[1..]);
      }
    }
  }

  lemma EscapeHead(s: string)
    ensures s == [] ==> Escape(s) == []
    ensures s != [] && s[0] != '\n' ==> Escape(s) != [] && Escape(s)[0] == s[0]
    ensures s != [] && s[0] == '\n' ==> Escape(s) != [] && Escape(s)[0] == '\\'
  {
  }

  lemma {:induction false} UnescapeShrinks(s: string)
    ensures |Unescape(s)| <= |s|
    ensures HasPair(s) ==> |Unescape(s)| < |s|
    ensures !HasPair(s) ==> Unescape(s) == s
  {
    if s != [] {
      if PairAt(s, 0) {
        UnescapeShrinks(s[2..]);
      } else {
        UnescapeShrinks(s[1..]);
        if HasPair(s) {
          var i: nat :| i < |s| && PairAt(s, i);
          assert PairAt(s[1..], i - 1);
        }
        if HasPair(s[1..]) {
          var i: nat :| i < |s[1..]| && PairAt(s[1..], i);
          assert PairAt(s, i + 1);
        }
      }
    }
  }

  /** Escaping is undone exactly for texts without a literal backslash-n pair. */
  lemma RoundTripExactly(s: string)
    ensures Unescape(Escape(s)) == s <==> !HasPair(s)
  {
    UnescapeOfEscape(s);
    UnescapeShrinks(s);
  }

  lemma {:induction false} EscapeHasNoNewline(s: string)
    ensures '\n' !in Escape(s)
  {
    if s != [] {
      EscapeHasNoNewline(s[1..]);
    }
  }

  // --------------------------------------------------------------------- numbers

  function Digit(d: nat): char
    requires d < 10
  {
    ('0' as int + d) as char
  }

  predicate IsDigit(c: char) {
    '0' <= c <= '9'
  }

  function Decimal(n: nat): (s: string)
    ensures s != [] && forall c :: c in s ==> IsDigit(c)
  {
    if n < 10 then [Digit(n)] else Decimal(n / 10) + [Digit(n % 10)]
  }

  /** Reads digits as long as there are any. */
  function ReadDigits(value: nat, s: string): (nat, string)
    decreases s
  {
    if s != [] && IsDigit(s[0]) then ReadDigits(value * 10 + (s[0] as int - '0' as int), s[1..]) else (value, s)
  }

  predicate IsSpace(c: char) {
    c == ' ' || c == '\t' || c == '\n' || c == '\r'
  }

  function SkipSpace(s: string): string {
    if s != [] && IsSpace(s[0]) then SkipSpace(s[1..]) else s
  }

  /** Formatted input of an unsigned number: skips blanks and needs at least one digit. */
  function ReadNumber(s: string): Option<(nat, string)> {
    var t := SkipSpace(s);
    if t != [] && IsDigit(t[0]) then Some(ReadDigits(0, t)) else None
  }

  lemma {:induction false} ReadBackDigits(n: nat, rest: string)
    ensures ReadDigits(0, Decimal(n) + rest) == ReadDigits(n, rest)
  {
    if n < 10 {
      assert ([Digit(n)] + rest)[1..] == rest;
    } else {
      var tail := [Digit(n % 10)] + rest;
      assert Decimal(n) + rest == Decimal(n / 10) + tail;
      ReadBackDigits(n / 10, tail);
      assert tail[1..] == rest;
      assert n / 10 * 10 + n % 10 == n;
    }
  }

  /** A printed number is read back, blanks before it notwithstanding. */
  lemma ReadBack(n: nat, rest: string)
    requires rest == [] || !IsDigit(rest[0])
    ensures ReadNumber(Decimal(n) + rest) == Some((n, rest))
    ensures ReadNumber(['\t'] + Decimal(n) + rest) == Some((n, rest))
  {
    var s := Decimal(n) + rest;
    ReadBackDigits(n, rest);
    assert s[0] == Decimal(n)[0] && Decimal(n)[0] in Decimal(n);
    assert SkipSpace(s) == s;
    var t := ['\t'] + Decimal(n) + rest;
    assert t == ['\t'] + s;
    assert t[1..] == s;
  }

  // ----------------------------------------------------------------------- lines

  function DocumentLine(id: DocId, length: nat, content: string): string {
    Decimal(id) + ['\t'] + Decimal(length) + ['\t'] + Escape(content)
  }

  /** What the reader makes of a line: an id, a length it ignores, and the unescaped rest. */
  function ParseLine(line: string): Option<(DocId, string)> {
    match ReadNumber(line)
    case None => None
    case Some((id, rest)) =>
      match ReadNumber(rest)
      case None => None
      case Some((length, rest2)) => Some((id, Unescape(if rest2 == [] then [] else rest2[1..])))
  }

  /** A document line parses to its id and the content that survives escaping. */
  lemma ParseDocumentLine(id: DocId, length: nat, content: string)
    ensures ParseLine(DocumentLine(id, length, content)) == Some((id, Unescape(content)))
  {
    var tail := ['\t'] + Escape(content);
    var middle := ['\t'] + Decimal(length) + tail;
    assert DocumentLine(id, length, content) == Decimal(id) + middle;
    ReadBack(id, middle);
    ReadBack(length, tail);
    assert tail[1..] == Escape(content);
    UnescapeOfEscape(content);
  }

  const END_MARK: string := "DOCUMENTS_END"

  lemma DocumentLineShape(id: DocId, length: nat, content: string)
    ensures '\n' !in DocumentLine(id, length, content)
    ensures DocumentLine(id, length, content) != END_MARK
  {
    EscapeHasNoNewline(content);
    var line := DocumentLine(id, length, content);
    assert line[0] == Decimal(id)[0] && Decimal(id)[0] in Decimal(id);
  }

  // ------------------------------------------------------------------ save and load

  /** The document section of a saved engine, for the order in which its documents are walked. */
  ghost function SavedLines(documents: map<DocId, Document>, order: seq<DocId>): string
    requires forall id :: id in order ==> id in documents
  {
    if order == [] then []
    else
      var doc := documents[order[0]];
      DocumentLine(order[0], doc.length, doc.content) + ['\n'] + SavedLines(documents, order[1..])
  }

  ghost function SavedBody(documents: map<DocId, Document>, order: seq<DocId>): string
    requires forall id :: id in order ==> id in documents
  {
    SavedLines(documents, order) + END_MARK + ['\n']
  }

  /** Each document has its line: id, length and escaped content between tabs; the end mark follows the last. */
  lemma SectionLayout(documents: map<DocId, Document>, order: seq<DocId>, id: DocId)
    requires id in documents && forall x :: x in order ==> x in documents
    ensures SavedBody(documents, []) == "DOCUMENTS_END" + ['\n']
    ensures SavedBody(documents, order + [id])
         == SavedLines(documents, order)
            + (Decimal(id) + ['\t'] + Decimal(documents[id].length) + ['\t'] + Escape(documents[id].content))
            + ['\n'] + "DOCUMENTS_END" + ['\n']
  {
    SavedLinesAppend(documents, order, id);
    assert SavedLines(documents, []) == [];
    hide SavedLines, Escape, Decimal;
    assert [] + END_MARK == END_MARK;
  }

  lemma {:induction false} SavedLinesAppend(documents: map<DocId, Document>, order: seq<DocId>, id: DocId)
    requires forall x :: x in order + [id] ==> x in documents
    ensures forall x :: x in order ==> x in documents
    ensures SavedLines(documents, order + [id])
            == SavedLines(documents, order) + DocumentLine(id, documents[id].length, documents[id].content) + ['\n']
  {
    hide DocumentLine;
    forall x | x in order
      ensures x in documents
    {
      assert x in order + [id];
    }
    if order == [] {
      assert (order + [id])[1..] == [];
    } else {
      assert (order + [id])[1..] == order[1..] + [id];
      assert forall x :: x in order[1..] + [id] ==> x in order + [id];
      SavedLinesAppend(documents, order[1..], id);
    }
  }

  /** Loading re-adds every line's document and fails on the first that cannot be added. */
  ghost function LoadedFrom(ix: Index, body: string, cfg: TextConfig): Option<Index>
    decreases |body|
  {
    if body == [] then Some(ix)
    else
      var (line, rest) := GetLine(body);
      if line == END_MARK then Some(ix)
      else
        match ParseLine(line)
        case None => LoadedFrom(ix, rest, cfg)
        case Some((id, content)) =>
          if id in ix.documents || Words(content, cfg) == [] then None
          else LoadedFrom(WithDocument(ix, DocOf(id, content, cfg)), rest, cfg)
  }

  ghost function Unescaped(documents: map<DocId, Document>): map<DocId, string> {
    map id | id in documents :: Unescape(documents[id].content)
  }

  lemma LoadOneLine(ix: Index, id: DocId, length: nat, content: string, rest: string, cfg: TextConfig)
    ensures LoadedFrom(ix, DocumentLine(id, length, content) + ['\n'] + rest, cfg)
            == if id in ix.documents || Words(Unescape(content), cfg) == [] then None
               else LoadedFrom(WithDocument(ix, DocOf(id, Unescape(content), cfg)), rest, cfg)
  {
    DocumentLineShape(id, length, content);
    GetLineOf(DocumentLine(id, length, content), rest);
    ParseDocumentLine(id, length, content);
  }

  lemma LoadEnd(ix: Index, cfg: TextConfig)
    ensures LoadedFrom(ix, END_MARK + ['\n'], cfg) == Some(ix)
  {
    GetLineOf(END_MARK, []);
    assert END_MARK + ['\n'] + [] == END_MARK + ['\n'];
  }

  ghost predicate AllHaveWords(texts: map<DocId, string>, ids: seq<DocId>, cfg: TextConfig)
    requires forall id :: id in ids ==> id in texts
  {
    forall id :: id in ids ==> Words(texts[id], cfg) != []
  }

  /** Loading the first saved line adds its document, or fails when no term is left in it. */
  lemma LoadFirst(documents: map<DocId, Document>, order: seq<DocId>, done: seq<DocId>, cfg: TextConfig)
    requires order != [] && NoDup(done + order)
    requires forall id :: id in done + order ==> id in documents
    requires AllHaveWords(Unescaped(documents), done, cfg)
    ensures order[0] in documents && forall id :: id in order[1..] ==> id in documents
    ensures LoadedFrom(FromScratch(Unescaped(documents), done, cfg), SavedBody(documents, order), cfg)
      == if Words(Unescaped(documents)[order[0]], cfg) == [] then None
         else LoadedFrom(FromScratch(Unescaped(documents), done + [order[0]], cfg), SavedBody(documents, order[1..]),
             cfg)
  {
    hide LoadedFrom, SavedBody, DocumentLine, Unescape;
    var id, next := order[0], done + [order[0]];
    NextIsNew(documents, done, order, cfg);
    assert next[..|next|-1] == done;
    SavedFirst(documents, order);
    LoadOneLine(FromScratch(Unescaped(documents), done, cfg), id, documents[id].length, documents[id].content,
                SavedBody(documents, order[1..]), cfg);
  }

  lemma SavedFirst(documents: map<DocId, Document>, order: seq<DocId>)
    requires order != [] && forall id :: id in order ==> id in documents
    ensures var doc := documents[order[0]];
            SavedBody(documents, order)
            == DocumentLine(order[0], doc.length, doc.content) + ['\n'] + SavedBody(documents, order[1..])
  {
    hide DocumentLine;
  }

  /** Loading what was saved rebuilds, from scratch and in file order, an index of the unescaped
      contents; it fails exactly when one of them has no terms left. */
  lemma {:induction false} LoadRebuilds(documents: map<DocId, Document>, order: seq<DocId>, done: seq<DocId>,
                                        cfg: TextConfig)
    requires NoDup(done + order)
    requires forall id :: id in done + order ==> id in documents
    requires AllHaveWords(Unescaped(documents), done, cfg)
    ensures LoadedFrom(FromScratch(Unescaped(documents), done, cfg), SavedBody(documents, order), cfg)
      == if AllHaveWords(Unescaped(documents), order, cfg)
         then Some(FromScratch(Unescaped(documents), done + order, cfg)) else None
    decreases |order|
  {
    hide LoadedFrom, SavedBody;
    var texts := Unescaped(documents);
    if order == [] {
      SavedNothing(documents);
      LoadEnd(FromScratch(texts, done, cfg), cfg);
      assert done + order == done;
    } else {
      LoadFirst(documents, order, done, cfg);
      assert order == [order[0]] + order[1..];
      assert done + [order[0]] + order[1..] == done + order;
      if Words(texts[order[0]], cfg) != [] {
        LoadRebuilds(documents, order[1..], done + [order[0]], cfg);
      }
    }
  }

  lemma SavedNothing(documents: map<DocId, Document>)
    ensures SavedBody(documents, []) == END_MARK + ['\n']
  {}

  lemma NextIsNew(documents: map<DocId, Document>, done: seq<DocId>, order: seq<DocId>, cfg: TextConfig)
    requires order != [] && NoDup(done + order)
    requires forall id :: id in done + order ==> id in documents
    requires AllHaveWords(Unescaped(documents), done, cfg)
    ensures order[0] !in FromScratch(Unescaped(documents), done, cfg).documents
  {
    var all := done + order;
    forall i, j | 0 <= i < j < |done|
      ensures done[i] != done[j]
    {
      assert all[i] != all[j];
    }
    FromScratchMirrors(Unescaped(documents), done, cfg);
    forall i | 0 <= i < |done|
      ensures done[i] != order[0]
    {
      assert all[i] != all[|done|];
    }
  }

  ghost predicate PairFree(documents: map<DocId, Document>) {
    forall id :: id in documents ==> !HasPair(documents[id].content)
  }

  lemma PairFreeLoads(ix: Index, order: seq<DocId>, cfg: TextConfig)
    requires Mirrors(ix, cfg) && PairFree(ix.documents)
    requires NoDup(order) && forall id :: id in order <==> id in ix.documents
    ensures var loaded := LoadedFrom(EMPTY, SavedBody(ix.documents, order), cfg);
            loaded.Some? && loaded.value.documents == ix.documents && SameUpToOrder(loaded.value, ix)
  {
    var texts := Unescaped(ix.documents);
    forall id | id in ix.documents
      ensures texts[id] == ix.documents[id].content
    {
      UnescapeShrinks(ix.documents[id].content);
    }
    assert texts == Texts(ix.documents);
    SurvivorsHaveWords(ix.documents, cfg);
    assert [] + order == order;
    LoadRebuilds(ix.documents, order, [], cfg);
    MirrorIsFromScratch(ix, order, cfg);
  }

  lemma LoadedTexts(ix: Index, order: seq<DocId>, cfg: TextConfig)
    requires NoDup(order) && forall id :: id in order <==> id in ix.documents
    ensures var loaded := LoadedFrom(EMPTY, SavedBody(ix.documents, order), cfg);
            loaded.Some? ==> forall id :: id in ix.documents ==>
                                            id in loaded.value.documents
                                            && loaded.value.documents[id].content == Unescape(ix.documents[id].content)
  {
    assert [] + order == order;
    LoadRebuilds(ix.documents, order, [], cfg);
    if LoadedFrom(EMPTY, SavedBody(ix.documents, order), cfg).Some? {
      FromScratchMirrors(Unescaped(ix.documents), order, cfg);
    }
  }

  /** Load after save gives back the same documents exactly when no content holds a literal
      backslash-n pair; the rebuilt index is then the saved one up to the order of posting lists,
      and since scores depend on the documents alone, it answers every query alike. */
  lemma LoadAfterSave(ix: Index, order: seq<DocId>, cfg: TextConfig)
    requires Mirrors(ix, cfg)
    requires NoDup(order) && forall id :: id in order <==> id in ix.documents
    ensures var loaded := LoadedFrom(EMPTY, SavedBody(ix.documents, order), cfg);
            && (PairFree(ix.documents) <==> loaded.Some? && loaded.value.documents == ix.documents)
            && (PairFree(ix.documents) ==> SameUpToOrder(loaded.value, ix))
  {
    if PairFree(ix.documents) {
      PairFreeLoads(ix, order, cfg);
    } else {
      var id :| id in ix.documents && HasPair(ix.documents[id].content);
      UnescapeShrinks(ix.documents[id].content);
      LoadedTexts(ix, order, cfg);
    }
  }

  /** The document section that lists all documents, in some order. */
  ghost predicate IsSaved(documents: map<DocId, Document>, body: string) {
    exists order :: ListsAll(documents, order) && body == SavedBody(documents, order)
  }

  ghost predicate ListsAll(documents: map<DocId, Document>, order: seq<DocId>) {
    NoDup(order) && forall id :: id in order <==> id in documents
  }

  /** Writes the document section; the documents may be walked in any order. */
  method Save(engine: BM25Engine) returns (body: string)
    ensures IsSaved(engine.documents, body)
  {
    var todo := engine.documents.Keys;
    ghost var order: seq<DocId> := [];
    body := [];
    while todo != {}
      invariant todo <= engine.documents.Keys && NoDup(order)
      invariant forall id :: id in order <==> id in engine.documents && id !in todo
      invariant body == SavedLines(engine.documents, order)
      decreases todo
    {
      var id :| id in todo;
      var doc := engine.documents[id];
      var escaped := EscapeNewlines(doc.content);
      SavedLinesAppend(engine.documents, order, id);
      order := order + [id];
      body := body + (Decimal(id) + ['\t'] + Decimal(doc.length) + ['\t'] + escaped) + ['\n'];
      todo := todo - {id};
    }
    body := body + END_MARK + ['\n'];
    assert ListsAll(engine.documents, order) && body == SavedBody(engine.documents, order);
  }

  /** Reads the document section into a new engine. */
  method Load(engine: BM25Engine, body: string) returns (ok: bool)
    requires engine.Valid() && engine.Ix() == EMPTY
    modifies engine
    ensures engine.Valid()
    ensures ok <==> LoadedFrom(EMPTY, body, engine.text).Some?
    ensures ok ==> engine.Ix() == LoadedFrom(EMPTY, body, engine.text).value
  {
    var rest := body;
    while rest != []
      invariant engine.Valid()
      invariant LoadedFrom(EMPTY, body, engine.text) == LoadedFrom(engine.Ix(), rest, engine.text)
      decreases |rest|
    {
      var (line, after) := GetLine(rest);
      if line == END_MARK {
        return true;
      }
      var parsed := ParseLine(line);
      rest := after;
      if parsed.Some? {
        var status := engine.AddDocument(parsed.value.0, parsed.value.1);
        if status.Err? {
          return false;
        }
      }
    }
    return true;
  }
}
