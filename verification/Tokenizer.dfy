/**
 The WordPiece tokenizer: vocabulary loading, splitting text into basic tokens, greedy
 longest-match subwords, and the encode/decode pair. Characters stand for bytes.
 */
module Tokenizers {
  import opened Strings

  const UNK: string := "[UNK]"
  const PAD: string := "[PAD]"
  const CLS: string := "[CLS]"
  const SEP: string := "[SEP]"
  const MASK: string := "[MASK]"

  // ------------------------------------------------------------------ basic tokens

  predicate IsSpace(c: char) {
    c == ' ' || '\t' <= c <= '\r'
  }

  predicate IsPunct(c: char) {
    '!' <= c <= '/' || ':' <= c <= '@' || '[' <= c <= '`' || '{' <= c <= '~'
  }

  predicate IsHigh(c: char) {
    c as int >= 0x80
  }

  /** A UTF-8 continuation byte. */
  predicate IsContinuation(c: char) {
    0x80 <= c as int < 0xC0
  }

  /** Length of the run of continuation bytes at the front. */
  function Continuations(s: string): (n: nat)
    ensures n <= |s| && forall i :: 0 <= i < n ==> IsContinuation(s[i])
    ensures n < |s| ==> !IsContinuation(s[n])
  {
    if s != [] && IsContinuation(s[0]) then 1 + Continuations(s[1..]) else 0
  }

  function Flush(open: string): seq<string> {
    if open == [] then [] else [open]
  }

  /** The basic tokens of `text` when `open` has been read of the current one. */
  ghost function BasicFrom(open: string, text: string): seq<string>
    decreases |text|
  {
    if text == [] then Flush(open)
    else if IsSpace(text[0]) then Flush(open) + BasicFrom([], text[1..])
    else if IsPunct(text[0]) then Flush(open) + [[text[0]]] + BasicFrom([], text[1..])
    else if IsHigh(text[0]) then
      var n := 1 + Continuations(text[1..]);
      Flush(open) + [text[..n]] + BasicFrom([], text[n..])
    else BasicFrom(open + [ToLower(text[0])], text[1..])
  }

  ghost function Basic(text: string): seq<string> {
    BasicFrom([], text)
  }

  method BasicTokenize(text: string) returns (tokens: seq<string>)
    ensures tokens == Basic(text)
  {
    tokens := [];
    var current := "";
    var i := 0;
    while i < |text|
      invariant i <= |text|
      invariant tokens + BasicFrom(current, text[i..]) == Basic(text)
    {
      tokens, current, i := BasicStep(text, tokens, current, i);
    }
    tokens := tokens + Flush(current);
  }

  /** One turn of the loop: a space, a mark, a multi-byte sequence or a letter. */
  method BasicStep(text: string, before: seq<string>, open: string, start: nat)
    returns (tokens: seq<string>, current: string, i: nat)
    requires start < |text|
    ensures start < i <= |text|
    ensures tokens + BasicFrom(current, text[i..]) == before + BasicFrom(open, text[start..])
  {
    tokens, current, i := before, open, start;
    var c := text[i];
    assert text[i..][1..] == text[i+1..];
    if IsSpace(c) {
      tokens, current := tokens + Flush(current), "";
      i := i + 1;
    } else if IsPunct(c) {
      tokens, current := tokens + Flush(current) + [[c]], "";
      i := i + 1;
    } else if IsHigh(c) {
      i := MultiByteEnd(text, i);
      tokens, current := tokens + Flush(current) + [text[start..i]], "";
    } else {
      current := current + [ToLower(c)];
      i := i + 1;
    }
  }

  /** Collects the continuation bytes that follow the byte at i. */
  method MultiByteEnd(text: string, i: nat) returns (j: nat)
    requires i < |text|
    ensures i < j <= |text|
    ensures var rest := text[i..];
            var n := 1 + Continuations(rest[1..]);
            n == j - i && rest[..n] == text[i..j] && rest[n..] == text[j..]
  {
    j := i + 1;
    while j < |text| && IsContinuation(text[j])
      invariant i < j <= |text|
      invariant forall k :: i < k < j ==> IsContinuation(text[k])
    {
      j := j + 1;
    }
    ContinuationRun(text, i, j - 1);
  }

  /** Scanning byte by byte finds the whole multi-byte sequence. */
  lemma ContinuationRun(text: string, i: nat, j: nat)
    requires i <= j < |text|
    requires forall k :: i < k <= j ==> IsContinuation(text[k])
    requires j + 1 < |text| ==> !IsContinuation(text[j+1])
    ensures var rest := text[i..];
            var n := 1 + Continuations(rest[1..]);
            n == j + 1 - i && rest[..n] == text[i..j+1] && rest[n..] == text[j+1..]
  {
    var rest := text[i..];
    assert rest[1..] == text[i+1..];
    RunLength(rest[1..], j - i);
  }

  lemma {:induction false} RunLength(s: string, n: nat)
    requires n <= |s| && forall k :: 0 <= k < n ==> IsContinuation(s[k])
    requires n < |s| ==> !IsContinuation(s[n])
    ensures Continuations(s) == n
  {
    if n > 0 {
      RunLength(s[1..], n - 1);
    }
  }

  /** The text with white space dropped and ASCII letters lowered. */
  ghost function Folded(text: string): string {
    if text == [] then []
    else if IsSpace(text[0]) then Folded(text[1..])
    else [ToLower(text[0])] + Folded(text[1..])
  }

  lemma {:induction false} FoldedHigh(text: string, n: nat)
    requires n <= |text| && forall i :: 0 <= i < n ==> IsHigh(text[i])
    ensures Folded(text) == text[..n] + Folded(text[n..])
  {
    if n > 0 {
      FoldedHigh(text[1..], n - 1);
      assert text[..n] == [text[0]] + text[1..][..n-1];
      assert text[1..][n-1..] == text[n..];
    } else {
      assert text[0..] == text;
    }
  }

  lemma ConcatParts(open: string, mid: string, rest: seq<string>)
    ensures Concat(Flush(open) + rest) == open + Concat(rest)
    ensures Concat(Flush(open) + [mid] + rest) == open + mid + Concat(rest)
  {
    ConcatFlush(open);
    ConcatAppend(Flush(open), rest);
    ConcatAppend(Flush(open), [mid]);
    ConcatAppend(Flush(open) + [mid], rest);
    assert [mid][1..] == [];
    assert Concat([mid]) == mid;
    hide Flush;
  }

  /** The lead byte and its continuation bytes: a run that lies inside the text. */
  lemma HighRun(text: string, n: nat)
    requires text != [] && IsHigh(text[0]) && n == 1 + Continuations(text[1..])
    ensures n <= |text| && forall i :: 0 <= i < n ==> IsHigh(text[i])
  {
    assert text == [text[0]] + text[1..];
  }

  /** The first token of the rest, when it starts with a high byte. */
  lemma BasicHigh(open: string, text: string, n: nat)
    requires text != [] && IsHigh(text[0]) && !IsSpace(text[0]) && !IsPunct(text[0])
    requires n == 1 + Continuations(text[1..])
    ensures n <= |text| && BasicFrom(open, text) == Flush(open) + [text[..n]] + BasicFrom([], text[n..])
  {}

  lemma HighRunConserves(open: string, text: string, n: nat)
    requires text != [] && IsHigh(text[0]) && !IsSpace(text[0]) && !IsPunct(text[0])
    requires n == 1 + Continuations(text[1..]) && Concat(BasicFrom([], text[n..])) == Folded(text[n..])
    ensures Concat(BasicFrom(open, text)) == open + Folded(text)
  {
    BasicHigh(open, text, n);
    HighRun(text, n);
    FoldedHigh(text, n);
    hide *;
    ConcatParts(open, text[..n], BasicFrom([], text[n..]));
    assert open + text[..n] + Folded(text[n..]) == open + Folded(text);
  }

  lemma MarkConserves(open: string, text: string)
    requires text != [] && (IsSpace(text[0]) || IsPunct(text[0]))
    requires Concat(BasicFrom([], text[1..])) == Folded(text[1..])
    ensures Concat(BasicFrom(open, text)) == open + Folded(text)
  {
    var rest := BasicFrom([], text[1..]);
    if IsSpace(text[0]) {
      assert BasicFrom(open, text) == Flush(open) + rest && Folded(text) == Folded(text[1..]);
      hide *;
      ConcatParts(open, [text[0]], rest);
    } else {
      assert ToLower(text[0]) == text[0];
      assert BasicFrom(open, text) == Flush(open) + [[text[0]]] + rest;
      assert Folded(text) == [text[0]] + Folded(text[1..]);
      hide *;
      ConcatParts(open, [text[0]], rest);
      assert open + [text[0]] + Folded(text[1..]) == open + Folded(text);
    }
  }

  /** Basic tokens lose nothing but white space and case. */
  lemma {:induction false} BasicConserves(open: string, text: string)
    ensures Concat(BasicFrom(open, text)) == open + Folded(text)
    decreases |text|
  {
    if text == [] {
      ConcatFlush(open);
    } else if IsSpace(text[0]) || IsPunct(text[0]) {
      BasicConserves([], text[1..]);
      MarkConserves(open, text);
    } else if IsHigh(text[0]) {
      var n := 1 + Continuations(text[1..]);
      BasicConserves([], text[n..]);
      HighRunConserves(open, text, n);
    } else {
      LetterConserves(open, text);
    }
  }

  lemma LetterConserves(open: string, text: string)
    requires text != [] && !IsSpace(text[0]) && !IsPunct(text[0]) && !IsHigh(text[0])
    ensures Concat(BasicFrom(open, text)) == open + Folded(text)
    decreases |text|, 0
  {
    var grown := open + [ToLower(text[0])];
    BasicConserves(grown, text[1..]);
    assert BasicFrom(open, text) == BasicFrom(grown, text[1..]);
    assert Folded(text) == [ToLower(text[0])] + Folded(text[1..]);
    hide *;
    assert grown + Folded(text[1..]) == open + ([ToLower(text[0])] + Folded(text[1..]));
  }

  lemma ConcatFlush(open: string)
    ensures Concat(Flush(open)) == open
  {
    if open != [] {
      assert [open][1..] == [];
    }
  }

  /** A punctuation mark alone, or a non-empty run without punctuation. */
  predicate IsBasic(token: string) {
    token != [] && (|token| == 1 || forall i :: 0 <= i < |token| ==> !IsPunct(token[i]))
  }

  lemma {:induction false} BasicTokensAreBasic(open: string, text: string)
    requires forall i :: 0 <= i < |open| ==> !IsPunct(open[i])
    ensures forall t :: t in BasicFrom(open, text) ==> IsBasic(t)
    decreases |text|
  {
    if text != [] {
      if IsSpace(text[0]) || IsPunct(text[0]) {
        BasicTokensAreBasic([], text[1..]);
      } else if IsHigh(text[0]) {
        var n := 1 + Continuations(text[1..]);
        BasicTokensAreBasic([], text[n..]);
        forall i | 0 <= i < n
          ensures !IsPunct(text[..n][i])
        {
          assert i > 0 ==> text[1..][i-1] == text[i];
        }
      } else {
        BasicTokensAreBasic(open + [ToLower(text[0])], text[1..]);
      }
    }
  }

  // ------------------------------------------------------------------ longest match

  type Vocabulary = map<string, int>

  /** How the vocabulary spells word[start..end]: inside a word with a leading "##". */
  function Spelled(word: string, start: nat, end: nat): string
    requires start <= end <= |word|
  {
    if start > 0 then "##" + word[start..end] else word[start..end]
  }

  /** The largest end <= limit at which a piece from `start` is in the vocabulary; `start` if none. */
  function LongestEnd(vocab: Vocabulary, word: string, start: nat, limit: nat): (end: nat)
    requires start <= limit <= |word|
    ensures start <= end <= limit
    ensures end > start ==> Spelled(word, start, end) in vocab
    ensures forall e :: end < e <= limit ==> Spelled(word, start, e) !in vocab
  {
    if start == limit || Spelled(word, start, limit) in vocab then limit else LongestEnd(vocab, word, start, limit - 1)
  }

  function PiecesFrom(vocab: Vocabulary, word: string, start: nat): seq<string>
    requires start <= |word|
    decreases |word| - start
  {
    if start == |word| then []
    else
      var end := LongestEnd(vocab, word, start, |word|);
      if end == start then [UNK] + PiecesFrom(vocab, word, start + 1)
      else [Spelled(word, start, end)] + PiecesFrom(vocab, word, end)
  }

  /** Greedy longest-match pieces; a position without any match yields [UNK] for one character. */
  function Pieces(vocab: Vocabulary, word: string): seq<string> {
    PiecesFrom(vocab, word, 0)
  }

  lemma {:induction false} LongestEndIs(vocab: Vocabulary, word: string, start: nat, end: nat, limit: nat)
    requires start <= end <= limit <= |word| && (start < end ==> Spelled(word, start, end) in vocab)
    requires forall e :: end < e <= limit ==> Spelled(word, start, e) !in vocab
    ensures LongestEnd(vocab, word, start, limit) == end
    decreases limit
  {
    if end < limit {
      LongestEndIs(vocab, word, start, end, limit - 1);
    }
  }

  lemma WholeWord(vocab: Vocabulary, word: string)
    requires word != [] && word in vocab
    ensures Pieces(vocab, word) == [word]
  {
    assert Spelled(word, 0, |word|) == word;
    assert PiecesFrom(vocab, word, |word|) == [];
  }

  method WordpieceTokenize(vocab: Vocabulary, word: string) returns (tokens: seq<string>)
    ensures tokens == Pieces(vocab, word)
  {
    tokens := [];
    if word == [] {
      return;
    }
    if word in vocab {
      tokens := [word];
      WholeWord(vocab, word);
      return;
    }
    var start := 0;
    while start < |word|
      invariant start <= |word|
      invariant tokens + PiecesFrom(vocab, word, start) == Pieces(vocab, word)
      decreases |word| - start
    {
      var found, end, substr := FindPiece(vocab, word, start);
      if !found {
        tokens := tokens + [UNK];
        start := start + 1;
      } else {
        tokens := tokens + [substr];
        start := end;
      }
    }
  }

  /** The inner loop: shortens the piece from its end until the vocabulary has it. */
  method FindPiece(vocab: Vocabulary, word: string, start: nat) returns (found: bool, end: nat, substr: string)
    requires start < |word|
    ensures end == LongestEnd(vocab, word, start, |word|)
    ensures found <==> end > start
    ensures found ==> substr == Spelled(word, start, end)
  {
    end, substr, found := |word|, "", false;
    while start < end && !found
      invariant start <= end <= |word|
      invariant forall e :: end < e <= |word| ==> Spelled(word, start, e) !in vocab
      invariant found ==> start < end && substr == Spelled(word, start, end) && substr in vocab
      decreases end - start, !found
    {
      substr := word[start..end];
      if start > 0 {
        substr := "##" + substr;
      }
      if substr in vocab {
        found := true;
      } else {
        end := end - 1;
      }
    }
    LongestEndIs(vocab, word, start, end, |word|);
  }

  /** Every position reached by the greedy scan has a match. */
  ghost predicate AllMatched(vocab: Vocabulary, word: string, start: nat)
    requires start <= |word|
    decreases |word| - start
  {
    start == |word| ||
    (var end := LongestEnd(vocab, word, start, |word|);
     end > start && AllMatched(vocab, word, end))
  }

  /** The text of a piece inside a word. */
  ghost function Inner(pieces: seq<string>): string {
    if pieces == [] then [] else (if |pieces[0]| >= 2 then pieces[0][2..] else []) + Inner(pieces[1..])
  }

  lemma {:induction false} InnerReassembles(vocab: Vocabulary, word: string, start: nat)
    requires 0 < start <= |word| && AllMatched(vocab, word, start)
    ensures Inner(PiecesFrom(vocab, word, start)) == word[start..]
    ensures forall p :: p in PiecesFrom(vocab, word, start) ==> p in vocab && |p| > 2 && p[0] == p[1] == '#'
    decreases |word| - start
  {
    if start < |word| {
      var end := LongestEnd(vocab, word, start, |word|);
      InnerReassembles(vocab, word, end);
      InnerPiece(word, start, end, PiecesFrom(vocab, word, end));
      assert PiecesFrom(vocab, word, start) == [Spelled(word, start, end)] + PiecesFrom(vocab, word, end);
    }
  }

  lemma InnerPiece(word: string, start: nat, end: nat, rest: seq<string>)
    requires 0 < start < end <= |word| && Inner(rest) == word[end..]
    ensures var p := Spelled(word, start, end);
            |p| > 2 && p[0] == p[1] == '#' && Inner([p] + rest) == word[start..]
  {
    var p := Spelled(word, start, end);
    assert p[2..] == word[start..end];
    assert ([p] + rest)[1..] == rest;
    assert word[start..] == word[start..end] + word[end..];
  }

  /** Without unmatched positions the pieces spell the word: the first as it is, the others behind
      their "##". Each is the longest vocabulary entry at its place. */
  lemma PiecesReassemble(vocab: Vocabulary, word: string)
    requires word != [] && AllMatched(vocab, word, 0)
    ensures var pieces := Pieces(vocab, word);
            && pieces != [] && pieces[0] + Inner(pieces[1..]) == word
            && pieces[0] == word[..LongestEnd(vocab, word, 0, |word|)] && pieces[0] in vocab
            && forall p :: p in pieces[1..] ==> p in vocab && |p| > 2 && p[0] == p[1] == '#'
  {
    var end := LongestEnd(vocab, word, 0, |word|);
    InnerReassembles(vocab, word, end);
    assert Pieces(vocab, word)[1..] == PiecesFrom(vocab, word, end);
    assert word == word[..end] + word[end..];
  }

  /** A piece of a basic token is never mistaken for a bracketed special token. */
  lemma BasicPrefixNotSpecial(word: string, end: nat)
    requires IsBasic(word) && end <= |word|
    ensures |word[..end]| > 2 ==> word[0] != '#' && word[0] != '['
    ensures word[..end] != UNK && word[..end] != PAD && word[..end] != CLS && word[..end] != SEP && word[..end] != MASK
  {
  }

  /** For a basic token, [UNK] appears among the pieces exactly when some position has no match. */
  lemma {:induction false} UnkMeansUnmatched(vocab: Vocabulary, word: string, start: nat)
    requires IsBasic(word) && start <= |word|
    ensures UNK in PiecesFrom(vocab, word, start) <==> !AllMatched(vocab, word, start)
    decreases |word| - start
  {
    if start < |word| {
      var end := LongestEnd(vocab, word, start, |word|);
      if end > start {
        UnkMeansUnmatched(vocab, word, end);
        BasicPrefixNotSpecial(word, end);
        if start > 0 {
          assert Spelled(word, start, end)[0] == '#';
        }
        assert Spelled(word, start, end) != UNK;
      }
    }
  }

  // ---------------------------------------------------------------- the tokenizer

  predicate TrailingBlank(c: char) {
    c == '\r' || c == '\n' || c == ' ' || c == '\t'
  }

  function TrimRight(line: string): (t: string)
    ensures t <= line && (t != [] ==> !TrailingBlank(t[|t|-1]))
    ensures forall i :: |t| <= i < |line| ==> TrailingBlank(line[i])
  {
    if line != [] && TrailingBlank(line[|line|-1]) then TrimRight(line[..|line|-1]) else line
  }

  /** The vocabulary entries of a file: its lines trimmed on the right, blank ones dropped. */
  function Entries(lines: seq<string>): seq<string> {
    if lines == [] then []
    else
      var n := |lines| - 1;
      var t := TrimRight(lines[n]);
      if t == [] then Entries(lines[..n]) else Entries(lines[..n]) + [t]
  }

  class Tokenizer {
    var vocab: Vocabulary
    var idToToken: map<int, string>

    /** Looking a token's id up again gives the token. */
    ghost predicate Valid()
      reads this
    {
      && (forall t :: t in vocab ==> vocab[t] in idToToken && idToToken[vocab[t]] == t)
      && (forall id :: id in idToToken ==> idToToken[id] in vocab)
      && PAD in vocab && UNK in vocab && CLS in vocab && SEP in vocab
    }

    /** Entry number i of the file becomes token i; a repeated entry keeps its last number. Fails when
        an essential token is missing. */
    method LoadVocabulary(lines: seq<string>) returns (ok: bool)
      modifies this
      ensures ok ==> Valid()
      ensures var es := Entries(lines);
              && idToToken == (map i | 0 <= i < |es| :: es[i])
              && (forall t :: t in vocab <==> t in es)
              && (forall i :: 0 <= i < |es| && (forall j :: i < j < |es| ==> es[j] != es[i]) ==> vocab[es[i]] == i)
              && (ok <==> PAD in es && UNK in es && CLS in es && SEP in es)
    {
      vocab, idToToken := map[], map[];
      var idx := 0;
      ghost var es: seq<string> := [];
      for k := 0 to |lines|
        invariant es == Entries(lines[..k]) && idx == |es|
        invariant idToToken == map i | 0 <= i < |es| :: es[i]
        invariant forall t :: t in vocab <==> t in es
        invariant forall t :: t in vocab ==> 0 <= vocab[t] < |es| && es[vocab[t]] == t
                                             && forall j :: vocab[t] < j < |es| ==> es[j] != t
      {
        assert lines[..k+1][..k] == lines[..k];
        var line := TrimRight(lines[k]);
        if line != [] {
          vocab := vocab[line := idx];
          idToToken := idToToken[idx := line];
          idx := idx + 1;
          es := es + [line];
        }
      }
      assert lines[..|lines|] == lines;
      ok := PAD in vocab && UNK in vocab && CLS in vocab && SEP in vocab;
    }

    /** Encoding: [CLS], as many piece ids as fit, [SEP], padding. With max_length 0 and special tokens
        the limit max_length - 1 wraps around to the largest 64-bit number and nothing is cut. */
    method Encode(text: string, maxLength: nat, addSpecial: bool) returns (ids: seq<int>)
      requires Valid()
      ensures ids == Encoded(vocab, Basic(text), maxLength, addSpecial)
      ensures |ids| == maxLength <==> maxLength >= 1 || !addSpecial
    {
      ids := [];
      if addSpecial {
        ids := [vocab[CLS]];
      }
      var words := BasicTokenize(text);
      ids := EncodeWords(vocab, words, ids, Limit(maxLength, addSpecial));
      if addSpecial && |ids| < maxLength {
        ids := ids + [vocab[SEP]];
      }
      var pad := vocab[PAD];
      ghost var unpadded := ids;
      ghost var padding: seq<int> := [];
      while |ids| < maxLength
        invariant ids == unpadded + padding
        invariant forall i :: 0 <= i < |padding| ==> padding[i] == pad
        invariant padding == [] || |ids| <= maxLength
      {
        ids := ids + [pad];
        padding := padding + [pad];
      }
      assert padding == seq(if |unpadded| < maxLength then maxLength - |unpadded| else 0, _ => pad);
    }

    method Decode(ids: seq<int>) returns (result: string)
      ensures result == Decoded(idToToken, ids)
    {
      result := "";
      var first := true;
      for i := 0 to |ids|
        invariant DecodeOn(idToToken, (result, first), ids[i..]) == DecodeOn(idToToken, ("", true), ids)
      {
        assert ids[i..][1..] == ids[i+1..];
        ghost var next := DecodeStep(idToToken, (result, first), ids[i]);
        assert DecodeOn(idToToken, (result, first), ids[i..]) == DecodeOn(idToToken, next, ids[i+1..]);
        if ids[i] !in idToToken {
          continue;
        }
        var token := idToToken[ids[i]];
        if token == PAD || token == CLS || token == SEP || token == UNK || token == MASK {
          continue;
        }
        if |token| > 2 && token[0] == '#' && token[1] == '#' {
          result := result + token[2..];
        } else {
          result := result + (if first then "" else " ") + token;
          first := false;
        }
        assert (result, first) == next;
      }
    }
  }

  // -------------------------------------------------------------------- encoding

  function IdOf(vocab: Vocabulary, piece: string): int
    requires UNK in vocab
  {
    if piece in vocab then vocab[piece] else vocab[UNK]
  }

  function IdsOf(vocab: Vocabulary, pieces: seq<string>): (ids: seq<int>)
    requires UNK in vocab
    ensures |ids| == |pieces| && forall i :: 0 <= i < |ids| ==> ids[i] == IdOf(vocab, pieces[i])
  {
    seq(|pieces|, i requires 0 <= i < |pieces| => IdOf(vocab, pieces[i]))
  }

  ghost function AllIds(vocab: Vocabulary, words: seq<string>): seq<int>
    requires UNK in vocab
  {
    if words == [] then []
    else
      var n := |words| - 1;
      AllIds(vocab, words[..n]) + IdsOf(vocab, Pieces(vocab, words[n]))
  }

  /** max_length - 1 in 64-bit arithmetic when special tokens are added. */
  function Limit(maxLength: nat, addSpecial: bool): nat {
    if !addSpecial then maxLength
    else if maxLength == 0 then 0xFFFF_FFFF_FFFF_FFFF
    else maxLength - 1
  }

  /** As much of `all` behind `start` as the limit leaves room for. */
  ghost function Filled(start: seq<int>, all: seq<int>, limit: nat): seq<int> {
    if |start| + |all| <= limit then start + all
    else if |start| < limit then start + all[..limit - |start|]
    else start
  }

  ghost function Encoded(vocab: Vocabulary, words: seq<string>, maxLength: nat, addSpecial: bool): seq<int>
    requires UNK in vocab && PAD in vocab && CLS in vocab && SEP in vocab
  {
    var body := Filled(if addSpecial then [vocab[CLS]] else [], AllIds(vocab, words), Limit(maxLength, addSpecial));
    var closed := if addSpecial && |body| < maxLength then body + [vocab[SEP]] else body;
    closed + seq(if |closed| < maxLength then maxLength - |closed| else 0, _ => vocab[PAD])
  }

  lemma FilledFull(start: seq<int>, some: seq<int>, all: seq<int>, limit: nat)
    requires some <= all && |Filled(start, some, limit)| >= limit
    ensures Filled(start, all, limit) == Filled(start, some, limit)
  {
    if |start| + |some| <= limit && |start| < limit {
      assert all[..limit - |start|] == some;
    } else if |start| < limit {
      assert all[..limit - |start|] == some[..limit - |start|];
    }
  }

  lemma {:induction false} AllIdsGrow(vocab: Vocabulary, words: seq<string>, i: nat)
    requires UNK in vocab && i <= |words|
    ensures AllIds(vocab, words[..i]) <= AllIds(vocab, words)
    decreases |words|
  {
    if i < |words| {
      var n := |words| - 1;
      assert words[..n][..i] == words[..i];
      AllIdsGrow(vocab, words[..n], i);
    } else {
      assert words[..i] == words;
    }
  }

  /** The two nested loops over words and pieces, each left as soon as the limit is reached. */
  method EncodeWords(vocab: Vocabulary, words: seq<string>, start: seq<int>, limit: nat) returns (ids: seq<int>)
    requires UNK in vocab
    ensures ids == Filled(start, AllIds(vocab, words), limit)
  {
    ids := start;
    var i := 0;
    while i < |words|
      invariant i <= |words|
      invariant ids == Filled(start, AllIds(vocab, words[..i]), limit)
    {
      var subwords := WordpieceTokenize(vocab, words[i]);
      assert words[..i+1][..i] == words[..i];
      ids := EncodePieces(vocab, subwords, start, AllIds(vocab, words[..i]), ids, limit);
      i := i + 1;
      if |ids| >= limit {
        AllIdsGrow(vocab, words, i);
        FilledFull(start, AllIds(vocab, words[..i]), AllIds(vocab, words), limit);
        return;
      }
    }
    assert words[..i] == words;
  }

  method EncodePieces(vocab: Vocabulary, subwords: seq<string>, ghost start: seq<int>, ghost before: seq<int>,
                      ids0: seq<int>, limit: nat) returns (ids: seq<int>)
    requires UNK in vocab
    requires ids0 == Filled(start, before, limit)
    ensures ids == Filled(start, before + IdsOf(vocab, subwords), limit)
  {
    ids := ids0;
    ghost var all := before + IdsOf(vocab, subwords);
    assert all[..|before|] == before;
    for j := 0 to |subwords|
      invariant ids == Filled(start, all[..|before| + j], limit)
    {
      if |ids| >= limit {
        FilledFull(start, all[..|before| + j], all, limit);
        return;
      }
      if subwords[j] in vocab {
        ids := ids + [vocab[subwords[j]]];
      } else {
        ids := ids + [vocab[UNK]];
      }
      assert all[..|before| + j + 1] == all[..|before| + j] + [IdOf(vocab, subwords[j])];
    }
    assert all[..|before| + |subwords|] == all;
  }

  // -------------------------------------------------------------------- decoding

  predicate IsSpecial(token: string) {
    token == PAD || token == CLS || token == SEP || token == UNK || token == MASK
  }

  function DecodeStep(idToToken: map<int, string>, state: (string, bool), id: int): (string, bool) {
    if id !in idToToken then state
    else
      var token := idToToken[id];
      if IsSpecial(token) then state
      else if |token| > 2 && token[0] == '#' && token[1] == '#' then (state.0 + token[2..], state.1)
      else (state.0 + (if state.1 then "" else " ") + token, false)
  }

  function DecodeOn(idToToken: map<int, string>, state: (string, bool), ids: seq<int>): (string, bool)
    decreases ids
  {
    if ids == [] then state else DecodeOn(idToToken, DecodeStep(idToToken, state, ids[0]), ids[1..])
  }

  function Decoded(idToToken: map<int, string>, ids: seq<int>): string {
    DecodeOn(idToToken, ("", true), ids).0
  }

  lemma {:induction false} DecodeConcat(idToToken: map<int, string>, state: (string, bool), a: seq<int>, b: seq<int>)
    ensures DecodeOn(idToToken, state, a + b) == DecodeOn(idToToken, DecodeOn(idToToken, state, a), b)
    decreases a
  {
    if a == [] {
      assert a + b == b;
    } else {
      DecodeConcat(idToToken, DecodeStep(idToToken, state, a[0]), a[1..], b);
      assert (a + b)[1..] == a[1..] + b;
    }
  }

  lemma {:induction false} DecodeSpecials(idToToken: map<int, string>, state: (string, bool), ids: seq<int>)
    requires forall i :: 0 <= i < |ids| ==> ids[i] in idToToken && IsSpecial(idToToken[ids[i]])
    ensures DecodeOn(idToToken, state, ids) == state
    decreases ids
  {
    if ids != [] {
      DecodeSpecials(idToToken, state, ids[1..]);
    }
  }

  ghost predicate Inverse(vocab: Vocabulary, idToToken: map<int, string>) {
    UNK in vocab && forall t :: t in vocab ==> vocab[t] in idToToken && idToToken[vocab[t]] == t
  }

  lemma {:induction false} DecodeInner(vocab: Vocabulary, idToToken: map<int, string>, state: (string, bool),
                                       pieces: seq<string>)
    requires Inverse(vocab, idToToken)
    requires forall p :: p in pieces ==> p in vocab && |p| > 2 && p[0] == p[1] == '#'
    ensures DecodeOn(idToToken, state, IdsOf(vocab, pieces)) == (state.0 + Inner(pieces), state.1)
    decreases pieces
  {
    if pieces != [] {
      var p := pieces[0];
      assert p in pieces;
      assert !IsSpecial(p);
      assert IdsOf(vocab, pieces)[1..] == IdsOf(vocab, pieces[1..]);
      DecodeInner(vocab, idToToken, (state.0 + p[2..], state.1), pieces[1..]);
      assert state.0 + p[2..] + Inner(pieces[1..]) == state.0 + Inner(pieces);
    } else {
      assert state.0 + [] == state.0;
    }
  }

  /** The pieces of a fully matched basic token decode to the token itself. */
  lemma DecodeWord(vocab: Vocabulary, idToToken: map<int, string>, state: (string, bool), word: string)
    requires Inverse(vocab, idToToken)
    requires IsBasic(word) && AllMatched(vocab, word, 0)
    ensures DecodeOn(idToToken, state, IdsOf(vocab, Pieces(vocab, word)))
            == (state.0 + (if state.1 then "" else " ") + word, false)
  {
    var pieces := Pieces(vocab, word);
    PiecesReassemble(vocab, word);
    var end := LongestEnd(vocab, word, 0, |word|);
    BasicPrefixNotSpecial(word, end);
    assert IdsOf(vocab, pieces)[1..] == IdsOf(vocab, pieces[1..]);
    var next := (state.0 + (if state.1 then "" else " ") + pieces[0], false);
    assert DecodeStep(idToToken, state, IdsOf(vocab, pieces)[0]) == next;
    DecodeInner(vocab, idToToken, next, pieces[1..]);
    assert next.0 + Inner(pieces[1..]) == state.0 + (if state.1 then "" else " ") + (pieces[0] + Inner(pieces[1..]));
  }

  /** The tokens joined by single spaces. */
  ghost function Joined(words: seq<string>): string {
    if words == [] then ""
    else
      var n := |words| - 1;
      if n == 0 then words[0] else Joined(words[..n]) + " " + words[n]
  }

  lemma {:induction false} DecodeWords(vocab: Vocabulary, idToToken: map<int, string>, words: seq<string>)
    requires Inverse(vocab, idToToken)
    requires forall w :: w in words ==> IsBasic(w) && AllMatched(vocab, w, 0)
    ensures DecodeOn(idToToken, ("", true), AllIds(vocab, words)) == (Joined(words), words == [])
  {
    if words != [] {
      var n := |words| - 1;
      DecodeWords(vocab, idToToken, words[..n]);
      DecodeConcat(idToToken, ("", true), AllIds(vocab, words[..n]), IdsOf(vocab, Pieces(vocab, words[n])));
      assert words[n] in words;
      DecodeWord(vocab, idToToken, (Joined(words[..n]), n == 0), words[n]);
      if n == 0 {
        assert words[..n] == [];
        assert "" + "" + words[n] == words[n];
      }
    }
  }

  /** When no [UNK] arises and nothing is cut off, decoding an encoded text gives its basic tokens
      joined by single spaces. */
  lemma DecodeEncode(vocab: Vocabulary, idToToken: map<int, string>, text: string, maxLength: nat, addSpecial: bool)
    requires Inverse(vocab, idToToken) && PAD in vocab && CLS in vocab && SEP in vocab
    requires forall w :: w in Basic(text) ==> UNK !in Pieces(vocab, w)
    requires |AllIds(vocab, Basic(text))| + (if addSpecial then 1 else 0) <= Limit(maxLength, addSpecial)
    ensures Decoded(idToToken, Encoded(vocab, Basic(text), maxLength, addSpecial)) == Joined(Basic(text))
  {
    var words := Basic(text);
    BasicTokensAreBasic([], text);
    forall w | w in words
      ensures IsBasic(w) && AllMatched(vocab, w, 0)
    {
      UnkMeansUnmatched(vocab, w, 0);
    }
    var front := if addSpecial then [vocab[CLS]] else [];
    var all := AllIds(vocab, words);
    var encoded := Encoded(vocab, words, maxLength, addSpecial);
    var back := encoded[|front| + |all|..];
    assert encoded == front + all + back;
    DecodeSpecials(idToToken, ("", true), front);
    DecodeConcat(idToToken, ("", true), front, all);
    DecodeWords(vocab, idToToken, words);
    DecodeConcat(idToToken, ("", true), front + all, back);
    DecodeSpecials(idToToken, (Joined(words), words == []), back);
  }
}
