/**
 What the tokens of a text and the pieces of a word are, told by their places, and where the ids of an encoding go.
 */
module TokenizerLaws {
  import opened Strings
  import opened Tokenizers

  // ------------------------------------------------------------------ basic tokens

  predicate IsLetter(c: char) {
    !IsSpace(c) && !IsPunct(c) && !IsHigh(c)
  }

  /** One token of a text: a mark by itself, a byte above 127 with all the continuation bytes that follow it, or
      a run of other characters that cannot be made longer, in lower case. */
  ghost predicate BasicAt(text: string, span: Span, token: string) {
    && span.start < span.end <= |text|
    && var piece := text[span.start..span.end];
    && if IsPunct(piece[0]) then
         |piece| == 1 && token == piece
       else if IsHigh(piece[0]) then
         && token == piece
         && (forall k :: span.start < k < span.end ==> IsContinuation(text[k]))
         && (span.end < |text| ==> !IsContinuation(text[span.end]))
       else
         && |token| == |piece| && (forall k :: 0 <= k < |piece| ==> token[k] == ToLower(piece[k]))
         && (forall k :: span.start <= k < span.end ==> IsLetter(text[k]))
         && (span.start > 0 ==> !IsLetter(text[span.start-1]))
         && (span.end < |text| ==> !IsLetter(text[span.end]))
  }

  /** The tokens of the text from `start` on, one after the other, and leaving out nothing but white space. */
  ghost predicate BasicTokensAt(text: string, start: nat, tokens: seq<string>, spans: seq<Span>) {
    && |spans| == |tokens|
    && (forall i :: 0 <= i < |spans| ==> start <= spans[i].start && BasicAt(text, spans[i], tokens[i]))
    && (forall i, j :: 0 <= i < j < |spans| ==> spans[i].end <= spans[j].start)
    && forall k :: start <= k < |text| && !IsSpace(text[k]) ==> Covered(spans, k)
  }

  /** Part of a run of letters has been read, in lower case. */
  ghost predicate Reading(text: string, start: nat, at: nat, open: string) {
    && start <= at <= |text| && |open| == at - start
    && (forall k :: start <= k < at ==> IsLetter(text[k]) && open[k-start] == ToLower(text[k]))
    && (start > 0 && start < at ==> !IsLetter(text[start-1]))
  }

  /** A token in front of those that come later. */
  lemma TokenBefore(text: string, start: nat, next: nat, span: Span, token: string, tokens: seq<string>,
                    later: seq<Span>)
    requires start <= span.start < span.end <= next && BasicAt(text, span, token)
    requires BasicTokensAt(text, next, tokens, later)
    requires forall k :: start <= k < next && k < |text| && !IsSpace(text[k]) ==> span.start <= k < span.end
    ensures BasicTokensAt(text, start, [token] + tokens, [span] + later)
  {
    var spans, all := [span] + later, [token] + tokens;
    hide BasicAt, Covered, IsSpace;
    forall i | 0 <= i < |spans|
      ensures start <= spans[i].start && BasicAt(text, spans[i], all[i])
    {
      if i > 0 {
        assert spans[i] == later[i-1] && all[i] == tokens[i-1];
      }
    }
    forall k | start <= k < |text| && !IsSpace(text[k])
      ensures Covered(spans, k)
    {
      CoveredLater(span, later, k);
    }
  }

  lemma NothingBefore(text: string, start: nat, next: nat, tokens: seq<string>, later: seq<Span>)
    requires start <= next && BasicTokensAt(text, next, tokens, later)
    requires forall k :: start <= k < next && k < |text| ==> IsSpace(text[k])
    ensures BasicTokensAt(text, start, tokens, later)
  {
  }

  /** The run of letters read so far ends here, if there is one. */
  lemma RunEnds(text: string, start: nat, at: nat, open: string, tokens: seq<string>, later: seq<Span>)
    returns (spans: seq<Span>)
    requires Reading(text, start, at, open) && (at < |text| ==> !IsLetter(text[at]))
    requires BasicTokensAt(text, at, tokens, later)
    ensures BasicTokensAt(text, start, Flush(open) + tokens, spans)
  {
    if open == [] {
      assert Flush(open) + tokens == tokens;
      spans := later;
    } else {
      spans := [Span(start, at)] + later;
      assert IsLetter(text[start]);
      assert BasicAt(text, Span(start, at), open);
      TokenBefore(text, start, at, Span(start, at), open, tokens, later);
    }
  }

  lemma {:induction false} BasicFromRuns(text: string, start: nat, at: nat, open: string) returns (spans: seq<Span>)
    requires Reading(text, start, at, open)
    requires start > 0 && start == at < |text| && IsLetter(text[start]) ==> !IsLetter(text[start-1])
    ensures BasicTokensAt(text, start, BasicFrom(open, text[at..]), spans)
    decreases |text| - at
  {
    if at == |text| {
      assert BasicTokensAt(text, at, [], []);
      spans := RunEnds(text, start, at, open, [], []);
      assert Flush(open) + [] == BasicFrom(open, text[at..]);
    } else if IsLetter(text[at]) {
      ReadLetter(text, at, open);
      spans := BasicFromRuns(text, start, at + 1, open + [ToLower(text[at])]);
    } else {
      var later := AfterRun(text, at);
      ReadOther(text, at, open);
      spans := RunEnds(text, start, at, open, BasicFrom([], text[at..]), later);
    }
  }

  lemma ReadLetter(text: string, at: nat, open: string)
    requires at < |text| && IsLetter(text[at])
    ensures BasicFrom(open, text[at..]) == BasicFrom(open + [ToLower(text[at])], text[at+1..])
  {
    assert text[at..][1..] == text[at+1..];
  }

  lemma ReadOther(text: string, at: nat, open: string)
    requires at < |text| && !IsLetter(text[at])
    ensures BasicFrom(open, text[at..]) == Flush(open) + BasicFrom([], text[at..])
  {
    assert Flush([]) == [];
  }

  /** Tokens from a place where no run of letters is being read and none begins. */
  lemma AfterRun(text: string, at: nat) returns (spans: seq<Span>)
    requires at < |text| && !IsLetter(text[at])
    ensures BasicTokensAt(text, at, BasicFrom([], text[at..]), spans)
    decreases |text| - at, 0
  {
    var rest := text[at..];
    if IsSpace(text[at]) {
      assert rest[1..] == text[at+1..] && Flush([]) == [];
      spans := BasicFromRuns(text, at + 1, at + 1, []);
      NothingBefore(text, at, at + 1, BasicFrom([], text[at+1..]), spans);
      assert BasicFrom([], rest) == BasicFrom([], text[at+1..]);
    } else {
      var end := TokenEnd(text, at);
      var later := BasicFromRuns(text, end, end, []);
      TokenBefore(text, at, end, Span(at, end), text[at..end], BasicFrom([], text[end..]), later);
      spans := [Span(at, end)] + later;
    }
  }

  /** A mark or a multi-byte sequence. */
  lemma TokenEnd(text: string, at: nat) returns (end: nat)
    requires at < |text| && !IsLetter(text[at]) && !IsSpace(text[at])
    ensures at < end <= |text| && BasicAt(text, Span(at, end), text[at..end])
    ensures BasicFrom([], text[at..]) == [text[at..end]] + BasicFrom([], text[end..])
    ensures end < |text| ==> !IsLetter(text[end-1])
  {
    var rest := text[at..];
    if IsPunct(text[at]) {
      end := at + 1;
      assert rest[1..] == text[end..] && text[at..end] == [text[at]];
    } else {
      var n := 1 + Continuations(rest[1..]);
      end := at + n;
      assert rest[..n] == text[at..end] && rest[n..] == text[end..];
      forall k | at < k < end
        ensures IsContinuation(text[k])
      {
        assert text[k] == rest[1..][k-at-1];
      }
      if end < |text| {
        assert text[end] == rest[1..][n-1];
      }
    }
  }

  /** The basic tokens of a text are exactly its marks, its multi-byte sequences and its longest runs of other
      characters, in order; only white space lies between them. */
  lemma BasicTokensByPlace(text: string)
    ensures exists spans :: BasicTokensAt(text, 0, Basic(text), spans)
  {
    var spans := BasicFromRuns(text, 0, 0, []);
    assert text[0..] == text;
    assert BasicTokensAt(text, 0, Basic(text), spans);
  }

  // ------------------------------------------------------------------ pieces of a word

  /** The piece between two cuts of a word is the longest that the vocabulary has there, with "##" in front unless
      it begins the word; where it has none, one character stands as "[UNK]". */
  ghost predicate LongestPiece(vocab: Vocabulary, word: string, start: nat, end: nat, piece: string) {
    && start < end <= |word|
    && var mark := if start == 0 then "" else "##";
    && (forall e :: end < e <= |word| ==> mark + word[start..e] !in vocab)
    && if mark + word[start..end] in vocab then piece == mark + word[start..end]
       else end == start + 1 && piece == "[UNK]"
  }

  /** The word cut into pieces from left to right, from cuts[0] to its end. */
  ghost predicate GreedyCuts(vocab: Vocabulary, word: string, cuts: seq<nat>, pieces: seq<string>) {
    && |cuts| == |pieces| + 1 && cuts[|pieces|] == |word|
    && forall i :: 0 <= i < |pieces| ==> LongestPiece(vocab, word, cuts[i], cuts[i+1], pieces[i])
  }

  lemma {:induction false} PiecesFromCuts(vocab: Vocabulary, word: string, start: nat) returns (cuts: seq<nat>)
    requires start <= |word|
    ensures GreedyCuts(vocab, word, cuts, PiecesFrom(vocab, word, start)) && cuts[0] == start
    decreases |word| - start
  {
    if start == |word| {
      cuts := [start];
    } else {
      var end, piece := NextPiece(vocab, word, start);
      var later := PiecesFromCuts(vocab, word, end);
      cuts := [start] + later;
      hide LongestPiece;
      var pieces := [piece] + PiecesFrom(vocab, word, end);
      forall i | 0 <= i < |pieces|
        ensures LongestPiece(vocab, word, cuts[i], cuts[i+1], pieces[i])
      {
        if i > 0 {
          assert LongestPiece(vocab, word, later[i-1], later[i-1+1], PiecesFrom(vocab, word, end)[i-1]);
        }
      }
    }
  }

  lemma NextPiece(vocab: Vocabulary, word: string, start: nat) returns (end: nat, piece: string)
    requires start < |word|
    ensures LongestPiece(vocab, word, start, end, piece)
    ensures PiecesFrom(vocab, word, start) == [piece] + PiecesFrom(vocab, word, end)
  {
    var longest := LongestEnd(vocab, word, start, |word|);
    var mark := if start == 0 then "" else "##";
    forall e | start < e <= |word|
      ensures mark + word[start..e] == Spelled(word, start, e)
    {
    }
    end := if longest == start then start + 1 else longest;
    piece := if longest == start then "[UNK]" else Spelled(word, start, longest);
  }

  /** Every word is cut greedily, the whole word being the first piece tried. */
  lemma PiecesAreGreedy(vocab: Vocabulary, word: string)
    ensures exists cuts :: GreedyCuts(vocab, word, cuts, Pieces(vocab, word)) && cuts[0] == 0
  {
    var cuts := PiecesFromCuts(vocab, word, 0);
  }

  // ------------------------------------------------------------------- the encoding

  /** The pieces of all basic tokens, in order. */
  ghost function AllPieces(vocab: Vocabulary, words: seq<string>): seq<string> {
    if words == [] then [] else AllPieces(vocab, words[..|words|-1]) + Pieces(vocab, words[|words|-1])
  }

  lemma {:induction false} IdsOfAllPieces(vocab: Vocabulary, words: seq<string>)
    requires "[UNK]" in vocab
    ensures |AllIds(vocab, words)| == |AllPieces(vocab, words)|
    ensures forall i :: 0 <= i < |AllIds(vocab, words)| ==>
                          var piece := AllPieces(vocab, words)[i];
                          AllIds(vocab, words)[i] == if piece in vocab then vocab[piece] else vocab["[UNK]"]
  {
    if words != [] {
      IdsOfAllPieces(vocab, words[..|words|-1]);
    }
  }

  /** An encoding with special tokens: [CLS], as many pieces as leave room for [SEP], [SEP], padding. */
  lemma MarkedEncoding(vocab: Vocabulary, text: string, maxLength: nat)
    requires "[UNK]" in vocab && "[PAD]" in vocab && "[CLS]" in vocab && "[SEP]" in vocab
    requires maxLength >= 2
    ensures var ids, pieces := Encoded(vocab, Basic(text), maxLength, true), AllPieces(vocab, Basic(text));
            var n := if |pieces| < maxLength - 2 then |pieces| else maxLength - 2;
            && |ids| == maxLength
            && ids[0] == vocab["[CLS]"] && ids[n+1] == vocab["[SEP]"]
            && (forall i :: 0 <= i < n ==>
                              ids[i+1] == if pieces[i] in vocab then vocab[pieces[i]] else vocab["[UNK]"])
            && forall i :: n + 2 <= i < maxLength ==> ids[i] == vocab["[PAD]"]
  {
    IdsOfAllPieces(vocab, Basic(text));
  }

  /** An encoding without special tokens: as many pieces as fit, then padding. */
  lemma BareEncoding(vocab: Vocabulary, text: string, maxLength: nat)
    requires "[UNK]" in vocab && "[PAD]" in vocab && "[CLS]" in vocab && "[SEP]" in vocab
    ensures var ids, pieces := Encoded(vocab, Basic(text), maxLength, false), AllPieces(vocab, Basic(text));
            var n := if |pieces| < maxLength then |pieces| else maxLength;
            && |ids| == maxLength
            && (forall i :: 0 <= i < n ==>
                              ids[i] == if pieces[i] in vocab then vocab[pieces[i]] else vocab["[UNK]"])
            && forall i :: n <= i < maxLength ==> ids[i] == vocab["[PAD]"]
  {
    IdsOfAllPieces(vocab, Basic(text));
    var all := AllIds(vocab, Basic(text));
    var n := if |all| < maxLength then |all| else maxLength;
    var padding := seq(maxLength - n, _ => vocab["[PAD]"]);
    assert Filled([], all, maxLength) == all[..n];
    assert Encoded(vocab, Basic(text), maxLength, false) == all[..n] + padding;
  }

  /** Room for one id takes [CLS] alone; and no room at all makes the limit wrap around, so that everything
      goes in behind [CLS]. */
  lemma CrampedEncoding(vocab: Vocabulary, text: string)
    requires "[UNK]" in vocab && "[PAD]" in vocab && "[CLS]" in vocab && "[SEP]" in vocab
    ensures Encoded(vocab, Basic(text), 1, true) == [vocab["[CLS]"]]
    ensures var ids, pieces := Encoded(vocab, Basic(text), 0, true), AllPieces(vocab, Basic(text));
            |pieces| + 1 <= 0xFFFF_FFFF_FFFF_FFFF ==>
              && |ids| == |pieces| + 1 && ids[0] == vocab["[CLS]"]
              && forall i :: 0 <= i < |pieces| ==>
                               ids[i+1] == if pieces[i] in vocab then vocab[pieces[i]] else vocab["[UNK]"]
  {
    IdsOfAllPieces(vocab, Basic(text));
  }
}
