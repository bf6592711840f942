/**
 From text to index terms: tokenizing, case folding, stop words and stemming (ASCII, as in the
 "C" locale).
 */
module TextProcessing {
  import opened Strings

  /** The stop-word list is fixed in the program; here it is part of the configuration. */
  datatype TextConfig = TextConfig(minTermLength: nat, useStemming: bool, caseSensitive: bool, stopWords: set<string>)

  predicate IsTokenChar(c: char) {
    'a' <= c <= 'z' || 'A' <= c <= 'Z' || '0' <= c <= '9' || c == '-' || c == '_'
  }

  function Lowered(s: string): (r: string)
    ensures |r| == |s| && forall i :: 0 <= i < |s| ==> r[i] == ToLower(s[i])
  {
    seq(|s|, i requires 0 <= i < |s| => ToLower(s[i]))
  }

  predicate EndsWith(s: string, suffix: string) {
    |s| >= |suffix| && s[|s|-|suffix|..] == suffix
  }

  function Stem(word: string): string {
    if |word| <= 3 then word
    else if EndsWith(word, "ing") then word[..|word|-3]
    else if EndsWith(word, "ed") then word[..|word|-2]
    else if EndsWith(word, "s") && !EndsWith(word, "ss") then word[..|word|-1]
    else word
  }

  // ------------------------------------------------------------------- tokenizing

  /** The tokens of `text` when `open` has been read of the current one. */
  ghost function TokensFrom(open: string, text: string): seq<string>
    decreases text
  {
    if text == [] then (if open == [] then [] else [open])
    else if IsTokenChar(text[0]) then TokensFrom(open + [text[0]], text[1..])
    else (if open == [] then [] else [open]) + TokensFrom([], text[1..])
  }

  ghost function Tokens(text: string): seq<string> {
    TokensFrom([], text)
  }

  method Tokenize(text: string) returns (tokens: seq<string>)
    ensures tokens == Tokens(text)
  {
    tokens := [];
    var token := "";
    for i := 0 to |text|
      invariant tokens + TokensFrom(token, text[i..]) == Tokens(text)
    {
      var c := text[i];
      if IsTokenChar(c) {
        token := token + [c];
      } else if token != [] {
        tokens := tokens + [token];
        token := [];
      }
    }
    if token != [] {
      tokens := tokens + [token];
    }
  }

  ghost function TokenChars(text: string): string {
    if text == [] then []
    else (if IsTokenChar(text[0]) then [text[0]] else []) + TokenChars(text[1..])
  }

  /** What is put together when a token, if one is open, ends. */
  lemma ConcatFlushed(open: string, rest: seq<string>)
    ensures Concat((if open == [] then [] else [open]) + rest) == open + Concat(rest)
  {
    if open == [] {
      assert [] + rest == rest && open + Concat(rest) == Concat(rest);
    } else {
      assert ([open] + rest)[1..] == rest;
    }
  }

  /** Tokens are non-empty runs of token characters, and together they hold exactly the token
      characters of the text, in order. */
  lemma {:induction false} TokensConserve(open: string, text: string)
    requires forall c :: c in open ==> IsTokenChar(c)
    ensures Concat(TokensFrom(open, text)) == open + TokenChars(text)
    ensures forall t :: t in TokensFrom(open, text) ==> t != [] && forall c :: c in t ==> IsTokenChar(c)
    decreases text
  {
    if text == [] {
      ConcatFlushed(open, []);
    } else if IsTokenChar(text[0]) {
      TokensConserve(open + [text[0]], text[1..]);
      hide TokensFrom, IsTokenChar;
      assert open + [text[0]] + TokenChars(text[1..]) == open + ([text[0]] + TokenChars(text[1..]));
    } else {
      TokensConserve([], text[1..]);
      var rest := TokensFrom([], text[1..]);
      assert TokensFrom(open, text) == (if open == [] then [] else [open]) + rest;
      assert TokenChars(text) == [] + TokenChars(text[1..]);
      ConcatFlushed(open, rest);
      hide TokensFrom, TokenChars, IsTokenChar;
    }
  }

  /** A run of token characters that cannot be made longer. */
  ghost predicate MaximalRun(text: string, span: Span) {
    && span.start < span.end <= |text|
    && (forall k :: span.start <= k < span.end ==> IsTokenChar(text[k]))
    && (span.start > 0 ==> !IsTokenChar(text[span.start-1]))
    && (span.end < |text| ==> !IsTokenChar(text[span.end]))
  }

  /** The tokens are the maximal runs of the text from `start` on, one after the other, and leave no token
      character out. */
  ghost predicate TokensAt(text: string, start: nat, tokens: seq<string>, spans: seq<Span>) {
    && |spans| == |tokens|
    && (forall i :: 0 <= i < |spans| ==>
                      && start <= spans[i].start && MaximalRun(text, spans[i])
                      && tokens[i] == text[spans[i].start..spans[i].end])
    && (forall i, j :: 0 <= i < j < |spans| ==> spans[i].end < spans[j].start)
    && forall k :: start <= k < |text| && IsTokenChar(text[k]) ==> Covered(spans, k)
  }

  lemma {:induction false} TokensFromRuns(text: string, start: nat, at: nat) returns (spans: seq<Span>)
    requires start <= at <= |text| && forall k :: start <= k < at ==> IsTokenChar(text[k])
    requires start > 0 ==> !IsTokenChar(text[start-1])
    ensures TokensAt(text, start, TokensFrom(text[start..at], text[at..]), spans)
    decreases |text| - at
  {
    hide MaximalRun, Covered, TokensAt, TokensFrom, IsTokenChar;
    if at == |text| {
      spans := LastRun(text, start);
    } else if IsTokenChar(text[at]) {
      ReadOneMore(text, start, at);
      spans := TokensFromRuns(text, start, at + 1);
    } else {
      ReadOneMore(text, start, at);
      RunClosed(text, start, at);
      var later := TokensFromRuns(text, at + 1, at + 1);
      assert text[at+1..at+1] == [];
      spans := RunBefore(text, start, at, TokensFrom([], text[at+1..]), later);
    }
  }

  lemma ReadOneMore(text: string, start: nat, at: nat)
    requires start <= at < |text|
    ensures TokensFrom(text[start..at], text[at..])
            == if IsTokenChar(text[at]) then TokensFrom(text[start..at+1], text[at+1..])
               else (if start < at then [text[start..at]] else []) + TokensFrom([], text[at+1..])
  {
    assert text[start..at+1] == text[start..at] + [text[at]] && text[at+1..] == text[at..][1..];
  }

  lemma LastRun(text: string, start: nat) returns (spans: seq<Span>)
    requires start <= |text| && forall k :: start <= k < |text| ==> IsTokenChar(text[k])
    requires start > 0 ==> !IsTokenChar(text[start-1])
    ensures TokensAt(text, start, TokensFrom(text[start..|text|], text[|text|..]), spans)
  {
    if start == |text| {
      spans := [];
    } else {
      spans := [Span(start, |text|)];
      forall k | start <= k < |text|
        ensures Covered(spans, k)
      {
        assert spans[0].start <= k < spans[0].end;
      }
    }
  }

  lemma RunClosed(text: string, start: nat, at: nat)
    requires start <= at < |text| && !IsTokenChar(text[at])
    requires forall k :: start <= k < at ==> IsTokenChar(text[k])
    requires start > 0 ==> !IsTokenChar(text[start-1])
    ensures start < at ==> MaximalRun(text, Span(start, at))
  {
  }

  lemma RunFits(text: string, span: Span)
    requires MaximalRun(text, span)
    ensures span.start < span.end <= |text|
  {
  }

  lemma RunBefore(text: string, start: nat, at: nat, tokens: seq<string>, later: seq<Span>)
    returns (spans: seq<Span>)
    requires start <= at < |text| && !IsTokenChar(text[at])
    requires start < at ==> MaximalRun(text, Span(start, at))
    requires TokensAt(text, at + 1, tokens, later)
    ensures TokensAt(text, start, (if start < at then [text[start..at]] else []) + tokens, spans)
  {
    hide MaximalRun, Covered;
    var first := Span(start, at);
    if start == at {
      spans := later;
      assert [] + tokens == tokens;
    } else {
      spans := [first] + later;
      var all := [text[start..at]] + tokens;
      forall i | 0 <= i < |spans|
        ensures start <= spans[i].start && MaximalRun(text, spans[i])
        ensures spans[i].start <= spans[i].end <= |text| && all[i] == text[spans[i].start..spans[i].end]
      {
        if i > 0 {
          assert spans[i] == later[i-1] && all[i] == tokens[i-1];
          RunFits(text, later[i-1]);
        }
      }
      forall k | start <= k < |text| && IsTokenChar(text[k])
        ensures Covered(spans, k)
      {
        CoveredLater(first, later, k);
      }
    }
  }

  /** The tokens of a text are exactly its maximal runs of letters, digits, hyphens and underscores, in order. */
  lemma TokensAreMaximalRuns(text: string)
    ensures exists spans :: TokensAt(text, 0, Tokens(text), spans)
  {
    var spans := TokensFromRuns(text, 0, 0);
    assert text[0..0] == [] && text[0..] == text;
    assert TokensAt(text, 0, Tokens(text), spans);
  }

  // ------------------------------------------------------------------ processing

  /** What one token becomes; None when it is dropped. The stop-word test comes before stemming. */
  function Normalized(token: string, cfg: TextConfig): string {
    if cfg.caseSensitive then token else Lowered(token)
  }

  predicate Kept(token: string, cfg: TextConfig) {
    |Normalized(token, cfg)| >= cfg.minTermLength && Normalized(token, cfg) !in cfg.stopWords
  }

  function TermOf(token: string, cfg: TextConfig): string {
    if cfg.useStemming then Stem(Normalized(token, cfg)) else Normalized(token, cfg)
  }

  ghost function TermsOf(tokens: seq<string>, cfg: TextConfig): seq<string> {
    if tokens == [] then []
    else
      var before, token := TermsOf(tokens[..|tokens|-1], cfg), tokens[|tokens|-1];
      if Kept(token, cfg) then before + [TermOf(token, cfg)] else before
  }

  /** The terms a text is indexed under, in order of occurrence. */
  ghost function Words(text: string, cfg: TextConfig): seq<string> {
    TermsOf(Tokens(text), cfg)
  }

  /** The terms are the tokens that are kept, in order: those long enough that are no stop word once folded, which
      is before the stemming. */
  lemma {:induction false} TermsAreKeptTokens(tokens: seq<string>, cfg: TextConfig) returns (at: seq<nat>)
    ensures |at| == |TermsOf(tokens, cfg)|
    ensures forall i :: 0 <= i < |at| ==> at[i] < |tokens|
    ensures forall i, j :: 0 <= i < j < |at| ==> at[i] < at[j]
    ensures forall k :: 0 <= k < |tokens| ==>
                          var folded := if cfg.caseSensitive then tokens[k] else Lowered(tokens[k]);
                          k in at <==> |folded| >= cfg.minTermLength && folded !in cfg.stopWords
    ensures forall i :: 0 <= i < |at| ==>
                          var folded := if cfg.caseSensitive then tokens[at[i]] else Lowered(tokens[at[i]]);
                          TermsOf(tokens, cfg)[i] == if cfg.useStemming then Stem(folded) else folded
  {
    hide Lowered, Stem;
    at := [];
    if tokens != [] {
      var n := |tokens| - 1;
      at := TermsAreKeptTokens(tokens[..n], cfg);
      if Kept(tokens[n], cfg) {
        at := at + [n];
      }
    }
  }

  /** Stemming drops one of the endings "ing", "ed" and "s" from words of more than three letters, never the "s" of
      "ss", and at most one ending. */
  lemma StemDropsOneEnding(word: string)
    ensures |word| <= 3 ==> Stem(word) == word
    ensures |word| > 3 && word[|word|-3..] == "ing" ==> word == Stem(word) + "ing"
    ensures |word| > 3 && word[|word|-2..] == "ed" ==> word == Stem(word) + "ed"
    ensures |word| > 3 && word[|word|-1] == 's' && word[|word|-2] != 's' ==> word == Stem(word) + "s"
    ensures |word| > 3 && word[|word|-3..] != "ing" && word[|word|-2..] != "ed" && word[|word|-1] != 's' ==>
              Stem(word) == word
    ensures |word| > 3 && word[|word|-2..] == "ss" ==> Stem(word) == word
  {
    if |word| > 3 {
      var n := |word|;
      assert word[n-3..][0] == word[n-3] && word[n-3..][1] == word[n-2] && word[n-3..][2] == word[n-1];
      assert word[n-2..] == [word[n-2], word[n-1]];
      assert word[n-1..] == [word[n-1]];
      assert word == word[..n-3] + word[n-3..] == word[..n-2] + word[n-2..] == word[..n-1] + word[n-1..];
    }
  }

  method ProcessText(text: string, cfg: TextConfig) returns (processed: seq<string>)
    ensures processed == Words(text, cfg)
  {
    processed := [];
    var tokens := Tokenize(text);
    for i := 0 to |tokens|
      invariant processed == TermsOf(tokens[..i], cfg)
    {
      assert tokens[..i+1][..i] == tokens[..i];
      var keep, term := ProcessToken(tokens[i], cfg);
      if keep {
        processed := processed + [term];
      }
    }
    assert tokens[..|tokens|] == tokens;
  }

  /** One turn of the loop: lower-case, drop short words and stop words, stem. */
  method ProcessToken(original: string, cfg: TextConfig) returns (keep: bool, term: string)
    ensures keep <==> Kept(original, cfg)
    ensures keep ==> term == TermOf(original, cfg)
  {
    var token := original;
    if !cfg.caseSensitive {
      token := Lowered(token);
    }
    if |token| < cfg.minTermLength {
      return false, token;
    }
    if token in cfg.stopWords {
      return false, token;
    }
    if cfg.useStemming {
      token := Stem(token);
    }
    return true, token;
  }
}
