/** Operations on texts that several of the models share. */
module Strings {

  function ToLower(c: char): char {
    if 'A' <= c <= 'Z' then (c as int + 32) as char else c
  }

  ghost function Concat(parts: seq<string>): string {
    if parts == [] then [] else parts[0] + Concat(parts[1..])
  }

  lemma {:induction false} ConcatAppend(a: seq<string>, b: seq<string>)
    ensures Concat(a + b) == Concat(a) + Concat(b)
  {
    if a == [] {
      assert a + b == b;
    } else {
      ConcatAppend(a[1..], b);
      assert (a + b)[1..] == a[1..] + b && (a + b)[0] == a[0];
      assert Concat(a + b) == a[0] + Concat(a[1..] + b);
    }
  }

  /** Where a piece of a text starts and ends. */
  datatype Span = Span(start: nat, end: nat)

  /** The position lies in one of the pieces. */
  ghost predicate Covered(spans: seq<Span>, k: nat) {
    exists i :: 0 <= i < |spans| && spans[i].start <= k < spans[i].end
  }

  lemma CoveredLater(span: Span, spans: seq<Span>, k: nat)
    ensures Covered([span] + spans, k) <==> span.start <= k < span.end || Covered(spans, k)
  {
    var all := [span] + spans;
    if span.start <= k < span.end {
      assert all[0].start <= k < all[0].end;
    }
    if i :| 0 <= i < |spans| && spans[i].start <= k < spans[i].end {
      assert all[i+1].start <= k < all[i+1].end;
    }
  }

  /** getline: the text up to the next newline, and what follows it. */
  function GetLine(text: string): (r: (string, string))
    ensures text != "" ==> |r.1| < |text|
    ensures '\n' !in r.0
  {
    if text == "" then ("", "")
    else if text[0] == '\n' then ("", text[1..])
    else var r := GetLine(text[1..]); ([text[0]] + r.0, r.1)
  }

  lemma {:induction false} GetLineOf(line: string, rest: string)
    requires '\n' !in line
    ensures GetLine(line + (['\n'] + rest)) == (line, rest)
    ensures GetLine(line + ['\n'] + rest) == (line, rest)
  {
    var text := line + (['\n'] + rest);
    assert line + ['\n'] + rest == text;
    if line == "" {
      assert text == ['\n'] + rest;
    } else {
      assert text[1..] == line[1..] + (['\n'] + rest);
      assert forall c :: c in line[1..] ==> c in line;
      assert line[0] in line && text[0] == line[0];
      GetLineOf(line[1..], rest);
      assert [line[0]] + line[1..] == line;
    }
  }
}
