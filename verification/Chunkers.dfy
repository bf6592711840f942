// The overlapping chunkers: FixedSize of the ingest pipeline
// (src/ingest/gold_standard_ingest.cpp, chunk_text) and chunk_fixed of the RAG engine
// (src/framework/rag_engine.cpp).  Both slide a window over a text, try to end it at a
// natural boundary, and start the next window a little before the end of this one.
module Chunkers {
  import opened Ranking

  // ---------------------------------------------------------------- windows

  datatype Window = Window(start: nat, end: nat)

  ghost predicate WindowTiles(ws: seq<Window>, i: nat, n: nat)
    requires i < |ws|
  {
    && ws[i].start <= ws[i].end <= n
    && (i > 0 ==> ws[i].start <= ws[i - 1].end <= ws[i].end)
  }

  /** Windows that tile a text of length `n`: they start at 0, leave no gap, never retreat and
      reach the end. */
  ghost predicate Tiles(ws: seq<Window>, n: nat) {
    && (n == 0 <==> ws == [])
    && (forall i :: 0 <= i < |ws| ==> WindowTiles(ws, i, n))
    && (ws != [] ==> ws[0].start == 0 && ws[|ws| - 1].end == n)
  }

  ghost function Slice(text: string, w: Window): string {
    if w.start <= w.end <= |text| then text[w.start..w.end] else ""
  }

  /** The chunks seen through the windows, in order. */
  ghost function Cut(text: string, ws: seq<Window>): (chunks: seq<string>)
    ensures |chunks| == |ws|
  {
    if ws == [] then [] else Cut(text, ws[..|ws| - 1]) + [Slice(text, ws[|ws| - 1])]
  }

  lemma {:induction false} CutAt(text: string, ws: seq<Window>, i: nat)
    requires i < |ws|
    ensures Cut(text, ws)[i] == Slice(text, ws[i])
  {
    if i < |ws| - 1 { CutAt(text, ws[..|ws| - 1], i); }
  }

  /** The part of chunk i that lies past the end of the chunk before it. */
  ghost function FreshPart(ws: seq<Window>, chunks: seq<string>, i: nat): string
    requires i < |ws| == |chunks|
  {
    var overlap := if i == 0 then 0 else ws[i - 1].end - ws[i].start;
    if 0 <= overlap <= |chunks[i]| then chunks[i][overlap..] else ""
  }

  /** What a reader gets who keeps only the fresh parts of the first n chunks. */
  ghost function ReassembledUpTo(ws: seq<Window>, chunks: seq<string>, n: nat): string
    requires n <= |ws| == |chunks|
  {
    if n == 0 then "" else ReassembledUpTo(ws, chunks, n - 1) + FreshPart(ws, chunks, n - 1)
  }

  ghost function Reassembled(ws: seq<Window>, chunks: seq<string>): string
    requires |ws| == |chunks|
  {
    ReassembledUpTo(ws, chunks, |ws|)
  }

  /** How much of the text the first n windows show. */
  ghost function Seen(ws: seq<Window>, n: nat): nat
    requires n <= |ws|
  {
    if n == 0 then 0 else ws[n - 1].end
  }

  lemma FreshPartIs(text: string, ws: seq<Window>, i: nat)
    requires Tiles(ws, |text|) && i < |ws|
    ensures Seen(ws, i) <= Seen(ws, i + 1) <= |text|
    ensures FreshPart(ws, Cut(text, ws), i) == text[Seen(ws, i)..Seen(ws, i + 1)]
  {
    assert WindowTiles(ws, i, |text|);
    CutAt(text, ws, i);
    hide Cut;
  }

  lemma {:induction false} ReassembledPrefix(text: string, ws: seq<Window>, n: nat)
    requires Tiles(ws, |text|) && n <= |ws|
    ensures Seen(ws, n) <= |text| && ReassembledUpTo(ws, Cut(text, ws), n) == text[..Seen(ws, n)]
  {
    hide FreshPart, Cut, Slice, WindowTiles;
    if n > 0 {
      ReassembledPrefix(text, ws, n - 1);
      FreshPartIs(text, ws, n - 1);
    }
  }

  /** Dropping the overlaps rebuilds the text. */
  lemma DroppingOverlapsRebuilds(text: string, ws: seq<Window>)
    requires Tiles(ws, |text|)
    ensures Reassembled(ws, Cut(text, ws)) == text
  {
    ReassembledPrefix(text, ws, |ws|);
    assert text[..|text|] == text;
  }

  // ---------------------------------------------------------------- loops that may not end

  /** Where a loop that moves from `p` to `step(p)` stands after `k` rounds. */
  ghost function Visit(step: nat -> nat, k: nat): nat {
    if k == 0 then 0 else step(Visit(step, k - 1))
  }

  ghost predicate Halts(step: nat -> nat, n: nat) { exists k :: Visit(step, k) >= n }

  ghost predicate NeverRetreats(step: nat -> nat) { forall p: nat :: p <= step(p) }

  lemma {:induction false} VisitsAscend(step: nat -> nat, j: nat, k: nat)
    requires NeverRetreats(step) && j <= k
    ensures Visit(step, j) <= Visit(step, k)
    decreases k
  {
    if j < k { VisitsAscend(step, j, k - 1); }
  }

  lemma {:induction false} Stuck(step: nat -> nat, j: nat, k: nat)
    requires step(Visit(step, j)) == Visit(step, j) && j <= k
    ensures Visit(step, k) == Visit(step, j)
    decreases k
  {
    if j < k { Stuck(step, j, k - 1); }
  }

  lemma {:induction false} VisitsClimb(step: nat -> nat, n: nat, k: nat)
    requires NeverRetreats(step)
    requires forall i :: MovesAt(step, n, i)
    ensures Visit(step, k) >= k || Visit(step, k) >= n
  {
    if k > 0 {
      VisitsClimb(step, n, k - 1);
      assert MovesAt(step, n, k - 1);
    }
  }

  lemma StuckLoopNeverHalts(step: nat -> nat, n: nat, k: nat)
    requires NeverRetreats(step)
    requires Visit(step, k) < n && step(Visit(step, k)) == Visit(step, k)
    ensures !Halts(step, n)
  {
    forall j: nat ensures Visit(step, j) < n {
      if j < k { VisitsAscend(step, j, k); } else { Stuck(step, k, j); }
    }
  }

  ghost predicate MovesAt(step: nat -> nat, n: nat, k: nat) {
    Visit(step, k) < n ==> step(Visit(step, k)) > Visit(step, k)
  }

  /** The loop ends exactly when every round that runs moves forward. */
  lemma HaltsExactlyWhen(step: nat -> nat, n: nat)
    requires NeverRetreats(step)
    ensures Halts(step, n) <==> forall k :: MovesAt(step, n, k)
  {
    if forall k :: MovesAt(step, n, k) {
      VisitsClimb(step, n, n);
      assert Visit(step, n) >= n;
    } else {
      var k :| !MovesAt(step, n, k);
      StuckLoopNeverHalts(step, n, k);
    }
  }

  // ---------------------------------------------------------------- sliding windows

  /** A chunking rule: where the window at a position ends, and where the next one starts. */
  datatype Chunker = Chunker(endOf: nat -> nat, next: nat -> nat)

  ghost predicate InsideText(c: Chunker, n: nat) {
    forall p: nat :: p < n ==> p < c.endOf(p) <= n && p <= c.next(p) <= c.endOf(p)
  }

  ghost predicate EndsNeverRetreat(c: Chunker, n: nat) {
    forall p: nat, q: nat :: p <= q < n ==> c.endOf(p) <= c.endOf(q)
  }

  /** The windows opened in the first `k` rounds of the loop. */
  ghost function Opened(c: Chunker, k: nat): (ws: seq<Window>)
    ensures |ws| == k
  {
    if k == 0 then []
    else Opened(c, k - 1) + [Window(Visit(c.next, k - 1), c.endOf(Visit(c.next, k - 1)))]
  }

  lemma {:induction false} OpenedAt(c: Chunker, k: nat, i: nat)
    requires i < k
    ensures Opened(c, k)[i] == Window(Visit(c.next, i), c.endOf(Visit(c.next, i)))
  {
    if i < k - 1 { OpenedAt(c, k - 1, i); }
  }

  ghost predicate Forward(c: Chunker, n: nat, k: nat) {
    forall i :: 0 <= i < k ==> Visit(c.next, i) < n && Visit(c.next, i) < c.next(Visit(c.next, i))
  }

  /** A loop that ran `k` rounds, moving forward each time, up to the end of the text. */
  ghost predicate RanToEnd(c: Chunker, n: nat, k: nat) {
    Visit(c.next, k) == n && Forward(c, n, k)
  }

  /** The loop after `k` rounds: where it stands and what it has emitted. */
  ghost predicate Standing(c: Chunker, text: string, k: nat, pos: nat, chunks: seq<string>) {
    && pos == Visit(c.next, k) <= |text|
    && Forward(c, |text|, k)
    && chunks == Cut(text, Opened(c, k))
  }

  lemma RoundDone(c: Chunker, text: string, k: nat, pos: nat, chunks: seq<string>)
    requires Standing(c, text, k, pos, chunks) && pos < |text|
    requires pos < c.next(pos) <= |text| && pos <= c.endOf(pos) <= |text|
    ensures Standing(c, text, k + 1, c.next(pos), chunks + [text[pos..c.endOf(pos)]])
  {
    assert Opened(c, k + 1)[..k] == Opened(c, k);
  }

  /** The chunks of a run that went through the whole text: cut through tiling windows, none empty
      or longer than size + 1, and rebuilding the text when each drops its overlap. */
  ghost predicate Covers(c: Chunker, text: string, size: nat, chunks: seq<string>) {
    exists k :: Finished(c, text, size, k, chunks) && Reassembled(Opened(c, k), chunks) == text
  }

  lemma NothingOpened(c: Chunker, k: nat)
    requires Forward(c, 0, k)
    ensures k == 0
  {
    assert k > 0 ==> !(Visit(c.next, 0) < 0);
  }

  ghost predicate AllShort(chunks: seq<string>, size: nat) {
    forall i :: 0 <= i < |chunks| ==> 0 < |chunks[i]| <= size + 1
  }

  /** What a finished run leaves behind. */
  ghost predicate Finished(c: Chunker, text: string, size: nat, k: nat, chunks: seq<string>) {
    && RanToEnd(c, |text|, k)
    && chunks == Cut(text, Opened(c, k))
    && Tiles(Opened(c, k), |text|)
    && AllShort(chunks, size)
  }

  lemma OpenedWindowTiles(c: Chunker, n: nat, k: nat, i: nat)
    requires InsideText(c, n) && EndsNeverRetreat(c, n) && Forward(c, n, k) && i < k
    ensures WindowTiles(Opened(c, k), i, n)
  {
    OpenedAt(c, k, i);
    if i > 0 {
      OpenedAt(c, k, i - 1);
      var p := Visit(c.next, i - 1);
      assert Visit(c.next, i) == c.next(p) && p < n;
    }
  }

  lemma OpenedTiles(c: Chunker, n: nat, k: nat)
    requires InsideText(c, n) && EndsNeverRetreat(c, n) && RanToEnd(c, n, k)
    ensures Tiles(Opened(c, k), n)
  {
    forall i | 0 <= i < k ensures WindowTiles(Opened(c, k), i, n) {
      OpenedWindowTiles(c, n, k, i);
    }
    if k > 0 {
      OpenedAt(c, k, 0);
      OpenedAt(c, k, k - 1);
      assert WindowTiles(Opened(c, k), k - 1, n);
      assert Visit(c.next, k) == c.next(Visit(c.next, k - 1));
    }
  }

  // ---------------------------------------------------------------- searching backwards

  /** The last place at or before `from` holding `c`, or -1 (the library's rfind). */
  function LastAt(text: string, c: char, from: nat): (r: int)
    requires from < |text|
    ensures -1 <= r <= from
    ensures r >= 0 ==> text[r] == c
    ensures forall i :: r < i <= from ==> text[i] != c
  {
    if text[from] == c then from else if from == 0 then -1 else LastAt(text, c, from - 1)
  }

  // ---------------------------------------------------------------- chunk_text, FixedSize

  /** Where the window starting at `pos` ends: after the last full stop of its second half, if
      there is one, and otherwise at its full size. */
  function SentenceEnd(text: string, size: nat, pos: nat): nat
    requires pos < |text|
  {
    var end := Min(pos + size, |text|);
    if end < |text| then
      var stop := LastAt(text, '.', end);
      if stop != -1 && stop > pos + size / 2 then stop + 1 else end
    else end
  }

  function SentenceNext(text: string, size: nat, overlap: nat, pos: nat): nat
    requires pos < |text|
  {
    var end := SentenceEnd(text, size, pos);
    var next := if end > overlap then end - overlap else end;
    if next <= pos then end else next
  }

  lemma SentenceEndBounds(text: string, size: nat, pos: nat)
    requires pos < |text|
    ensures pos <= SentenceEnd(text, size, pos) <= |text|
    ensures SentenceEnd(text, size, pos) <= pos + size + 1
    ensures size >= 1 ==> pos < SentenceEnd(text, size, pos)
  {}

  /** A later window never ends before an earlier one, although each looks for its own full stop. */
  lemma SentenceEndNeverRetreats(text: string, size: nat, p: nat, q: nat)
    requires p <= q < |text|
    ensures SentenceEnd(text, size, p) <= SentenceEnd(text, size, q)
  {
    if p < q && q + size < |text| {
      var a, b := LastAt(text, '.', p + size), LastAt(text, '.', q + size);
      assert a <= b;
      if b > p + size { assert b + 1 >= SentenceEnd(text, size, p); }
    }
  }

  /** The rule of FixedSize; past the end it stays where it is. */
  ghost function SentenceChunker(text: string, size: nat, overlap: nat): Chunker {
    Chunker((p: nat) => if p < |text| then SentenceEnd(text, size, p) else p,
            (p: nat) => if p < |text| then SentenceNext(text, size, overlap, p) else p)
  }

  /** FixedSize ends for every overlap, exactly when the window size is not zero (or there is
      nothing to do). */
  lemma SentenceChunkingHaltsExactlyWhen(text: string, size: nat, overlap: nat)
    ensures Halts(SentenceChunker(text, size, overlap).next, |text|) <==> size >= 1 || text == ""
  {
    var step := SentenceChunker(text, size, overlap).next;
    forall p: nat ensures p <= step(p) && (p < |text| && size >= 1 ==> p < step(p)) {
      if p < |text| { SentenceEndBounds(text, size, p); }
    }
    HaltsExactlyWhen(step, |text|);
    if size == 0 && text != "" {
      assert Visit(step, 0) == 0 && step(0) == 0;
      assert !MovesAt(step, |text|, 0);
    }
  }

  lemma SentenceWindowsTile(text: string, size: nat, overlap: nat, k: nat)
    requires size >= 1 && RanToEnd(SentenceChunker(text, size, overlap), |text|, k)
    ensures Tiles(Opened(SentenceChunker(text, size, overlap), k), |text|)
  {
    var c := SentenceChunker(text, size, overlap);
    forall p: nat | p < |text| ensures p < c.endOf(p) <= |text| && p <= c.next(p) <= c.endOf(p) {
      SentenceEndBounds(text, size, p);
    }
    forall p: nat, q: nat | p <= q < |text| ensures c.endOf(p) <= c.endOf(q) {
      SentenceEndNeverRetreats(text, size, p, q);
    }
    OpenedTiles(c, |text|, k);
  }

  lemma SentenceChunksShort(text: string, size: nat, overlap: nat, k: nat)
    requires size >= 1 && RanToEnd(SentenceChunker(text, size, overlap), |text|, k)
    ensures AllShort(Cut(text, Opened(SentenceChunker(text, size, overlap), k)), size)
  {
    var c := SentenceChunker(text, size, overlap);
    forall i | 0 <= i < k ensures 0 < |Cut(text, Opened(c, k))[i]| <= size + 1 {
      OpenedAt(c, k, i);
      CutAt(text, Opened(c, k), i);
      SentenceEndBounds(text, size, Visit(c.next, i));
    }
  }

  lemma SentenceRunFinished(text: string, size: nat, overlap: nat, k: nat, chunks: seq<string>)
    requires size >= 1 || text == ""
    requires Standing(SentenceChunker(text, size, overlap), text, k, |text|, chunks)
    ensures Covers(SentenceChunker(text, size, overlap), text, size, chunks)
  {
    var c := SentenceChunker(text, size, overlap);
    if text != "" {
      SentenceWindowsTile(text, size, overlap, k);
      SentenceChunksShort(text, size, overlap, k);
    } else {
      NothingOpened(c, k);
    }
    DroppingOverlapsRebuilds(text, Opened(c, k));
    assert Finished(c, text, size, k, chunks);
  }

  lemma SentenceRound(text: string, size: nat, overlap: nat, k: nat, pos: nat, chunks: seq<string>)
    requires Standing(SentenceChunker(text, size, overlap), text, k, pos, chunks) && pos < |text| && size >= 1
    ensures pos < SentenceNext(text, size, overlap, pos) <= |text|
    ensures pos <= SentenceEnd(text, size, pos) <= |text|
    ensures Standing(SentenceChunker(text, size, overlap), text, k + 1, SentenceNext(text, size, overlap, pos),
                     chunks + [text[pos..SentenceEnd(text, size, pos)]])
  {
    SentenceEndBounds(text, size, pos);
    RoundDone(SentenceChunker(text, size, overlap), text, k, pos, chunks);
  }

  /** A window ends with the text if that is in reach, else right after the last full stop in the second half of its
      reach, else at its full size. */
  ghost predicate SentenceWindow(text: string, size: nat, w: Window) {
    var reach := w.start + size;
    && w.start <= w.end
    && if reach >= |text| then w.end == |text|
       else if exists i :: w.start + size / 2 < i <= reach && text[i] == '.' then
         && w.start + size / 2 < w.end - 1 <= reach && text[w.end-1] == '.'
         && forall i :: w.end <= i <= reach ==> text[i] != '.'
       else w.end == reach
  }

  /** Each window starts `overlap` before the end of the one before it, or at that end if it would not move forward
      otherwise; the last one leaves nowhere to go on from. */
  ghost predicate SentenceWindows(text: string, size: nat, overlap: nat, ws: seq<Window>) {
    && (forall i :: 0 <= i < |ws| ==> SentenceWindow(text, size, ws[i]))
    && (forall i :: 0 <= i < |ws| - 1 ==> ws[i+1].start == SentenceFollow(ws[i], overlap) < |text|)
    && if text == "" then ws == []
       else ws != [] && ws[0].start == 0 && SentenceFollow(ws[|ws| - 1], overlap) == |text|
  }

  function SentenceFollow(w: Window, overlap: nat): nat {
    if w.start + overlap < w.end then w.end - overlap else w.end
  }

  /** The chunks are what such windows show. */
  lemma SentenceChunksByWindow(text: string, size: nat, overlap: nat, chunks: seq<string>)
    requires Covers(SentenceChunker(text, size, overlap), text, size, chunks)
    ensures exists ws :: SentenceWindows(text, size, overlap, ws) && ShownThrough(text, ws, chunks)
  {
    var c := SentenceChunker(text, size, overlap);
    var k :| Finished(c, text, size, k, chunks) && Reassembled(Opened(c, k), chunks) == text;
    WindowsShow(c, text, size, k, chunks);
    SentenceRunWindows(text, size, overlap, k);
    assert SentenceWindows(text, size, overlap, Opened(c, k));
  }

  lemma SentenceRunWindows(text: string, size: nat, overlap: nat, k: nat)
    requires RanToEnd(SentenceChunker(text, size, overlap), |text|, k)
    ensures SentenceWindows(text, size, overlap, Opened(SentenceChunker(text, size, overlap), k))
  {
    var c := SentenceChunker(text, size, overlap);
    var ws := Opened(c, k);
    var at := VisitsAre(c, |text|, k);
    forall i | 0 <= i < k
      ensures SentenceWindow(text, size, ws[i]) && at[i+1] == SentenceFollow(ws[i], overlap)
    {
      OpenedSentence(text, size, overlap, k, i);
    }
    hide *;
    SentenceWindowsAt(text, size, overlap, ws, at);
  }

  lemma SentenceWindowsAt(text: string, size: nat, overlap: nat, ws: seq<Window>, at: seq<nat>)
    requires |at| == |ws| + 1 && at[0] == 0 && at[|ws|] == |text|
    requires forall i :: 0 <= i < |ws| ==> ws[i].start == at[i] < |text| && SentenceWindow(text, size, ws[i])
    requires forall i :: 0 <= i < |ws| ==> at[i+1] == SentenceFollow(ws[i], overlap)
    ensures SentenceWindows(text, size, overlap, ws)
  {
    hide SentenceWindow, SentenceFollow;
  }

  lemma OpenedSentence(text: string, size: nat, overlap: nat, k: nat, i: nat)
    requires i < k && Visit(SentenceChunker(text, size, overlap).next, i) < |text|
    ensures var c := SentenceChunker(text, size, overlap);
            && SentenceWindow(text, size, Opened(c, k)[i])
            && Visit(c.next, i + 1) == SentenceFollow(Opened(c, k)[i], overlap)
  {
    var c := SentenceChunker(text, size, overlap);
    OpenedAt(c, k, i);
    SentenceEndIs(text, size, overlap, Visit(c.next, i));
    hide SentenceWindow, SentenceFollow, SentenceEnd, SentenceNext, Opened;
    assert Visit(c.next, i + 1) == c.next(Visit(c.next, i));
  }

  lemma SentenceEndIs(text: string, size: nat, overlap: nat, pos: nat)
    requires pos < |text|
    ensures SentenceWindow(text, size, Window(pos, SentenceEnd(text, size, pos)))
    ensures SentenceNext(text, size, overlap, pos)
         == SentenceFollow(Window(pos, SentenceEnd(text, size, pos)), overlap)
  {
  }

  /** Chunk i is the text between the ends of window i. */
  ghost predicate ShownThrough(text: string, ws: seq<Window>, chunks: seq<string>) {
    && |ws| == |chunks|
    && forall i :: 0 <= i < |ws| ==> ws[i].start <= ws[i].end <= |text| && chunks[i] == text[ws[i].start..ws[i].end]
  }

  lemma WindowsShow(c: Chunker, text: string, size: nat, k: nat, chunks: seq<string>)
    requires Finished(c, text, size, k, chunks)
    ensures ShownThrough(text, Opened(c, k), chunks)
  {
    var ws := Opened(c, k);
    forall i | 0 <= i < k
      ensures ws[i].start <= ws[i].end <= |text| && chunks[i] == text[ws[i].start..ws[i].end]
    {
      assert WindowTiles(ws, i, |text|);
      CutAt(text, ws, i);
    }
  }

  /** The windows of a run open where the loop stands. */
  lemma VisitsAre(c: Chunker, n: nat, k: nat) returns (at: seq<nat>)
    requires RanToEnd(c, n, k)
    ensures |at| == k + 1 && at[0] == 0 && at[k] == n
    ensures forall i :: 0 <= i <= k ==> at[i] == Visit(c.next, i)
    ensures forall i :: 0 <= i < k ==> Opened(c, k)[i].start == at[i] < n && at[i] < at[i+1]
  {
    at := seq(k + 1, i requires 0 <= i <= k => Visit(c.next, i));
    forall i | 0 <= i < k
      ensures Opened(c, k)[i].start == at[i] < n && at[i] < at[i+1]
    {
      OpenedAt(c, k, i);
      assert at[i+1] == c.next(Visit(c.next, i));
    }
  }

  method FindSentenceEnd(text: string, size: nat, pos: nat) returns (end: nat)
    requires pos < |text|
    ensures end == SentenceEnd(text, size, pos)
  {
    end := Min(pos + size, |text|);
    if end < |text| {
      var stop := LastAt(text, '.', end);
      if stop != -1 && stop > pos + size / 2 {
        end := stop + 1;
      }
    }
  }

  method FindSentenceNext(text: string, size: nat, overlap: nat, pos: nat, end: nat) returns (next: nat)
    requires pos < |text| && end == SentenceEnd(text, size, pos)
    ensures next == SentenceNext(text, size, overlap, pos)
  {
    next := if end > overlap then end - overlap else end;
    if next <= pos {
      next := end;
    }
  }

  method ChunkText(text: string, size: nat, overlap: nat) returns (chunks: seq<string>)
    requires size >= 1 || text == ""
    ensures Covers(SentenceChunker(text, size, overlap), text, size, chunks)
  {
    chunks := [];
    ghost var rounds := 0;
    var pos := 0;
    assert Standing(SentenceChunker(text, size, overlap), text, 0, 0, []);
    hide *;
    while pos < |text|
      invariant pos <= |text|
      invariant Standing(SentenceChunker(text, size, overlap), text, rounds, pos, chunks)
    {
      SentenceRound(text, size, overlap, rounds, pos, chunks);
      var end := FindSentenceEnd(text, size, pos);
      chunks := chunks + [text[pos..end]];
      pos := FindSentenceNext(text, size, overlap, pos, end);
      rounds := rounds + 1;
    }
    SentenceRunFinished(text, size, overlap, rounds, chunks);
  }

  // ---------------------------------------------------------------- chunk_fixed

  /** Where the window starting at `pos` ends: after the last space inside it, or at its full
      size when there is none. */
  function WordEnd(text: string, size: nat, pos: nat): (end: nat)
    requires pos < |text|
    ensures pos <= end <= |text|
  {
    var end := Min(pos + size, |text|);
    if end < |text| then
      var space := LastAt(text, ' ', end);
      if space != -1 && space > pos then space + 1 else end
    else end
  }

  function WordNext(text: string, size: nat, overlap: nat, pos: nat): nat
    requires pos < |text|
  {
    var end := WordEnd(text, size, pos);
    if overlap > 0 && end < |text| then end - Min(overlap, end - pos) else end
  }

  lemma WordEndBounds(text: string, size: nat, pos: nat)
    requires pos < |text|
    ensures pos <= WordEnd(text, size, pos) <= |text|
    ensures WordEnd(text, size, pos) <= pos + size + 1
    ensures size >= 1 ==> pos < WordEnd(text, size, pos)
    ensures size >= 2 ==> WordEnd(text, size, pos) >= pos + 2 || WordEnd(text, size, pos) == |text|
  {}

  lemma WordEndNeverRetreats(text: string, size: nat, p: nat, q: nat)
    requires p <= q < |text| && size >= 1
    ensures WordEnd(text, size, p) <= WordEnd(text, size, q)
  {
    if p < q && q + size < |text| {
      var a, b := LastAt(text, ' ', p + size), LastAt(text, ' ', q + size);
      assert a <= b;
    }
  }

  /** The rule of chunk_fixed; past the end it stays where it is. */
  ghost function WordChunker(text: string, size: nat, overlap: nat): Chunker {
    Chunker((p: nat) => if p < |text| then WordEnd(text, size, p) else p,
            (p: nat) => if p < |text| then WordNext(text, size, overlap, p) else p)
  }

  /** The window at `pos` is the last one, or longer than the overlap. */
  ghost predicate LongWindow(text: string, size: nat, overlap: nat, pos: nat)
    requires pos < |text|
  {
    var end := WordEnd(text, size, pos);
    end - pos > if end < |text| then overlap else 0
  }

  ghost predicate OpensLongWindow(text: string, size: nat, overlap: nat, k: nat) {
    var p := Visit(WordChunker(text, size, overlap).next, k);
    p < |text| ==> LongWindow(text, size, overlap, p)
  }

  lemma WordStepFacts(text: string, size: nat, overlap: nat)
    ensures NeverRetreats(WordChunker(text, size, overlap).next)
    ensures forall p: nat :: p < |text| ==>
      (WordChunker(text, size, overlap).next(p) > p <==> LongWindow(text, size, overlap, p))
  {
    forall p: nat | p < |text|
      ensures p <= WordNext(text, size, overlap, p)
      ensures WordNext(text, size, overlap, p) > p <==> LongWindow(text, size, overlap, p)
    {
      WordEndBounds(text, size, p);
    }
  }

  /** chunk_fixed ends on a text exactly when every window it opens is longer than the overlap
      (the last window only has to be non-empty). */
  lemma WordChunkingHaltsExactlyWhen(text: string, size: nat, overlap: nat)
    ensures Halts(WordChunker(text, size, overlap).next, |text|) <==>
            forall k :: OpensLongWindow(text, size, overlap, k)
  {
    var step := WordChunker(text, size, overlap).next;
    WordStepFacts(text, size, overlap);
    HaltsExactlyWhen(step, |text|);
    assert forall k :: MovesAt(step, |text|, k) <==> OpensLongWindow(text, size, overlap, k);
  }

  /** The configurations under which chunk_fixed ends on every text. */
  predicate SafeConfiguration(size: nat, overlap: nat) {
    size >= 1 && (overlap == 0 || (overlap == 1 && size >= 2))
  }

  function Letters(n: nat): (s: string)
    ensures |s| == n && forall i :: 0 <= i < n ==> s[i] == 'a'
  {
    seq(n, i => 'a')
  }

  /** A text on which an unsafe configuration never gets past the first window. */
  function StickingText(size: nat): string { "a " + Letters(size + 1) }

  lemma StickingTextSticks(size: nat, overlap: nat)
    requires !SafeConfiguration(size, overlap)
    ensures !Halts(WordChunker(StickingText(size), size, overlap).next, |StickingText(size)|)
  {
    var text := StickingText(size);
    WordChunkingHaltsExactlyWhen(text, size, overlap);
    if size == 1 && overlap == 1 {
      StickingSizeOne(text);
      assert !OpensLongWindow(text, 1, 1, 1);
    } else {
      assert text[1] == ' ' && forall i :: 1 < i < |text| ==> text[i] != ' ';
      assert size >= 1 ==> LastAt(text, ' ', size) == 1;
      assert !OpensLongWindow(text, size, overlap, 0);
    }
  }

  /** With windows and overlap of one character the loop is stuck on its second window. */
  lemma StickingSizeOne(text: string)
    requires text == StickingText(1)
    ensures !LongWindow(text, 1, 1, Visit(WordChunker(text, 1, 1).next, 1))
  {
    var step := WordChunker(text, 1, 1).next;
    assert |text| == 4 && text[0] == 'a' && text[1] == ' ' && text[2] == 'a' && text[3] == 'a';
    assert LastAt(text, ' ', 1) == 1;
    assert WordEnd(text, 1, 0) == 2;
    assert step(0) == 1;
    assert Visit(step, 0) == 0;
    assert Visit(step, 1) == 1;
    assert LastAt(text, ' ', 2) == 1;
    assert WordEnd(text, 1, 1) == 2;
  }

  /** chunk_fixed ends on every text exactly under the safe configurations.  The shipped default
      of 512 characters with an overlap of 50 is not one of them. */
  lemma EveryTextHaltsExactlyWhen(size: nat, overlap: nat)
    ensures (forall text: string :: Halts(WordChunker(text, size, overlap).next, |text|)) <==>
            SafeConfiguration(size, overlap)
    ensures !SafeConfiguration(512, 50)
  {
    if SafeConfiguration(size, overlap) {
      forall text: string ensures Halts(WordChunker(text, size, overlap).next, |text|) {
        WordChunkingHaltsExactlyWhen(text, size, overlap);
        forall p: nat | p < |text| ensures LongWindow(text, size, overlap, p) {
          WordEndBounds(text, size, p);
        }
      }
    } else {
      StickingTextSticks(size, overlap);
    }
  }

  lemma NonemptyHaltsNeedsSize(text: string, size: nat, overlap: nat)
    requires Halts(WordChunker(text, size, overlap).next, |text|) && text != ""
    ensures size >= 1
  {
    WordChunkingHaltsExactlyWhen(text, size, overlap);
    assert OpensLongWindow(text, size, overlap, 0);
  }

  lemma WordWindowsTile(text: string, size: nat, overlap: nat, k: nat)
    requires size >= 1 && RanToEnd(WordChunker(text, size, overlap), |text|, k)
    ensures Tiles(Opened(WordChunker(text, size, overlap), k), |text|)
  {
    var c := WordChunker(text, size, overlap);
    forall p: nat | p < |text| ensures p < c.endOf(p) <= |text| && p <= c.next(p) <= c.endOf(p) {
      WordEndBounds(text, size, p);
    }
    forall p: nat, q: nat | p <= q < |text| ensures c.endOf(p) <= c.endOf(q) {
      WordEndNeverRetreats(text, size, p, q);
    }
    OpenedTiles(c, |text|, k);
  }

  lemma WordChunksShort(text: string, size: nat, overlap: nat, k: nat)
    requires size >= 1 && RanToEnd(WordChunker(text, size, overlap), |text|, k)
    ensures AllShort(Cut(text, Opened(WordChunker(text, size, overlap), k)), size)
  {
    var c := WordChunker(text, size, overlap);
    forall i | 0 <= i < k ensures 0 < |Cut(text, Opened(c, k))[i]| <= size + 1 {
      OpenedAt(c, k, i);
      CutAt(text, Opened(c, k), i);
      WordEndBounds(text, size, Visit(c.next, i));
    }
  }

  /** Where the halting loop stands it moves forward. */
  lemma HaltingLoopMoves(text: string, size: nat, overlap: nat, k: nat)
    requires Halts(WordChunker(text, size, overlap).next, |text|)
    requires Visit(WordChunker(text, size, overlap).next, k) < |text|
    ensures size >= 1
    ensures var pos := Visit(WordChunker(text, size, overlap).next, k);
      && pos < WordNext(text, size, overlap, pos) <= |text|
      && Visit(WordChunker(text, size, overlap).next, k + 1) == WordNext(text, size, overlap, pos)
  {
    NonemptyHaltsNeedsSize(text, size, overlap);
    WordChunkingHaltsExactlyWhen(text, size, overlap);
    assert OpensLongWindow(text, size, overlap, k);
    assert Visit(WordChunker(text, size, overlap).next, k + 1)
        == WordChunker(text, size, overlap).next(Visit(WordChunker(text, size, overlap).next, k));
  }

  lemma WordRunFinished(text: string, size: nat, overlap: nat, k: nat, chunks: seq<string>)
    requires Halts(WordChunker(text, size, overlap).next, |text|)
    requires Standing(WordChunker(text, size, overlap), text, k, |text|, chunks)
    ensures Covers(WordChunker(text, size, overlap), text, size, chunks)
  {
    var c := WordChunker(text, size, overlap);
    if text != "" {
      NonemptyHaltsNeedsSize(text, size, overlap);
      WordWindowsTile(text, size, overlap, k);
      WordChunksShort(text, size, overlap, k);
    } else {
      NothingOpened(c, k);
    }
    DroppingOverlapsRebuilds(text, Opened(c, k));
    assert Finished(c, text, size, k, chunks);
  }

  lemma WordRound(text: string, size: nat, overlap: nat, k: nat, pos: nat, chunks: seq<string>)
    requires Halts(WordChunker(text, size, overlap).next, |text|)
    requires Standing(WordChunker(text, size, overlap), text, k, pos, chunks) && pos < |text|
    ensures pos < WordNext(text, size, overlap, pos) <= |text|
    ensures Standing(WordChunker(text, size, overlap), text, k + 1, WordNext(text, size, overlap, pos),
                     chunks + [text[pos..WordEnd(text, size, pos)]])
  {
    HaltingLoopMoves(text, size, overlap, k);
    RoundDone(WordChunker(text, size, overlap), text, k, pos, chunks);
  }

  /** A window ends with the text if that is in reach, else right after the last space within its reach, else at its
      full size. */
  ghost predicate WordWindow(text: string, size: nat, w: Window) {
    var reach := w.start + size;
    && w.start <= w.end
    && if reach >= |text| then w.end == |text|
       else if exists i :: w.start < i <= reach && text[i] == ' ' then
         && w.start < w.end - 1 <= reach && text[w.end-1] == ' '
         && forall i :: w.end <= i <= reach ==> text[i] != ' '
       else w.end == reach
  }

  /** Each window starts `overlap` before the end of the one before it, and the last one ends with the text. */
  ghost predicate WordWindows(text: string, size: nat, overlap: nat, ws: seq<Window>) {
    && (forall i :: 0 <= i < |ws| ==> WordWindow(text, size, ws[i]))
    && (forall i :: 0 <= i < |ws| - 1 ==>
                      ws[i].start + overlap < ws[i].end < |text| && ws[i+1].start == ws[i].end - overlap)
    && if text == "" then ws == [] else ws != [] && ws[0].start == 0 && ws[|ws| - 1].end == |text|
  }

  /** The chunks are what such windows show. */
  lemma WordChunksByWindow(text: string, size: nat, overlap: nat, chunks: seq<string>)
    requires Covers(WordChunker(text, size, overlap), text, size, chunks)
    ensures exists ws :: WordWindows(text, size, overlap, ws) && ShownThrough(text, ws, chunks)
  {
    var c := WordChunker(text, size, overlap);
    var k :| Finished(c, text, size, k, chunks) && Reassembled(Opened(c, k), chunks) == text;
    WindowsShow(c, text, size, k, chunks);
    WordRunWindows(text, size, overlap, k);
    assert WordWindows(text, size, overlap, Opened(c, k));
  }

  lemma WordRunWindows(text: string, size: nat, overlap: nat, k: nat)
    requires RanToEnd(WordChunker(text, size, overlap), |text|, k)
    ensures WordWindows(text, size, overlap, Opened(WordChunker(text, size, overlap), k))
  {
    var c := WordChunker(text, size, overlap);
    var ws := Opened(c, k);
    var at := VisitsAre(c, |text|, k);
    forall i | 0 <= i < k
      ensures WordWindow(text, size, ws[i]) && WordFollows(text, overlap, ws[i], at[i+1])
    {
      assert at[i] < at[i+1] && at[i+1] == Visit(c.next, i + 1);
      OpenedWord(text, size, overlap, k, i);
    }
    hide *;
    WordWindowsAt(text, size, overlap, ws, at);
  }

  /** Where the loop goes on after a window. */
  ghost predicate WordFollows(text: string, overlap: nat, w: Window, next: nat) {
    && w.end <= |text|
    && if w.end < |text| then w.start + overlap < w.end && next == w.end - overlap else next == |text|
  }

  lemma WordWindowsAt(text: string, size: nat, overlap: nat, ws: seq<Window>, at: seq<nat>)
    requires |at| == |ws| + 1 && at[0] == 0 && at[|ws|] == |text|
    requires forall i :: 0 <= i < |ws| ==> ws[i].start == at[i] < |text| && WordWindow(text, size, ws[i])
    requires forall i :: 0 <= i < |ws| ==> WordFollows(text, overlap, ws[i], at[i+1])
    ensures WordWindows(text, size, overlap, ws)
  {
    hide WordWindow;
  }

  lemma OpenedWord(text: string, size: nat, overlap: nat, k: nat, i: nat)
    requires i < k && Visit(WordChunker(text, size, overlap).next, i) < |text|
    requires var next := WordChunker(text, size, overlap).next; Visit(next, i) < next(Visit(next, i))
    ensures var c := WordChunker(text, size, overlap);
            var w := Opened(c, k)[i];
            WordWindow(text, size, w) && WordFollows(text, overlap, w, Visit(c.next, i + 1))
  {
    var c := WordChunker(text, size, overlap);
    OpenedAt(c, k, i);
    WordEndIs(text, size, overlap, Visit(c.next, i));
    hide WordWindow, WordEnd, WordNext, Opened;
    assert Visit(c.next, i + 1) == c.next(Visit(c.next, i));
  }

  lemma WordEndIs(text: string, size: nat, overlap: nat, pos: nat)
    requires pos < |text|
    ensures var end := WordEnd(text, size, pos);
            && WordWindow(text, size, Window(pos, end))
            && (WordNext(text, size, overlap, pos) > pos ==>
                  if end < |text| then pos + overlap < end && WordNext(text, size, overlap, pos) == end - overlap
                  else WordNext(text, size, overlap, pos) == |text|)
  {
  }

  method FindWordEnd(text: string, size: nat, pos: nat) returns (end: nat)
    requires pos < |text|
    ensures end == WordEnd(text, size, pos)
  {
    end := Min(pos + size, |text|);
    if end < |text| {
      var space := LastAt(text, ' ', end);
      if space != -1 && space > pos {
        end := space + 1;
      }
    }
  }

  method FindWordNext(text: string, size: nat, overlap: nat, pos: nat, end: nat) returns (next: nat)
    requires pos < |text| && end == WordEnd(text, size, pos)
    ensures next == WordNext(text, size, overlap, pos)
  {
    if overlap > 0 && end < |text| {
      next := end - Min(overlap, end - pos);
    } else {
      next := end;
    }
  }

  method ChunkFixed(text: string, size: nat, overlap: nat) returns (chunks: seq<string>)
    requires Halts(WordChunker(text, size, overlap).next, |text|)
    ensures Covers(WordChunker(text, size, overlap), text, size, chunks)
  {
    chunks := [];
    ghost var rounds := 0;
    var pos := 0;
    assert Standing(WordChunker(text, size, overlap), text, 0, 0, []);
    hide *;
    while pos < |text|
      invariant pos <= |text|
      invariant Standing(WordChunker(text, size, overlap), text, rounds, pos, chunks)
    {
      WordRound(text, size, overlap, rounds, pos, chunks);
      var end := FindWordEnd(text, size, pos);
      chunks := chunks + [text[pos..end]];
      pos := FindWordNext(text, size, overlap, pos, end);
      rounds := rounds + 1;
    }
    WordRunFinished(text, size, overlap, rounds, chunks);
  }
}
