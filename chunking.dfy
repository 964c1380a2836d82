/** The sliding-window chunker of the knowledge base
    (`ClinicalKnowledgeBase._sliding_window_chunking`). */
module Chunking {
  import opened Text

  /** The default window size and overlap of the chunker. */
  const WINDOW_SIZE: nat := 1000
  const OVERLAP: nat := 200

  /** A window is kept only when it is strictly longer than this. */
  const MIN_CHUNK_LENGTH: nat := 50

  function Min(a: int, b: int): int {
    if a <= b then a else b
  }

  /** Python's `text[start:start + w]` for `start <= len(text)`. */
  function Window(text: string, start: nat, w: nat): (r: string)
    requires start <= |text|
    ensures |r| == Min(w, |text| - start)
  {
    text[start..Min(start + w, |text|)]
  }

  /** The windows the loop keeps when it reaches offset `start`. */
  function WindowsFrom(text: string, w: nat, step: nat, start: nat): seq<string>
    requires step > 0
    decreases |text| - start
  {
    if start >= |text| then []
    else
      var chunk := Window(text, start, w);
      (if |chunk| > MIN_CHUNK_LENGTH then [chunk] else []) + WindowsFrom(text, w, step, start + step)
  }

  /** What `_sliding_window_chunking(text, windowSize, overlap)` returns. */
  function SlidingWindows(text: string, windowSize: nat, overlap: nat): seq<string>
    requires overlap < windowSize
  {
    WindowsFrom(NormalizeWhitespace(text), windowSize, windowSize - overlap, 0)
  }

  /** The chunker: normalise whitespace, then step a start offset by
      `windowSize - overlap` and keep every window longer than 50 characters. */
  method SlidingWindowChunking(text: string, windowSize: nat, overlap: nat) returns (chunks: seq<string>)
    requires overlap < windowSize
    ensures chunks == SlidingWindows(text, windowSize, overlap)
  {
    var norm := NormalizeWhitespace(text);
    chunks := WindowLoop(norm, windowSize, overlap);
  }

  /** The loop of the chunker over the normalised text. */
  method WindowLoop(norm: string, windowSize: nat, overlap: nat) returns (chunks: seq<string>)
    requires overlap < windowSize
    ensures chunks == WindowsFrom(norm, windowSize, windowSize - overlap, 0)
  {
    ghost var step := windowSize - overlap;
    chunks := [];
    var start := 0;
    var textLen := |norm|;
    while start < textLen
      invariant chunks + WindowsFrom(norm, windowSize, step, start) == WindowsFrom(norm, windowSize, step, 0)
      decreases textLen - start
    {
      var end := start + windowSize;
      var chunk := norm[start..Min(end, textLen)];
      Unfold(norm, windowSize, step, start);
      assert chunk == Window(norm, start, windowSize);
      ghost var rest := WindowsFrom(norm, windowSize, step, start + step);
      if |chunk| > MIN_CHUNK_LENGTH {
        assert chunks + ([chunk] + rest) == (chunks + [chunk]) + rest;
        chunks := chunks + [chunk];
      } else {
        assert WindowsFrom(norm, windowSize, step, start) == rest;
      }
      start := start + (windowSize - overlap);
    }
  }

  // ---------------------------------------------------------------------------
  // What the kept windows are
  // ---------------------------------------------------------------------------

  /** The offset of the `j`-th window. */
  function StartOf(j: nat, step: nat): nat {
    j * step
  }

  /** Once a window is too short, every later one is too: nothing more is kept. */
  lemma {:induction false} DroppedTail(text: string, w: nat, step: nat, start: nat)
    requires step > 0
    requires start < |text| && Min(w, |text| - start) <= MIN_CHUNK_LENGTH
    ensures WindowsFrom(text, w, step, start) == []
    decreases |text| - start
  {
    if start + step < |text| {
      DroppedTail(text, w, step, start + step);
    }
  }

  /** Chunk `j` counted from the `m`-th window is the `(m + j)`-th window. */
  lemma {:induction false} WindowsFromAt(text: string, w: nat, step: nat, m: nat, j: nat)
    requires step > 0
    requires j < |WindowsFrom(text, w, step, StartOf(m, step))|
    ensures StartOf(m + j, step) < |text|
    ensures Min(w, |text| - StartOf(m + j, step)) > MIN_CHUNK_LENGTH
    ensures WindowsFrom(text, w, step, StartOf(m, step))[j] == Window(text, StartOf(m + j, step), w)
    decreases j
  {
    var s := StartOf(m, step);
    assert s < |text|;
    if Min(w, |text| - s) <= MIN_CHUNK_LENGTH {
      DroppedTail(text, w, step, s);
      assert false;
    }
    assert StartOf(m + 1, step) == s + step;
    assert WindowsFrom(text, w, step, s) == [Window(text, s, w)] + WindowsFrom(text, w, step, StartOf(m + 1, step));
    if j > 0 {
      WindowsFromAt(text, w, step, m + 1, j - 1);
      assert m + 1 + (j - 1) == m + j;
    }
  }

  /** Every window from the `m`-th to a kept `j`-th one is kept. */
  lemma {:induction false} WindowsFromComplete(text: string, w: nat, step: nat, m: nat, j: nat)
    requires step > 0 && m <= j
    requires StartOf(j, step) < |text| && Min(w, |text| - StartOf(j, step)) > MIN_CHUNK_LENGTH
    ensures j - m < |WindowsFrom(text, w, step, StartOf(m, step))|
    decreases j - m
  {
    var s := StartOf(m, step);
    StartMonotone(m, j, step);
    StartNext(m, step);
    Unfold(text, w, step, s);
    if m < j {
      WindowsFromComplete(text, w, step, m + 1, j);
    }
  }

  /** The output characterised without the loop: chunk `j` is the window at
      `j * step`, and the chunks are exactly the windows at `0, step, 2 * step,
      ...` below the text length that are longer than 50 characters. */
  lemma WindowsExactly(text: string, w: nat, step: nat)
    requires step > 0
    ensures var cs := WindowsFrom(text, w, step, 0);
      && (forall j :: 0 <= j < |cs| ==>
            StartOf(j, step) < |text| && cs[j] == Window(text, StartOf(j, step), w))
      && (forall j: nat :: StartOf(j, step) < |text| && Min(w, |text| - StartOf(j, step)) > MIN_CHUNK_LENGTH
            ==> j < |cs|)
  {
    var cs := WindowsFrom(text, w, step, 0);
    assert StartOf(0, step) == 0;
    forall j | 0 <= j < |cs|
      ensures StartOf(j, step) < |text| && cs[j] == Window(text, StartOf(j, step), w)
    {
      WindowsFromAt(text, w, step, 0, j);
    }
    forall j: nat | StartOf(j, step) < |text| && Min(w, |text| - StartOf(j, step)) > MIN_CHUNK_LENGTH
      ensures j < |cs|
    {
      WindowsFromComplete(text, w, step, 0, j);
    }
  }

  /** Chunk `j` of the chunker's output is the normalised text's window at
      `j * (windowSize - overlap)`; a window is in the output exactly when it
      starts inside the text and is longer than 50 characters. */
  lemma ChunksAreWindows(text: string, windowSize: nat, overlap: nat)
    requires overlap < windowSize
    ensures var norm, cs, step := NormalizeWhitespace(text), SlidingWindows(text, windowSize, overlap), windowSize - overlap;
      && (forall j :: 0 <= j < |cs| ==>
            StartOf(j, step) < |norm| && cs[j] == norm[StartOf(j, step)..Min(StartOf(j, step) + windowSize, |norm|)])
      && (forall j: nat :: StartOf(j, step) < |norm| && Min(windowSize, |norm| - StartOf(j, step)) > MIN_CHUNK_LENGTH
            ==> j < |cs|)
  {
    WindowsExactly(NormalizeWhitespace(text), windowSize, windowSize - overlap);
  }

  /** Every chunk is longer than 50 characters and at most one window long. */
  lemma {:induction false} WindowLengths(text: string, w: nat, step: nat, start: nat)
    requires step > 0
    ensures forall c :: c in WindowsFrom(text, w, step, start) ==> MIN_CHUNK_LENGTH < |c| <= w
    decreases |text| - start
  {
    if start < |text| {
      WindowLengths(text, w, step, start + step);
    }
  }

  lemma ChunkLengths(text: string, windowSize: nat, overlap: nat)
    requires overlap < windowSize
    ensures forall c :: c in SlidingWindows(text, windowSize, overlap) ==>
              MIN_CHUNK_LENGTH < |c| <= windowSize
  {
    WindowLengths(NormalizeWhitespace(text), windowSize, windowSize - overlap, 0);
  }

  /** One iteration of the loop, as an equation. */
  lemma Unfold(text: string, w: nat, step: nat, start: nat)
    requires step > 0 && start < |text|
    ensures WindowsFrom(text, w, step, start) ==
      (if Min(w, |text| - start) > MIN_CHUNK_LENGTH then [Window(text, start, w)] else [])
      + WindowsFrom(text, w, step, start + step)
  {
  }

  /** Normalised text of at most 50 characters yields no chunk. */
  lemma ShortTextNoChunk(text: string, windowSize: nat, overlap: nat)
    requires overlap < windowSize
    requires |NormalizeWhitespace(text)| <= MIN_CHUNK_LENGTH
    ensures SlidingWindows(text, windowSize, overlap) == []
  {
    var norm := NormalizeWhitespace(text);
    if norm != [] {
      DroppedTail(norm, windowSize, windowSize - overlap, 0);
    }
  }

  lemma {:induction false} SingleWindow(norm: string, w: nat, step: nat)
    requires 0 < step
    requires MIN_CHUNK_LENGTH < |norm| <= w && |norm| <= step + MIN_CHUNK_LENGTH
    ensures WindowsFrom(norm, w, step, 0) == [norm]
  {
    Unfold(norm, w, step, 0);
    assert Window(norm, 0, w) == norm;
    if step < |norm| {
      DroppedTail(norm, w, step, step);
    }
  }

  /** Normalised text longer than 50 characters that fits in one window and
      ends within 50 characters after the second window's start yields exactly
      one chunk, the normalised text itself. */
  lemma SingleChunk(text: string, windowSize: nat, overlap: nat)
    requires overlap < windowSize
    requires var n := |NormalizeWhitespace(text)|;
      MIN_CHUNK_LENGTH < n <= windowSize && n <= (windowSize - overlap) + MIN_CHUNK_LENGTH
    ensures SlidingWindows(text, windowSize, overlap) == [NormalizeWhitespace(text)]
  {
    SingleWindow(NormalizeWhitespace(text), windowSize, windowSize - overlap);
  }

  lemma {:induction false} TwoWindows(norm: string)
    requires 800 + MIN_CHUNK_LENGTH < |norm| <= WINDOW_SIZE
    ensures WindowsFrom(norm, WINDOW_SIZE, 800, 0) == [norm, norm[800..]]
  {
    Unfold(norm, WINDOW_SIZE, 800, 0);
    Unfold(norm, WINDOW_SIZE, 800, 800);
    assert Window(norm, 0, WINDOW_SIZE) == norm;
    assert Window(norm, 800, WINDOW_SIZE) == norm[800..];
  }

  /** With the default settings, a normalised text of 851 to 1000 characters
      fits in one window yet yields two chunks: the whole text and again its
      part from offset 800 on. */
  lemma OneWindowTwoChunks(text: string)
    requires 800 + MIN_CHUNK_LENGTH < |NormalizeWhitespace(text)| <= WINDOW_SIZE
    ensures var norm := NormalizeWhitespace(text);
      SlidingWindows(text, WINDOW_SIZE, OVERLAP) == [norm, norm[800..]]
  {
    TwoWindows(NormalizeWhitespace(text));
  }

  lemma StartNext(j: nat, step: nat)
    ensures StartOf(j + 1, step) == StartOf(j, step) + step
  {
  }

  lemma {:induction false} StartMonotone(m: nat, j: nat, step: nat)
    requires m <= j
    ensures StartOf(m, step) <= StartOf(j, step)
    decreases j - m
  {
    if m < j {
      StartNext(m, step);
      StartMonotone(m + 1, j, step);
    }
  }

  lemma {:induction false} OverlapSharedWindows(norm: string, w: nat, step: nat, j: nat)
    requires 0 < step <= w
    requires j + 1 < |WindowsFrom(norm, w, step, 0)|
    requires |WindowsFrom(norm, w, step, 0)[j]| == w
    ensures var cs := WindowsFrom(norm, w, step, 0);
      w - step <= |cs[j + 1]| && cs[j][step..] == cs[j + 1][..w - step]
  {
    var cs := WindowsFrom(norm, w, step, 0);
    WindowsFromAt(norm, w, step, 0, j);
    WindowsFromAt(norm, w, step, 0, j + 1);
    assert StartOf(0, step) == 0;
    var s := StartOf(j, step);
    StartNext(j, step);
    assert cs[j] == norm[s..s + w];
    assert cs[j + 1] == norm[s + step..Min(s + step + w, |norm|)];
    assert cs[j][step..] == norm[s + step..s + w];
  }

  /** Two consecutive chunks of which the first is a full window share
      `overlap` characters: the last `overlap` of the first are the first
      `overlap` of the second. */
  lemma OverlapShared(text: string, windowSize: nat, overlap: nat, j: nat)
    requires overlap < windowSize
    requires j + 1 < |SlidingWindows(text, windowSize, overlap)|
    requires |SlidingWindows(text, windowSize, overlap)[j]| == windowSize
    ensures var cs := SlidingWindows(text, windowSize, overlap);
      overlap <= |cs[j + 1]| && cs[j][windowSize - overlap..] == cs[j + 1][..overlap]
  {
    OverlapSharedWindows(NormalizeWhitespace(text), windowSize, windowSize - overlap, j);
  }

  lemma DivBounds(a: nat, step: nat)
    requires step > 0
    ensures StartOf(a / step, step) <= a < StartOf(a / step, step) + step
  {
    assert (a / step) * step + a % step == a;
  }

  /** The window that holds a passage `[a, b)` no longer than the overlap:
      the one whose step contains `a`, or the one before it when that one is
      the dropped short tail. */
  lemma ChooseWindow(n: nat, w: nat, step: nat, a: nat, b: nat) returns (j: nat)
    requires MIN_CHUNK_LENGTH <= step && MIN_CHUNK_LENGTH + step <= w
    requires MIN_CHUNK_LENGTH < n && a < b <= n && b - a <= w - step
    ensures StartOf(j, step) <= a && b <= Min(StartOf(j, step) + w, n)
    ensures StartOf(j, step) < n && Min(w, n - StartOf(j, step)) > MIN_CHUNK_LENGTH
  {
    var k := a / step;
    DivBounds(a, step);
    if Min(w, n - StartOf(k, step)) > MIN_CHUNK_LENGTH {
      j := k;
    } else {
      j := k - 1;
      StartNext(j, step);
    }
  }

  /** A passage inside `[s, e)` of `norm` occurs in the slice `norm[s..e]`. */
  lemma PassageInSlice(norm: string, s: nat, e: nat, a: nat, b: nat)
    requires s <= a < b <= e <= |norm|
    ensures OccursAt(norm[s..e], norm[a..b], a - s)
  {
    var c := norm[s..e];
    forall i | 0 <= i < b - a
      ensures c[a - s..b - s][i] == norm[a..b][i]
    {
      assert c[a - s + i] == norm[s + (a - s + i)];
    }
    assert c[a - s..b - s] == norm[a..b];
  }

  lemma PassageInSomeWindow(norm: string, w: nat, step: nat, a: nat, b: nat) returns (j: nat)
    requires MIN_CHUNK_LENGTH <= step && MIN_CHUNK_LENGTH + step <= w
    requires MIN_CHUNK_LENGTH < |norm| && a < b <= |norm| && b - a <= w - step
    ensures var cs := WindowsFrom(norm, w, step, 0);
      j < |cs| && Contains(cs[j], norm[a..b])
  {
    var cs := WindowsFrom(norm, w, step, 0);
    j := ChooseWindow(|norm|, w, step, a, b);
    var s := StartOf(j, step);
    var e := Min(s + w, |norm|);
    assert StartOf(0, step) == 0;
    assert j < |cs| by {
      WindowsFromComplete(norm, w, step, 0, j);
    }
    assert cs[j] == norm[s..e] by {
      WindowsFromAt(norm, w, step, 0, j);
    }
    PassageInSlice(norm, s, e, a, b);
  }

  /** No boundary fact is lost: with the defaults' proportions (an overlap of
      at least 50 characters and a step of at least 50), every passage of the
      normalised text no longer than the overlap lies whole inside one chunk. */
  lemma PassageInSomeChunk(text: string, windowSize: nat, overlap: nat, a: nat, b: nat)
    requires MIN_CHUNK_LENGTH <= overlap && overlap + MIN_CHUNK_LENGTH <= windowSize
    requires var norm := NormalizeWhitespace(text);
      MIN_CHUNK_LENGTH < |norm| && a < b <= |norm| && b - a <= overlap
    ensures var norm, cs := NormalizeWhitespace(text), SlidingWindows(text, windowSize, overlap);
      exists j :: 0 <= j < |cs| && Contains(cs[j], norm[a..b])
  {
    var norm, cs := NormalizeWhitespace(text), SlidingWindows(text, windowSize, overlap);
    var j := PassageInSomeWindow(norm, windowSize, windowSize - overlap, a, b);
    assert Contains(cs[j], norm[a..b]);
  }

  // ---------------------------------------------------------------------------
  // Worked cases
  // ---------------------------------------------------------------------------

  lemma FourWindows(norm: string, w: nat, step: nat)
    requires 0 < step && 3 * step < |norm| <= 4 * step && Min(w, |norm| - 3 * step) > MIN_CHUNK_LENGTH
    ensures WindowsFrom(norm, w, step, 0) ==
      [Window(norm, 0, w), Window(norm, step, w), Window(norm, 2 * step, w), Window(norm, 3 * step, w)]
  {
    Unfold(norm, w, step, 0);
    Unfold(norm, w, step, step);
    Unfold(norm, w, step, 2 * step);
    Unfold(norm, w, step, 3 * step);
  }

  /** With the defaults, a 2500-character page gives four chunks, at offsets
      0, 800, 1600 and 2400; the last is 100 characters long. */
  lemma DefaultPageOf2500(text: string)
    requires |NormalizeWhitespace(text)| == 2500
    ensures var norm, cs := NormalizeWhitespace(text), SlidingWindows(text, WINDOW_SIZE, OVERLAP);
      && cs == [norm[0..1000], norm[800..1800], norm[1600..2500], norm[2400..2500]]
      && |cs[3]| == 100
  {
    FourWindows(NormalizeWhitespace(text), 1000, 800);
  }

  /** With a window of 1000 and an overlap of 300, a 2500-character page gives
      four chunks, at offsets 0, 700, 1400 and 2100; the last is 400 long. */
  lemma OverlapOf300PageOf2500(text: string)
    requires |NormalizeWhitespace(text)| == 2500
    ensures var norm, cs := NormalizeWhitespace(text), SlidingWindows(text, 1000, 300);
      && cs == [norm[0..1000], norm[700..1700], norm[1400..2400], norm[2100..2500]]
      && |cs[3]| == 400
  {
    FourWindows(NormalizeWhitespace(text), 1000, 700);
  }
}
