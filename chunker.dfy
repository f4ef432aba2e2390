/**
 * `chunk_text` of src/utils.py: cuts a text into overlapping windows of at most
 * `chunkSize` characters, preferring to cut after a '.' or at a ' ' that lies past
 * the middle of the window, strips each piece and drops the blank ones, and starts
 * the next window `overlap` characters before the end of the previous one.
 */
module Chunker {
  import opened Wrappers
  import opened Text

  /** One window of the loop: the text is cut at [start, end), clamped to the text. */
  datatype Window = Window(start: nat, end: nat)

  /** Some `c` lies in s at an index strictly between `mid` and `hi`. */
  predicate OccursAfter(s: string, c: char, mid: int, hi: nat)
    requires hi <= |s|
  {
    exists i :: mid < i < hi && 0 <= i && s[i] == c
  }

  /**
   * Where the window that begins at `start` ends (lines 37-46 of the loop):
   * after the last '.' past the midpoint, else at the last ' ' past the midpoint,
   * else `chunkSize` characters on; a window that reaches the end of the text is
   * never shortened.
   */
  function CutPoint(text: string, chunkSize: int, start: nat): (end: nat)
    requires 1 <= chunkSize && start < |text|
    ensures start + chunkSize / 2 < end <= start + chunkSize
    ensures |text| <= start + chunkSize ==> end == start + chunkSize
  {
    var end := start + chunkSize;
    if end < |text| then
      var sentenceEnd := RFind(text, '.', start, end);
      if sentenceEnd > start + chunkSize / 2 then sentenceEnd + 1
      else
        var wordEnd := RFind(text, ' ', start, end);
        if wordEnd > start + chunkSize / 2 then wordEnd else end
    else end
  }

  /**
   * The cut rule: after the last '.' past the midpoint if there is one, else at the
   * last ' ' past the midpoint if there is one, else a full window.
   */
  lemma CutPointCases(text: string, chunkSize: int, start: nat)
    requires 1 <= chunkSize && start < |text|
    ensures var end := CutPoint(text, chunkSize, start); var mid, hi := start + chunkSize / 2, start + chunkSize;
      && (hi < |text| && OccursAfter(text, '.', mid, hi) ==>
            mid < end - 1 < hi && text[end - 1] == '.' && !OccursAfter(text, '.', end - 1, hi))
      && (hi < |text| && !OccursAfter(text, '.', mid, hi) && OccursAfter(text, ' ', mid, hi) ==>
            mid < end < hi && text[end] == ' ' && !OccursAfter(text, ' ', end, hi))
      && (hi < |text| && !OccursAfter(text, '.', mid, hi) && !OccursAfter(text, ' ', mid, hi) ==>
            end == hi)
  {
    var hi := start + chunkSize;
    if hi < |text| {
      RFindIsLast(text, '.', start, hi);
      RFindIsLast(text, ' ', start, hi);
    }
  }

  /**
   * The windows the loop visits from `start` on: each begins `overlap` before the end
   * of the previous one, and the loop stops after the first window whose end minus
   * `overlap` reaches the end of the text.
   */
  function WindowsFrom(text: string, chunkSize: int, overlap: int, start: nat): (ws: seq<Window>)
    requires 1 <= chunkSize && overlap <= chunkSize / 2 && start < |text|
    ensures |ws| >= 1 && ws[0] == Window(start, CutPoint(text, chunkSize, start))
    decreases |text| - start
  {
    var end := CutPoint(text, chunkSize, start);
    if end - overlap >= |text| then [Window(start, end)]
    else [Window(start, end)] + WindowsFrom(text, chunkSize, overlap, end - overlap)
  }

  /** Python's `text[w.start:w.end]`: both bounds are clamped to the text, and a reversed range is empty. */
  function Slice(text: string, w: Window): string {
    var lo, hi := Min(w.start, |text|), Min(w.end, |text|);
    if lo <= hi then text[lo..hi] else ""
  }

  /** The stripped slices of the windows, blank ones dropped (lines 48-49). */
  function Pieces(text: string, ws: seq<Window>): seq<string> {
    if ws == [] then []
    else
      var piece := Strip(Slice(text, ws[0]));
      (if piece == "" then [] else [piece]) + Pieces(text, ws[1..])
  }

  /** What `chunk_text(text, chunkSize, overlap)` returns. */
  function Chunking(text: string, chunkSize: int, overlap: int): seq<string>
    requires |text| <= chunkSize || (1 <= chunkSize && overlap <= chunkSize / 2)
  {
    if |text| <= chunkSize then [text]
    else Pieces(text, WindowsFrom(text, chunkSize, overlap, 0))
  }

  lemma PiecesCons(text: string, ws: seq<Window>)
    requires ws != []
    ensures var piece := Strip(Slice(text, ws[0]));
      Pieces(text, ws) == (if piece == "" then [] else [piece]) + Pieces(text, ws[1..])
  {
  }

  lemma SliceInside(text: string, w: Window)
    requires w.start < |text| && w.start < w.end
    ensures Slice(text, w) == text[w.start..Min(w.end, |text|)]
  {
  }

  lemma WindowsFromUnfold(text: string, chunkSize: int, overlap: int, start: nat)
    requires 1 <= chunkSize && overlap <= chunkSize / 2 && start < |text|
    ensures var end := CutPoint(text, chunkSize, start);
      var ws := WindowsFrom(text, chunkSize, overlap, start);
      && ws[0] == Window(start, end)
      && (end - overlap >= |text| ==> ws[1..] == [])
      && (end - overlap < |text| ==> ws[1..] == WindowsFrom(text, chunkSize, overlap, end - overlap))
  {
  }

  /**
   * Every window starts inside the text, at or after `start`, and ends at the cut
   * point of its start; only the last one lets the loop stop.
   */
  lemma {:induction false} WindowsCut(text: string, chunkSize: int, overlap: int, start: nat, ws: seq<Window>)
    requires 1 <= chunkSize && overlap <= chunkSize / 2 && start < |text|
    requires ws == WindowsFrom(text, chunkSize, overlap, start)
    ensures forall k :: 0 <= k < |ws| ==>
      && start <= ws[k].start < |text|
      && ws[k].end == CutPoint(text, chunkSize, ws[k].start)
      && (k < |ws| - 1 <==> ws[k].end - overlap < |text|)
    decreases |text| - start
  {
    var end := CutPoint(text, chunkSize, start);
    WindowsFromUnfold(text, chunkSize, overlap, start);
    if end - overlap < |text| {
      var rest := WindowsFrom(text, chunkSize, overlap, end - overlap);
      WindowsCut(text, chunkSize, overlap, end - overlap, rest);
      forall k | 1 <= k < |ws|
        ensures start <= ws[k].start < |text|
        ensures ws[k].end == CutPoint(text, chunkSize, ws[k].start)
        ensures k < |ws| - 1 <==> ws[k].end - overlap < |text|
      {
        assert ws[k] == rest[k - 1];
      }
    }
  }

  /** Each window after the first begins `overlap` characters before the end of the one before it. */
  lemma {:induction false} WindowsOverlap(text: string, chunkSize: int, overlap: int, start: nat, ws: seq<Window>)
    requires 1 <= chunkSize && overlap <= chunkSize / 2 && start < |text|
    requires ws == WindowsFrom(text, chunkSize, overlap, start)
    ensures forall j, k {:trigger ws[j], ws[k]} :: 0 <= j < k < |ws| && k == j + 1 ==>
      ws[k].start == ws[j].end - overlap
    decreases |text| - start
  {
    var end := CutPoint(text, chunkSize, start);
    WindowsFromUnfold(text, chunkSize, overlap, start);
    if end - overlap < |text| {
      var rest := WindowsFrom(text, chunkSize, overlap, end - overlap);
      WindowsOverlap(text, chunkSize, overlap, end - overlap, rest);
      forall j, k | 0 <= j < k < |ws| && k == j + 1
        ensures ws[k].start == ws[j].end - overlap
      {
        assert ws[k] == rest[k - 1];
        if j > 0 {
          assert ws[j] == rest[j - 1];
        }
      }
    }
  }

  /**
   * Under `0 <= overlap <= chunkSize / 2` each next start is past the previous one
   * and no later than the previous end, so the loop advances and leaves no gap.
   */
  lemma StartsAdvance(text: string, chunkSize: int, overlap: int, ws: seq<Window>)
    requires 1 <= chunkSize && 0 <= overlap <= chunkSize / 2 && 0 < |text|
    requires ws == WindowsFrom(text, chunkSize, overlap, 0)
    ensures forall j, k {:trigger ws[j], ws[k]} :: 0 <= j < k < |ws| && k == j + 1 ==>
      ws[j].start < ws[k].start <= ws[j].end
  {
    WindowsCut(text, chunkSize, overlap, 0, ws);
    WindowsOverlap(text, chunkSize, overlap, 0, ws);
  }

  /** Appending a kept piece to what is done moves it from the pieces still to come. */
  lemma KeepPiece(done: seq<string>, chunk: string, later: seq<string>)
    ensures (if chunk == "" then done else done + [chunk]) + later
      == done + ((if chunk == "" then [] else [chunk]) + later)
  {
  }

  /**
   * `chunk_text`, as the loop of src/utils.py runs it. Its precondition is what the
   * loop needs to stop: a text that fits is returned whole; otherwise every window
   * must end past its start plus `overlap`.
   */
  method ChunkText(text: string, chunkSize: int, overlap: int) returns (chunks: seq<string>)
    requires |text| <= chunkSize || (1 <= chunkSize && overlap <= chunkSize / 2)
    ensures chunks == Chunking(text, chunkSize, overlap)
    ensures |text| <= chunkSize ==> chunks == [text]
  {
    if |text| <= chunkSize {
      return [text];
    }
    ghost var ws := WindowsFrom(text, chunkSize, overlap, 0);
    chunks := [];
    var start := 0;
    ghost var i := 0;
    while start < |text|
      invariant 0 <= i < |ws| && ws[i].start == start < |text|
      invariant chunks + Pieces(text, ws[i..]) == Pieces(text, ws)
      decreases |ws| - i
    {
      WindowAt(text, chunkSize, overlap, ws, i);
      var end := CutPoint(text, chunkSize, start);
      var chunk := Strip(text[start..Min(end, |text|)]);
      ChunkStep(text, ws, i, chunks, chunk);
      if chunk != "" {
        chunks := chunks + [chunk];
      }
      start := end - overlap;
      if start >= |text| {
        assert ws[i + 1..] == [];
        break;
      }
      i := i + 1;
    }
  }

  /**
   * Window `i` lies in the text and ends at the cut point of its start; the next window,
   * if any, starts `overlap` before that end.
   */
  lemma WindowAt(text: string, chunkSize: int, overlap: int, ws: seq<Window>, i: nat)
    requires 1 <= chunkSize && overlap <= chunkSize / 2 && 0 < |text|
    requires ws == WindowsFrom(text, chunkSize, overlap, 0) && i < |ws|
    ensures ws[i].start < |text| && ws[i].end == CutPoint(text, chunkSize, ws[i].start)
    ensures Slice(text, ws[i]) == text[ws[i].start..Min(ws[i].end, |text|)]
    ensures var next := ws[i].end - overlap;
      if next >= |text| then i + 1 == |ws| else i + 1 < |ws| && ws[i + 1].start == next
  {
    WindowsCut(text, chunkSize, overlap, 0, ws);
    WindowsOverlap(text, chunkSize, overlap, 0, ws);
    SliceInside(text, ws[i]);
  }

  /** One turn of the loop: the piece of window `i`, if not blank, joins the chunks. */
  lemma ChunkStep(text: string, ws: seq<Window>, i: nat, chunks: seq<string>, chunk: string)
    requires i < |ws| && chunks + Pieces(text, ws[i..]) == Pieces(text, ws)
    requires chunk == Strip(Slice(text, ws[i]))
    ensures (if chunk == "" then chunks else chunks + [chunk]) + Pieces(text, ws[i + 1..]) == Pieces(text, ws)
  {
    PiecesCons(text, ws[i..]);
    assert ws[i..][1..] == ws[i + 1..];
    KeepPiece(chunks, chunk, Pieces(text, ws[i + 1..]));
  }

  // ---------------------------------------------------------------------------
  // What the chunks are

  /** `c` occurs in `text` as a contiguous run of characters. */
  predicate IsSubstring(c: string, text: string) {
    exists lo, hi :: 0 <= lo <= hi <= |text| && c == text[lo..hi]
  }

  lemma SliceOfSlice(text: string, a: nat, b: nat, lo: nat, hi: nat)
    requires a <= b <= |text| && lo <= hi <= b - a
    ensures text[a..b][lo..hi] == text[a + lo..a + hi]
  {
    forall j | 0 <= j < hi - lo
      ensures text[a..b][lo..hi][j] == text[a + lo..a + hi][j]
    {
    }
  }

  /** The stripped slice of one window is blank, or stripped, cut from the text and no longer than the window. */
  lemma PieceSound(text: string, w: Window, chunkSize: int)
    requires w.start < |text| && w.start < w.end <= w.start + chunkSize
    ensures var c := Strip(Slice(text, w));
      c == "" || (IsStripped(c) && |c| <= chunkSize && IsSubstring(c, text))
  {
    var s := text[w.start..Min(w.end, |text|)];
    SliceInside(text, w);
    var lo := SpanStart(s, 0);
    var hi := SpanEnd(s, lo, |s|);
    assert Strip(s) == s[lo..hi];
    SliceOfSlice(text, w.start, Min(w.end, |text|), lo, hi);
  }

  /** Every piece is non-blank, has no whitespace at either end, is cut from the text and is no longer than a window. */
  lemma {:induction false} PiecesSound(text: string, ws: seq<Window>, chunkSize: int)
    requires forall k :: 0 <= k < |ws| ==> ws[k].start < |text| && ws[k].start < ws[k].end <= ws[k].start + chunkSize
    ensures forall c :: c in Pieces(text, ws) ==> c != "" && IsStripped(c) && |c| <= chunkSize && IsSubstring(c, text)
    decreases |ws|
  {
    if ws != [] {
      PieceSound(text, ws[0], chunkSize);
      PiecesCons(text, ws);
      PiecesSound(text, ws[1..], chunkSize);
      forall k | 0 <= k < |ws| - 1
        ensures ws[1..][k].start < |text| && ws[1..][k].start < ws[1..][k].end <= ws[1..][k].start + chunkSize
      {
        assert ws[1..][k] == ws[k + 1];
      }
    }
  }

  /**
   * What `chunk_text` returns for a text longer than `chunkSize`: non-blank pieces of
   * the text, stripped, each at most `chunkSize` long.
   */
  lemma ChunksAreStrippedPieces(text: string, chunkSize: int, overlap: int)
    requires 1 <= chunkSize && overlap <= chunkSize / 2 && chunkSize < |text|
    ensures forall c :: c in Chunking(text, chunkSize, overlap) ==>
      c != "" && IsStripped(c) && |c| <= chunkSize && IsSubstring(c, text)
  {
    var ws := WindowsFrom(text, chunkSize, overlap, 0);
    WindowsCut(text, chunkSize, overlap, 0, ws);
    PiecesSound(text, ws, chunkSize);
  }

  /** Position `p` of the text lies in one of the windows. */
  predicate InSomeWindow(ws: seq<Window>, p: int) {
    exists k :: 0 <= k < |ws| && ws[k].start <= p < ws[k].end
  }

  /**
   * With a non-negative overlap no character is skipped: every position of the text
   * lies in one of the windows.
   */
  lemma {:induction false} WindowsCoverText(text: string, chunkSize: int, overlap: int, start: nat, ws: seq<Window>)
    requires 1 <= chunkSize && 0 <= overlap <= chunkSize / 2 && start < |text|
    requires ws == WindowsFrom(text, chunkSize, overlap, start)
    ensures forall p :: start <= p < |text| ==> InSomeWindow(ws, p)
    decreases |text| - start
  {
    var end := CutPoint(text, chunkSize, start);
    WindowsFromUnfold(text, chunkSize, overlap, start);
    if end - overlap < |text| {
      var rest := WindowsFrom(text, chunkSize, overlap, end - overlap);
      WindowsCoverText(text, chunkSize, overlap, end - overlap, rest);
      forall p | start <= p < |text|
        ensures InSomeWindow(ws, p)
      {
        if p < end {
          assert ws[0].start <= p < ws[0].end;
        } else {
          assert InSomeWindow(rest, p);
          var k :| 0 <= k < |rest| && rest[k].start <= p < rest[k].end;
          assert ws[k + 1] == rest[k];
        }
      }
    } else {
      forall p | start <= p < |text|
        ensures InSomeWindow(ws, p)
      {
        assert ws[0].start <= p < ws[0].end;
      }
    }
  }

  /** The window that reaches the end of the text is not always the last: a text of six letters cut by four with an overlap of two yields a third chunk inside the second. */
  lemma TrailingChunkRepeats()
    ensures Chunking("abcdef", 4, 2) == ["abcd", "cdef", "ef"]
  {
    var text := "abcdef";
    SixLetterWindows();
    SixLetterPieces(text, [Window(0, 4), Window(2, 6), Window(4, 8)]);
  }

  lemma SixLetterPieces(text: string, ws: seq<Window>)
    requires text == "abcdef" && ws == [Window(0, 4), Window(2, 6), Window(4, 8)]
    ensures Pieces(text, ws) == ["abcd", "cdef", "ef"]
  {
    SixLetterSlices();
    KeepStrippedSlice(text, ws[2..]);
    assert ws[2..][1..] == [];
    KeepStrippedSlice(text, ws[1..]);
    assert ws[1..][1..] == ws[2..];
    KeepStrippedSlice(text, ws);
  }

  lemma SixLetterSlices()
    ensures Slice("abcdef", Window(0, 4)) == "abcd" && IsStripped("abcd")
    ensures Slice("abcdef", Window(2, 6)) == "cdef" && IsStripped("cdef")
    ensures Slice("abcdef", Window(4, 8)) == "ef" && IsStripped("ef")
  {
    var text := "abcdef";
    assert text[0..4] == "abcd";
    assert text[2..6] == "cdef";
    assert text[4..6] == "ef";
  }

  lemma KeepStrippedSlice(text: string, ws: seq<Window>)
    requires ws != [] && Slice(text, ws[0]) != "" && IsStripped(Slice(text, ws[0]))
    ensures Pieces(text, ws) == [Slice(text, ws[0])] + Pieces(text, ws[1..])
  {
    StripKeepsStripped(Slice(text, ws[0]));
    PiecesCons(text, ws);
  }

  lemma SixLetterWindows()
    ensures WindowsFrom("abcdef", 4, 2, 0) == [Window(0, 4), Window(2, 6), Window(4, 8)]
  {
    var text := "abcdef";
    assert CutPoint(text, 4, 4) == 8;
    assert WindowsFrom(text, 4, 2, 4) == [Window(4, 8)];
    assert CutPoint(text, 4, 2) == 6;
    assert WindowsFrom(text, 4, 2, 2) == [Window(2, 6), Window(4, 8)];
    assert CutPoint(text, 4, 0) == 4;
  }

  /** No pieces at all means every window's slice is whitespace only. */
  lemma {:induction false} PiecesEmpty(text: string, ws: seq<Window>)
    requires Pieces(text, ws) == []
    ensures forall k :: 0 <= k < |ws| ==> AllSpace(Slice(text, ws[k]))
    decreases |ws|
  {
    if ws != [] {
      PiecesEmpty(text, ws[1..]);
      forall k | 1 <= k < |ws|
        ensures AllSpace(Slice(text, ws[k]))
      {
        assert ws[k] == ws[1..][k - 1];
      }
    }
  }

  /** Every chunk of a long text shows a non-space character of the text. */
  lemma ChunkShowsText(text: string, chunkSize: int, overlap: int)
    requires 1 <= chunkSize < |text| && overlap <= chunkSize / 2
    requires Chunking(text, chunkSize, overlap) != []
    ensures !AllSpace(text)
  {
    var chunks := Chunking(text, chunkSize, overlap);
    ChunksAreStrippedPieces(text, chunkSize, overlap);
    var c := chunks[0];
    assert c in chunks;
    var lo, hi :| 0 <= lo <= hi <= |text| && c == text[lo..hi];
    assert text[lo] == c[0];
  }

  /** A whitespace-only text longer than a window yields no chunk. */
  lemma BlankTextNoChunks(text: string, chunkSize: int, overlap: int)
    requires 1 <= chunkSize < |text| && overlap <= chunkSize / 2 && AllSpace(text)
    ensures Chunking(text, chunkSize, overlap) == []
  {
    if Chunking(text, chunkSize, overlap) != [] {
      ChunkShowsText(text, chunkSize, overlap);
      assert false;
    }
  }

  /** A whitespace-only slice holds only whitespace characters of the text. */
  lemma SliceSpaceAt(text: string, w: Window, p: nat)
    requires w.start <= p < w.end && p < |text| && AllSpace(Slice(text, w))
    ensures IsSpace(text[p])
  {
    SliceInside(text, w);
    assert Slice(text, w)[p - w.start] == text[p];
  }

  /** When the windows yield no piece, every character they cover is whitespace. */
  lemma NoPiecesAllSpace(text: string, ws: seq<Window>, k: nat, p: nat)
    requires Pieces(text, ws) == []
    requires k < |ws| && ws[k].start <= p < ws[k].end && p < |text|
    ensures IsSpace(text[p])
  {
    PiecesEmpty(text, ws);
    SliceSpaceAt(text, ws[k], p);
  }

  /**
   * With a non-negative overlap, a text longer than a window yields no chunk exactly
   * when it is whitespace only.
   */
  lemma ChunkingEmptyIff(text: string, chunkSize: int, overlap: int)
    requires 1 <= chunkSize < |text| && 0 <= overlap <= chunkSize / 2
    ensures Chunking(text, chunkSize, overlap) == [] <==> AllSpace(text)
  {
    if AllSpace(text) {
      BlankTextNoChunks(text, chunkSize, overlap);
    } else {
      var p :| 0 <= p < |text| && !IsSpace(text[p]);
      var ws := WindowsFrom(text, chunkSize, overlap, 0);
      WindowsCoverText(text, chunkSize, overlap, 0, ws);
      assert InSomeWindow(ws, p);
      var k :| 0 <= k < |ws| && ws[k].start <= p < ws[k].end;
      if Pieces(text, ws) == [] {
        NoPiecesAllSpace(text, ws, k, p);
        assert false;
      }
    }
  }
}
