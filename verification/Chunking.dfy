/** Boundary-aware chunks of a text (arslan/core/chunking.py). What counts as white space is left open. */
module Chunking {

  type Space = char -> bool

  // ---------------------------------------------------------------------------
  // Python's slices and strip
  // ---------------------------------------------------------------------------

  /** An index as Python's slices read it. */
  function Bound(n: nat, i: int): (r: nat)
    ensures r <= n
    ensures 0 <= i <= n ==> r == i
  {
    var j := if i < 0 then i + n else i;
    if j < 0 then 0 else if j > n then n else j
  }

  function Slice(s: string, i: int, j: int): string {
    var lo, hi := Bound(|s|, i), Bound(|s|, j);
    if lo <= hi then s[lo..hi] else ""
  }

  /** How many characters of white space open `s`. */
  function Lead(s: string, space: Space): (n: nat)
    ensures n <= |s|
    ensures forall i :: 0 <= i < n ==> space(s[i])
    ensures n < |s| ==> !space(s[n])
  {
    if s == "" || !space(s[0]) then 0 else 1 + Lead(s[1..], space)
  }

  /** Where the white space that closes `s` begins, not before `from`. */
  function Trail(s: string, from: nat, space: Space): (n: nat)
    requires from <= |s|
    ensures from <= n <= |s|
    ensures forall i :: n <= i < |s| ==> space(s[i])
    ensures n > from ==> !space(s[n - 1])
    decreases |s|
  {
    if |s| == from || !space(s[|s| - 1]) then |s| else Trail(s[..|s| - 1], from, space)
  }

  function Strip(s: string, space: Space): string {
    s[Lead(s, space)..Trail(s, Lead(s, space), space)]
  }

  // ---------------------------------------------------------------------------
  // Where to cut
  // ---------------------------------------------------------------------------

  /** A sentence ends right before `i`. */
  predicate SentenceEnd(s: string, i: nat, space: Space)
    requires i <= |s|
  {
    i > 0 &&
    (s[i - 1] in ['\U{3002}', '!', '?', ';', '\n']
     || (s[i - 1] == '.' && i < |s| && space(s[i])))
  }

  /** The last paragraph break in `s`, or -1. */
  function LastBreak(s: string): (p: int)
    ensures p == -1 || (0 <= p && p + 2 <= |s| && s[p] == '\n' && s[p + 1] == '\n')
    ensures forall i :: (if p >= 0 then p + 1 else 0) <= i < |s| - 1 ==> !(s[i] == '\n' && s[i + 1] == '\n')
  {
    if |s| < 2 then -1
    else if s[|s| - 1] == '\n' && s[|s| - 2] == '\n' then |s| - 2
    else LastBreak(s[..|s| - 1])
  }

  /** The last sentence end in `s` after its first character, or -1. */
  method LastSentence(s: string, space: Space) returns (best: int)
    ensures best == -1 || (0 < best <= |s| && SentenceEnd(s, best, space))
    ensures forall i :: (if best > 0 then best else 0) < i <= |s| ==> !SentenceEnd(s, i, space)
  {
    best := -1;
    for i := 1 to |s| + 1
      invariant best == -1 || (0 < best < i && SentenceEnd(s, best, space))
      invariant forall k :: (if best > 0 then best else 0) < k < i ==> !SentenceEnd(s, k, space)
    {
      if SentenceEnd(s, i, space) {
        best := i;
      }
    }
  }

  /** The last sentence end in `s` after its first character, or -1. */
  function SentenceCut(s: string, n: nat, space: Space): (best: int)
    requires n <= |s|
    ensures best == -1 || (0 < best <= n && SentenceEnd(s, best, space))
    ensures forall i :: (if best > 0 then best else 0) < i <= n ==> !SentenceEnd(s, i, space)
  {
    if n == 0 then -1 else if SentenceEnd(s, n, space) then n else SentenceCut(s, n - 1, space)
  }

  /** int(size * 0.6) */
  function Earliest(size: int): int {
    if size >= 0 then size * 3 / 5 else -(-size * 3 / 5)
  }

  /** Where the window from `start` is cut: at the end of the text, or else at a break in its last two fifths. */
  function FindCut(text: string, start: int, size: int, space: Space): int {
    var lo, hard := start + Earliest(size), start + size;
    if hard >= |text| then |text| else BreakIn(Slice(text, lo, hard), lo, hard, space)
  }

  /** After the last paragraph break of `window`, which stands from `lo` to `hard`, else after its last sentence, else
      at its end. */
  function BreakIn(window: string, lo: int, hard: int, space: Space): int {
    var p, best := LastBreak(window), SentenceCut(window, |window|, space);
    if p > 0 then lo + p + 2 else if best > 0 then lo + best else hard
  }

  method FindCutLoop(text: string, start: int, size: int, space: Space) returns (cut: int)
    ensures cut == FindCut(text, start, size, space)
  {
    var hard := start + size;
    if hard >= |text| {
      return |text|;
    }
    var lo := start + Earliest(size);
    var window := Slice(text, lo, hard);
    var p := LastBreak(window);
    if p > 0 {
      return lo + p + 2;
    }
    var best := LastSentence(window, space);
    if best > 0 {
      return lo + best;
    }
    return hard;
  }

  /** Windows that are of at least one character end inside the text and past their start. */
  lemma CutIsInWindow(text: string, start: int, size: int, space: Space)
    requires 0 <= start < |text| && size >= 1
    ensures start < FindCut(text, start, size, space) <= start + size
    ensures FindCut(text, start, size, space) <= |text|
  {
  }

  /** Right before `cut` a paragraph breaks, the break starting after `lo` and ending by `hard`. */
  ghost predicate ParagraphCut(text: string, lo: int, hard: int, cut: int) {
    0 <= lo && lo + 2 < cut <= hard <= |text| && text[cut - 2] == '\n' && text[cut - 1] == '\n'
  }

  /** Right before `cut` a sentence of the window from `lo` to `hard` ends. */
  ghost predicate SentenceCutAt(text: string, lo: int, hard: int, cut: int, space: Space) {
    0 <= lo < cut <= hard <= |text| && SentenceEnd(text[lo..hard], cut - lo, space)
  }

  ghost predicate NoParagraph(text: string, lo: int, hard: int) {
    forall c :: !ParagraphCut(text, lo, hard, c)
  }

  ghost predicate NoSentence(text: string, lo: int, hard: int, space: Space) {
    forall c :: !SentenceCutAt(text, lo, hard, c, space)
  }

  ghost predicate LastParagraph(text: string, lo: int, hard: int, cut: int) {
    ParagraphCut(text, lo, hard, cut) && forall c :: ParagraphCut(text, lo, hard, c) ==> c <= cut
  }

  ghost predicate LastSentenceAt(text: string, lo: int, hard: int, cut: int, space: Space) {
    SentenceCutAt(text, lo, hard, cut, space) && forall c :: SentenceCutAt(text, lo, hard, c, space) ==> c <= cut
  }

  /** `cut` is at the last paragraph break of the window from `lo` to `hard`, or else at its last sentence end, or else
      at its end. */
  ghost predicate CutAtLast(text: string, lo: int, hard: int, cut: int, space: Space) {
    || LastParagraph(text, lo, hard, cut)
    || (NoParagraph(text, lo, hard) && LastSentenceAt(text, lo, hard, cut, space))
    || (NoParagraph(text, lo, hard) && NoSentence(text, lo, hard, space) && cut == hard)
  }

  /** Unless the text ends within the size, a window is cut at the last break in its last two fifths. */
  lemma CutIsTheLastBreak(text: string, start: int, size: int, space: Space)
    requires 0 <= start && size >= 1 && start + size < |text|
    ensures CutAtLast(text, start + size * 3 / 5, start + size, FindCut(text, start, size, space), space)
  {
    var lo, hard := start + size * 3 / 5, start + size;
    assert Slice(text, lo, hard) == text[lo..hard];
    WindowCut(text, lo, hard, space);
  }

  lemma WindowCut(text: string, lo: nat, hard: nat, space: Space)
    requires lo <= hard <= |text|
    ensures CutAtLast(text, lo, hard, BreakIn(text[lo..hard], lo, hard, space), space)
  {
    ParagraphsIn(text, lo, hard);
    SentencesIn(text, lo, hard, space);
  }

  lemma ParagraphsIn(text: string, lo: nat, hard: nat)
    requires lo <= hard <= |text|
    ensures var p := LastBreak(text[lo..hard]);
      if p > 0 then LastParagraph(text, lo, hard, lo + p + 2) else NoParagraph(text, lo, hard)
  {
    var window := text[lo..hard];
    var p := LastBreak(window);
    forall c | ParagraphCut(text, lo, hard, c) ensures 0 < c - 2 - lo <= p {
      assert window[c - 2 - lo] == '\n' && window[c - 2 - lo + 1] == '\n';
    }
    if p > 0 { assert text[lo + p] == window[p] && text[lo + p + 1] == window[p + 1]; }
  }

  lemma SentencesIn(text: string, lo: nat, hard: nat, space: Space)
    requires lo <= hard <= |text|
    ensures var best := SentenceCut(text[lo..hard], hard - lo, space);
      if best > 0 then LastSentenceAt(text, lo, hard, lo + best, space) else NoSentence(text, lo, hard, space)
  {
  }

  // ---------------------------------------------------------------------------
  // Chunks
  // ---------------------------------------------------------------------------

  datatype Window = Window(start: int, cut: int)

  /** The windows from `start` on; each begins `overlap` before the end of the last, and past its start. */
  function Windows(text: string, start: nat, size: int, overlap: int, space: Space): seq<Window>
    decreases |text| - start
  {
    if start >= |text| then []
    else
      var cut := FindCut(text, start, size, space);
      [Window(start, cut)] +
      if cut >= |text| then [] else Windows(text, Following(start, cut, overlap), size, overlap, space)
  }

  function Following(start: nat, cut: int, overlap: int): nat {
    if cut - overlap > start + 1 then cut - overlap else start + 1
  }

  /** What the windows hold, without the white space around it, empty ones left out. */
  function Pieces(text: string, windows: seq<Window>, space: Space): seq<string> {
    if windows == [] then []
    else
      var piece := Strip(Slice(text, windows[0].start, windows[0].cut), space);
      (if piece == "" then [] else [piece]) + Pieces(text, windows[1..], space)
  }

  function Chunks(text: string, size: int, overlap: int, space: Space): seq<string> {
    var stripped := Strip(text, space);
    if stripped == "" then [] else if |stripped| <= size then [stripped]
    else Pieces(stripped, Windows(stripped, 0, size, overlap, space), space)
  }

  lemma PiecesUnfold(text: string, start: nat, size: int, overlap: int, space: Space)
    requires start < |text|
    ensures var cut := FindCut(text, start, size, space);
            var piece := Strip(Slice(text, start, cut), space);
            Pieces(text, Windows(text, start, size, overlap, space), space)
            == (if piece == "" then [] else [piece])
               + (if cut >= |text| then []
                  else Pieces(text, Windows(text, Following(start, cut, overlap), size, overlap, space), space))
  {
    var cut := FindCut(text, start, size, space);
    var rest := if cut >= |text| then [] else Windows(text, Following(start, cut, overlap), size, overlap, space);
    assert ([Window(start, cut)] + rest)[1..] == rest;
  }

  /** The loop ends for every size and overlap: each window starts past the last. */
  method ChunkText(text: string, size: int, overlap: int, space: Space) returns (chunks: seq<string>)
    ensures chunks == Chunks(text, size, overlap, space)
  {
    var stripped := Strip(text, space);
    if stripped == "" {
      return [];
    }
    if |stripped| <= size {
      return [stripped];
    }
    chunks := ChunkLoop(stripped, size, overlap, space);
  }

  /** The pieces from `start` on. */
  ghost function PiecesFrom(text: string, start: nat, size: int, overlap: int, space: Space): seq<string> {
    Pieces(text, Windows(text, start, size, overlap, space), space)
  }

  lemma OneMorePiece(text: string, start: nat, size: int, overlap: int, space: Space, chunks: seq<string>)
    requires start < |text|
    ensures var cut := FindCut(text, start, size, space);
            var piece := Strip(Slice(text, start, cut), space);
            chunks + PiecesFrom(text, start, size, overlap, space)
            == (if piece == "" then chunks else chunks + [piece])
               + (if cut >= |text| then [] else PiecesFrom(text, Following(start, cut, overlap), size, overlap, space))
  {
    PiecesUnfold(text, start, size, overlap, space);
    var cut := FindCut(text, start, size, space);
    var piece := Strip(Slice(text, start, cut), space);
    var next := if cut >= |text| then [] else PiecesFrom(text, Following(start, cut, overlap), size, overlap, space);
    Associate(chunks, if piece == "" then [] else [piece], next);
    assert chunks + [] == chunks;
  }

  lemma Associate(a: seq<string>, b: seq<string>, c: seq<string>)
    ensures a + (b + c) == a + b + c
  {
  }

  method ChunkLoop(text: string, size: int, overlap: int, space: Space) returns (chunks: seq<string>)
    ensures chunks == PiecesFrom(text, 0, size, overlap, space)
  {
    chunks := [];
    var start: nat := 0;
    ghost var all := PiecesFrom(text, 0, size, overlap, space);
    while start < |text|
      invariant all == chunks + PiecesFrom(text, start, size, overlap, space)
      decreases |text| - start
    {
      OneMorePiece(text, start, size, overlap, space, chunks);
      var cut := FindCutLoop(text, start, size, space);
      var piece := Strip(Slice(text, start, cut), space);
      if piece != "" {
        chunks := chunks + [piece];
      }
      if cut >= |text| {
        assert chunks + [] == chunks;
        return;
      }
      start := Following(start, cut, overlap);
    }
    assert chunks + [] == chunks;
  }

  // ---------------------------------------------------------------------------
  // What the chunks hold
  // ---------------------------------------------------------------------------

  /** Windows of at most `size` that leave no gap and reach the end. */
  ghost predicate Covers(text: string, from: nat, size: int, windows: seq<Window>)
    decreases |windows|
  {
    if windows == [] then from >= |text|
    else
      && 0 <= windows[0].start <= from && windows[0].start < windows[0].cut <= |text|
      && windows[0].cut - windows[0].start <= size
      && Covers(text, windows[0].cut, size, windows[1..])
  }

  lemma {:induction false} WindowsCover(text: string, start: nat, from: nat, size: int, overlap: int, space: Space)
    requires size >= 1 && overlap >= 0 && start <= from && start < |text|
    ensures Covers(text, from, size, Windows(text, start, size, overlap, space))
    decreases |text| - start
  {
    CutIsInWindow(text, start, size, space);
    var cut := FindCut(text, start, size, space);
    var windows := Windows(text, start, size, overlap, space);
    if cut >= |text| {
      assert windows[1..] == [];
    } else {
      assert windows[1..] == Windows(text, Following(start, cut, overlap), size, overlap, space);
      WindowsCover(text, Following(start, cut, overlap), cut, size, overlap, space);
    }
  }

  /** Each window is cut where `CutIsTheLastBreak` says and the next starts `overlap` before that cut, or one past the
      start where that would be no progress. */
  lemma {:induction false} WindowsOverlap(text: string, start: nat, size: int, overlap: int, space: Space, k: nat)
    requires k < |Windows(text, start, size, overlap, space)|
    ensures var windows := Windows(text, start, size, overlap, space);
      && windows[0].start == start && windows[k].cut == FindCut(text, windows[k].start, size, space)
      && (k + 1 < |windows| ==>
            && windows[k].cut < |text| && windows[k + 1].start > windows[k].start
            && windows[k + 1].start >= windows[k].cut - overlap
            && (windows[k + 1].start == windows[k].cut - overlap || windows[k + 1].start == windows[k].start + 1))
    decreases k
  {
    var windows, cut := Windows(text, start, size, overlap, space), FindCut(text, start, size, space);
    if cut < |text| {
      var rest := Windows(text, Following(start, cut, overlap), size, overlap, space);
      assert windows[1..] == rest;
      if k > 0 {
        WindowsOverlap(text, Following(start, cut, overlap), size, overlap, space, k - 1);
        assert windows[k] == rest[k - 1] && (k + 1 < |windows| ==> windows[k + 1] == rest[k]);
      } else if |windows| > 1 {
        assert windows[1] == rest[0];
      }
    }
  }

  /** `piece` stands in `text` at `at`. */
  ghost predicate StandsAt(text: string, at: nat, piece: string) {
    at + |piece| <= |text| && text[at..at + |piece|] == piece
  }

  /** The character at `i` is in a piece, where that piece stands. */
  ghost predicate Held(text: string, pieces: seq<string>, i: nat) {
    exists k, at: nat :: 0 <= k < |pieces| && StandsAt(text, at, pieces[k]) && at <= i < at + |pieces[k]|
  }

  lemma VisibleKept(s: string, j: nat, space: Space)
    requires j < |s| && !space(s[j])
    ensures Lead(s, space) <= j < Trail(s, Lead(s, space), space)
  {
  }

  lemma PartOfPart(s: string, a: nat, b: nat, i: nat, j: nat)
    requires a <= b <= |s| && i <= j <= b - a
    ensures s[a..b][i..j] == s[a + i..a + j]
  {
    var part := s[a..b];
    forall k | 0 <= k < j - i ensures part[i..j][k] == s[a + i..a + j][k] {
      assert part[i + k] == s[a + i + k];
    }
  }

  lemma StripStands(text: string, w: Window, space: Space)
    requires 0 <= w.start <= w.cut <= |text|
    ensures var s := Slice(text, w.start, w.cut);
      s == text[w.start..w.cut] && StandsAt(text, w.start + Lead(s, space), Strip(s, space))
  {
    var s := Slice(text, w.start, w.cut);
    var lead, trail := Lead(s, space), Trail(s, Lead(s, space), space);
    assert s == text[w.start..w.cut];
    PartOfPart(text, w.start, w.cut, lead, trail);
  }

  /** Stripping a window keeps every character of it that is not white space. */
  lemma StripHolds(text: string, w: Window, i: nat, space: Space)
    requires 0 <= w.start <= i < w.cut <= |text| && !space(text[i])
    ensures var piece := Strip(Slice(text, w.start, w.cut), space);
            var at := w.start + Lead(Slice(text, w.start, w.cut), space);
            StandsAt(text, at, piece) && at <= i < at + |piece|
  {
    var s := Slice(text, w.start, w.cut);
    StripStands(text, w, space);
    assert s[i - w.start] == text[i];
    VisibleKept(s, i - w.start, space);
  }

  lemma HeldMore(text: string, before: seq<string>, pieces: seq<string>, i: nat)
    requires Held(text, pieces, i)
    ensures Held(text, before + pieces, i)
  {
    var k, at: nat :| 0 <= k < |pieces| && StandsAt(text, at, pieces[k]) && at <= i < at + |pieces[k]|;
    assert (before + pieces)[|before| + k] == pieces[k];
  }

  lemma {:induction false} PiecesHold(text: string, from: nat, size: int, windows: seq<Window>, i: nat, space: Space)
    requires Covers(text, from, size, windows) && from <= i < |text| && !space(text[i])
    ensures Held(text, Pieces(text, windows, space), i)
    decreases |windows|
  {
    var w, pieces := windows[0], Pieces(text, windows, space);
    var piece := Strip(Slice(text, w.start, w.cut), space);
    if i < w.cut {
      StripHolds(text, w, i, space);
      assert pieces[0] == piece;
    } else {
      PiecesHold(text, w.cut, size, windows[1..], i, space);
      var rest := Pieces(text, windows[1..], space);
      assert pieces == (if piece == "" then [] else [piece]) + rest;
      HeldMore(text, if piece == "" then [] else [piece], rest, i);
    }
  }

  /** A piece of at most `size` characters that stands somewhere in the text. */
  ghost predicate FitsIn(text: string, size: int, piece: string) {
    1 <= |piece| <= size && exists at: nat :: StandsAt(text, at, piece)
  }

  ghost predicate AllFit(text: string, size: int, pieces: seq<string>) {
    forall k :: 0 <= k < |pieces| ==> FitsIn(text, size, pieces[k])
  }

  lemma AllFitMore(text: string, size: int, piece: string, pieces: seq<string>)
    requires AllFit(text, size, pieces) && (piece != "" ==> FitsIn(text, size, piece))
    ensures AllFit(text, size, (if piece == "" then [] else [piece]) + pieces)
  {
  }

  lemma StripFits(text: string, w: Window, size: int, space: Space)
    requires 0 <= w.start <= w.cut <= |text| && w.cut - w.start <= size
    requires Strip(Slice(text, w.start, w.cut), space) != ""
    ensures FitsIn(text, size, Strip(Slice(text, w.start, w.cut), space))
  {
    StripStands(text, w, space);
  }

  lemma {:induction false} PiecesFit(text: string, from: nat, size: int, windows: seq<Window>, space: Space)
    requires Covers(text, from, size, windows)
    ensures AllFit(text, size, Pieces(text, windows, space))
    decreases |windows|
  {
    if windows != [] {
      var w := windows[0];
      PiecesFit(text, w.cut, size, windows[1..], space);
      var piece := Strip(Slice(text, w.start, w.cut), space);
      if piece != "" { StripFits(text, w, size, space); }
      AllFitMore(text, size, piece, Pieces(text, windows[1..], space));
    }
  }

  /** Every chunk is a contiguous piece of the text of at most `size` characters, and every character that is not
      white space is in some chunk. */
  ghost predicate HoldText(text: string, chunks: seq<string>, size: int, space: Space) {
    && AllFit(text, size, chunks)
    && (forall i: nat :: i < |text| && !space(text[i]) ==> Held(text, chunks, i))
  }

  lemma WindowsHold(text: string, size: int, overlap: int, space: Space)
    requires text != "" && size >= 1 && overlap >= 0
    ensures HoldText(text, Pieces(text, Windows(text, 0, size, overlap, space), space), size, space)
  {
    var windows := Windows(text, 0, size, overlap, space);
    WindowsCover(text, 0, 0, size, overlap, space);
    PiecesFit(text, 0, size, windows, space);
    forall i: nat | i < |text| && !space(text[i]) ensures Held(text, Pieces(text, windows, space), i) {
      PiecesHold(text, 0, size, windows, i, space);
    }
  }

  lemma WholeHolds(text: string, size: int, space: Space)
    requires 1 <= |text| <= size
    ensures HoldText(text, [text], size, space)
  {
    assert StandsAt(text, 0, text) && FitsIn(text, size, text);
    forall i: nat | i < |text| ensures Held(text, [text], i) { assert [text][0] == text; }
  }

  /** This holds of the text without the white space around it, for a size of at least one and no negative
      overlap. */
  lemma ChunksHoldTheText(text: string, size: int, overlap: int, space: Space)
    requires size >= 1 && overlap >= 0
    ensures HoldText(Strip(text, space), Chunks(text, size, overlap, space), size, space)
    ensures forall i: nat :: i < |text| && !space(text[i]) ==>
      Lead(text, space) <= i < Lead(text, space) + |Strip(text, space)|
  {
    var stripped := Strip(text, space);
    if stripped != "" {
      if |stripped| <= size {
        WholeHolds(stripped, size, space);
      } else {
        WindowsHold(stripped, size, overlap, space);
      }
    }
  }
}
