/** Files and hunks in the form `git diff -U0` prints, and the proof that reading them back gives what was
    printed. */
module DiffPrint {
  import opened Wrappers
  import opened Text
  import opened DiffParse

  // ---------------------------------------------------------------------------
  // Quoted names
  // ---------------------------------------------------------------------------

  /** How one character of a quoted name is printed: as it is, by its letter, or by its bytes in octal. */
  datatype Style = AsIs | ByLetter(letter: char) | InOctal

  ghost predicate Printable(c: char, style: Style) {
    match style
    case AsIs => c != '\\' && c != '\n'
    case ByLetter(letter) => Escaped(letter) == c && !IsOctal(letter) && letter != '\n'
    case InOctal => true
  }

  function OctalOf(b: Byte): (s: string)
    ensures |s| == 3 && (forall i :: 0 <= i < 3 ==> IsOctal(s[i])) && OctalValue(s) == b
  {
    [(48 + b / 64) as char, (48 + b / 8 % 8) as char, (48 + b % 8) as char]
  }

  function PrintBytes(bytes: seq<Byte>): string {
    if bytes == [] then "" else "\\" + OctalOf(bytes[0]) + PrintBytes(bytes[1..])
  }

  function PrintChar(c: char, style: Style, utf8: Utf8): string {
    match style
    case AsIs => [c]
    case ByLetter(letter) => ['\\', letter]
    case InOctal => PrintBytes(utf8.encode(c))
  }

  /** A name with the way each of its characters is printed. */
  datatype Styled = Styled(c: char, style: Style)

  function PrintChars(name: seq<Styled>, utf8: Utf8): string {
    if name == [] then "" else PrintChar(name[0].c, name[0].style, utf8) + PrintChars(name[1..], utf8)
  }

  function NameOf(name: seq<Styled>): string {
    if name == [] then "" else [name[0].c] + NameOf(name[1..])
  }

  function Encode(s: string, utf8: Utf8): seq<Byte> {
    if s == "" then [] else utf8.encode(s[0]) + Encode(s[1..], utf8)
  }

  /** `part` stands in `s` at `i`. */
  ghost predicate Stands(s: string, i: nat, part: string) {
    i + |part| <= |s| && s[i..i + |part|] == part
  }

  lemma StandsSplit(s: string, i: nat, a: string, b: string)
    requires Stands(s, i, a + b)
    ensures Stands(s, i, a) && Stands(s, i + |a|, b)
  {
    var whole := s[i..i + |a + b|];
    assert s[i..i + |a|] == whole[..|a|] && s[i + |a|..i + |a| + |b|] == whole[|a|..];
  }

  /** `part` stands in `body` from `i` up to the closing quote. */
  ghost predicate Closes(body: string, i: nat, part: string) {
    Stands(body, i, part) && i + |part| + 1 == |body|
  }

  lemma FirstCloses(body: string, i: nat, name: seq<Styled>, utf8: Utf8)
    requires name != [] && Closes(body, i, PrintChars(name, utf8))
    ensures var piece := PrintChar(name[0].c, name[0].style, utf8);
      && Stands(body, i, piece) && i + |piece| < |body|
      && Closes(body, i + |piece|, PrintChars(name[1..], utf8))
  {
    var piece := PrintChar(name[0].c, name[0].style, utf8);
    assert PrintChars(name, utf8) == piece + PrintChars(name[1..], utf8);
    StandsSplit(body, i, piece, PrintChars(name[1..], utf8));
  }

  /** Reading the printed characters, up to the closing quote, gives the name's bytes. */
  lemma {:induction false} UnescapePrinted(body: string, i: nat, name: seq<Styled>, utf8: Utf8)
    requires forall k :: 0 <= k < |name| ==> Printable(name[k].c, name[k].style)
    requires Closes(body, i, PrintChars(name, utf8))
    ensures Unescape(body, i, utf8) == Some(Encode(NameOf(name), utf8))
    decreases |name|
  {
    if name != [] {
      FirstCloses(body, i, name, utf8);
      UnescapePrinted(body, i + |PrintChar(name[0].c, name[0].style, utf8)|, name[1..], utf8);
      FirstPrinted(body, i, name, utf8);
    }
  }

  lemma FirstPrinted(body: string, i: nat, name: seq<Styled>, utf8: Utf8)
    requires name != [] && Printable(name[0].c, name[0].style)
    requires var piece := PrintChar(name[0].c, name[0].style, utf8);
      && Stands(body, i, piece) && i + |piece| < |body|
      && Unescape(body, i + |piece|, utf8) == Some(Encode(NameOf(name[1..]), utf8))
    ensures Unescape(body, i, utf8) == Some(Encode(NameOf(name), utf8))
  {
    OneChar(body, i, name[0].c, name[0].style, utf8);
    EncodeFirst(name, utf8);
  }

  lemma EncodeFirst(name: seq<Styled>, utf8: Utf8)
    requires name != []
    ensures Prepend(utf8.encode(name[0].c), Some(Encode(NameOf(name[1..]), utf8))) == Some(Encode(NameOf(name), utf8))
  {
    assert NameOf(name)[0] == name[0].c && NameOf(name)[1..] == NameOf(name[1..]);
  }

  lemma OneChar(body: string, i: nat, c: char, style: Style, utf8: Utf8)
    requires Printable(c, style)
    requires Stands(body, i, PrintChar(c, style, utf8)) && i + |PrintChar(c, style, utf8)| < |body|
    ensures Unescape(body, i, utf8) == Prepend(utf8.encode(c), Unescape(body, i + |PrintChar(c, style, utf8)|, utf8))
  {
    match style {
      case AsIs =>
        assert body[i] == body[i..i + 1][0] == c;
      case ByLetter(letter) =>
        assert body[i] == body[i..i + 2][0] == '\\';
        assert body[i + 1] == body[i..i + 2][1] == letter;
      case InOctal =>
        UnescapeBytes(body, i, utf8.encode(c), utf8);
    }
  }

  lemma {:induction false} UnescapeBytes(body: string, i: nat, bytes: seq<Byte>, utf8: Utf8)
    requires Stands(body, i, PrintBytes(bytes)) && i + |PrintBytes(bytes)| < |body|
    ensures Unescape(body, i, utf8) == Prepend(bytes, Unescape(body, i + |PrintBytes(bytes)|, utf8))
    decreases |bytes|
  {
    if bytes == [] {
      if Unescape(body, i, utf8).Some? { assert [] + Unescape(body, i, utf8).value == Unescape(body, i, utf8).value; }
    } else {
      var first, rest := "\\" + OctalOf(bytes[0]), PrintBytes(bytes[1..]);
      StandsSplit(body, i, first, rest);
      OneByte(body, i, bytes[0], utf8);
      UnescapeBytes(body, i + 4, bytes[1..], utf8);
      PrependTwice([bytes[0]], bytes[1..], Unescape(body, i + |PrintBytes(bytes)|, utf8));
      assert [bytes[0]] + bytes[1..] == bytes;
    }
  }

  lemma OneByte(body: string, i: nat, b: Byte, utf8: Utf8)
    requires Stands(body, i, "\\" + OctalOf(b)) && i + 4 < |body|
    ensures Unescape(body, i, utf8) == Prepend([b], Unescape(body, i + 4, utf8))
  {
    var printed := "\\" + OctalOf(b);
    assert body[i..i + 4] == printed;
    assert body[i] == body[i..i + 4][0] == '\\';
    forall k | 0 <= k < 3 ensures body[i + 1 + k] == OctalOf(b)[k] {
      assert body[i + 1 + k] == body[i..i + 4][k + 1];
    }
    assert body[i + 1..i + 4] == OctalOf(b);
  }

  // ---------------------------------------------------------------------------
  // Diffs
  // ---------------------------------------------------------------------------

  /** Where a file's new version is named, if it is: nowhere (only its mode changed, say), `/dev/null` for a
      deletion, or its path, plain or quoted. */
  datatype Target =
    | Unnamed
    | Deleted
    | Plain(name: string)
    | Quoted(styled: seq<Styled>, tab: bool)

  /** A count that is 1 may be left out. */
  datatype Range = Range(start: nat, count: Option<nat>)

  datatype Hunk = Hunk(
    was: Range,
    now: Range,
    context: string,              // what git appends to the header
    removed: seq<string>,
    wasUnended: bool,             // the old file's last line has no newline
    added: seq<string>,
    nowUnended: bool)

  datatype File = File(git: string, headers: seq<string>, target: Target, hunks: seq<Hunk>)

  const UNENDED := "\\ No newline at end of file"

  function PrintRange(r: Range): string {
    Digits(r.start) + PrintCount(r.count)
  }

  function PrintCount(count: Option<nat>): string {
    if count.Some? then "," + Digits(count.value) else ""
  }

  function HunkHeader(h: Hunk): string {
    "@@ -" + PrintRange(h.was) + " +" + PrintRange(h.now) + " @@" + h.context
  }

  function Marked(mark: string, lines: seq<string>): (r: seq<string>)
    ensures |r| == |lines| && forall i :: 0 <= i < |r| ==> r[i] == mark + lines[i]
  {
    seq(|lines|, i requires 0 <= i < |lines| => mark + lines[i])
  }

  function PrintHunk(h: Hunk): seq<string> {
    [HunkHeader(h)]
    + (Marked("-", h.removed) + if h.wasUnended then [UNENDED] else [])
    + (Marked("+", h.added) + if h.nowUnended then [UNENDED] else [])
  }

  function PrintHunks(hunks: seq<Hunk>): seq<string> {
    if hunks == [] then [] else PrintHunk(hunks[0]) + PrintHunks(hunks[1..])
  }

  function PrintTarget(t: Target, utf8: Utf8): seq<string> {
    match t
    case Unnamed => []
    case Deleted => ["+++ /dev/null"]
    case Plain(name) => ["+++ b/" + name + if ' ' in name then "\t" else ""]
    case Quoted(styled, tab) => ["+++ \"b/" + PrintChars(styled, utf8) + "\"" + if tab then "\t" else ""]
  }

  function PrintFile(f: File, utf8: Utf8): seq<string> {
    ["diff --git " + f.git] + f.headers + PrintTarget(f.target, utf8) + PrintHunks(f.hunks)
  }

  function PrintFiles(files: seq<File>, utf8: Utf8): seq<string> {
    if files == [] then [] else PrintFile(files[0], utf8) + PrintFiles(files[1..], utf8)
  }

  function Print(files: seq<File>, utf8: Utf8): string {
    EndLines(PrintFiles(files, utf8))
  }

  /** The file's path in the new version. */
  function PathOf(t: Target): Option<string> {
    match t
    case Unnamed => None
    case Deleted => None
    case Plain(name) => Some(name)
    case Quoted(styled, _) => Some(NameOf(styled))
  }

  // ---------------------------------------------------------------------------
  // What can be printed
  // ---------------------------------------------------------------------------

  ghost predicate OneLine(s: string) {
    '\n' !in s
  }

  /** A header line is none of those the scan looks for. */
  ghost predicate HeaderLine(s: string) {
    OneLine(s) && !StartsWith(s, "diff --git ") && !StartsWith(s, "+++ ") && !StartsWith(s, "@@")
  }

  ghost predicate PrintableTarget(t: Target) {
    match t
    case Plain(name) => OneLine(name) && '\t' !in name
    case Quoted(styled, _) => forall i :: 0 <= i < |styled| ==> Printable(styled[i].c, styled[i].style)
    case _ => true
  }

  ghost predicate PrintableHunk(h: Hunk) {
    && OneLine(h.context)
    && (forall i :: 0 <= i < |h.removed| ==> OneLine(h.removed[i]))
    && (forall i :: 0 <= i < |h.added| ==> OneLine(h.added[i]))
  }

  ghost predicate PrintableFile(f: File) {
    && OneLine(f.git) && (forall i :: 0 <= i < |f.headers| ==> HeaderLine(f.headers[i]))
    && PrintableTarget(f.target)
    && (f.target.Unnamed? ==> f.hunks == [])
    && forall i :: 0 <= i < |f.hunks| ==> PrintableHunk(f.hunks[i])
  }

  ghost predicate PrintableFiles(files: seq<File>) {
    forall i :: 0 <= i < |files| ==> PrintableFile(files[i])
  }

  /** UTF-8 decodes what it encoded. */
  ghost predicate Faithful(utf8: Utf8) {
    forall s: string :: utf8.decode(Encode(s, utf8)) == s
  }

  // ---------------------------------------------------------------------------
  // What was printed
  // ---------------------------------------------------------------------------

  function AddedIn(path: string, line: nat, added: seq<string>): (r: seq<Added>)
    ensures |r| == |added| && forall i :: 0 <= i < |r| ==> r[i] == Added(path, line + i, added[i])
  {
    seq(|added|, i requires 0 <= i < |added| => Added(path, line + i, added[i]))
  }

  function AddedInHunks(path: string, hunks: seq<Hunk>): seq<Added> {
    if hunks == [] then [] else AddedIn(path, hunks[0].now.start, hunks[0].added) + AddedInHunks(path, hunks[1..])
  }

  /** Every added line with its number in the new file, in order. */
  function AllAdded(files: seq<File>): seq<Added> {
    if files == [] then []
    else (match PathOf(files[0].target) case None => [] case Some(path) => AddedInHunks(path, files[0].hunks))
         + AllAdded(files[1..])
  }

  function RemovedInHunks(hunks: seq<Hunk>): seq<string> {
    if hunks == [] then [] else hunks[0].removed + RemovedInHunks(hunks[1..])
  }

  /** Every line removed from the file now at `path`, in order. */
  function AllRemoved(files: seq<File>, path: string): seq<string> {
    if files == [] then []
    else (if PathOf(files[0].target) == Some(path) then RemovedInHunks(files[0].hunks) else [])
         + AllRemoved(files[1..], path)
  }

  // ---------------------------------------------------------------------------
  // Reading what was printed
  // ---------------------------------------------------------------------------

  lemma {:induction false} ScanConcat(s: State, a: seq<string>, b: seq<string>, utf8: Utf8)
    ensures Scan(s, a + b, utf8) == match Scan(s, a, utf8) { case None => None case Some(t) => Scan(t, b, utf8) }
    decreases |a|
  {
    if a == [] {
      assert a + b == b;
    } else {
      assert (a + b)[0] == a[0] && (a + b)[1..] == a[1..] + b;
      var next := Step(s, a[0], utf8);
      if next.Some? { ScanConcat(next.value, a[1..], b, utf8); }
    }
  }

  lemma ScanOne(s: State, line: string, utf8: Utf8)
    ensures Scan(s, [line], utf8) == Step(s, line, utf8)
  {
    assert [line][1..] == [];
    var next := Step(s, line, utf8);
    if next.Some? { assert Scan(next.value, [], utf8) == next; }
  }

  ghost function RemovedFrom(removed: map<string, seq<string>>, path: string): seq<string> {
    if path in removed then removed[path] else []
  }

  /** `t` is `s` after `added` and, under `path`, `lines` were read; the file is the same. */
  ghost predicate Moves(s: State, t: State, added: seq<Added>, lines: seq<string>) {
    && t.path == s.path
    && t.added == s.added + added
    && (forall q :: RemovedFrom(t.removed, q) == RemovedFrom(s.removed, q) + (if s.path == Some(q) then lines else []))
    && (forall q :: q in t.removed <==> q in s.removed || (s.path == Some(q) && lines != []))
  }

  lemma MovesTwice(s: State, t: State, u: State, a: seq<Added>, b: seq<Added>, x: seq<string>, y: seq<string>)
    requires Moves(s, t, a, x) && Moves(t, u, b, y)
    ensures Moves(s, u, a + b, x + y)
  {
    assert s.added + a + b == s.added + (a + b);
    forall q
      ensures RemovedFrom(u.removed, q) == RemovedFrom(s.removed, q) + (if s.path == Some(q) then x + y else [])
    {
      assert RemovedFrom(s.removed, q) + x + y == RemovedFrom(s.removed, q) + (x + y);
    }
  }

  /** What a file's lines count for: nothing when it was deleted. */
  ghost function Counted<T>(path: Option<string>, lines: seq<T>): seq<T> {
    if path.None? then [] else lines
  }

  lemma FirstChar(s: string, prefix: string)
    requires prefix != "" && StartsWith(s, prefix)
    ensures s[0] == prefix[0]
  {
    assert s[0] == s[..|prefix|][0];
  }

  /** A line that opens with a mark is taken for no header, whatever follows. */
  lemma MarkedIsContent(s: State, mark: char, line: string, utf8: Utf8)
    requires mark == '+' || mark == '-'
    ensures !StartsWith([mark] + line, "diff --git ") && !StartsWith([mark] + line, "@@")
    ensures StartsWith([mark] + line, [mark]) && ([mark] + line)[1..] == line
    ensures mark == '-' ==> !StartsWith([mark] + line, "+")
  {
    var raw := [mark] + line;
    if StartsWith(raw, "diff --git ") { FirstChar(raw, "diff --git "); }
    if StartsWith(raw, "@@") { FirstChar(raw, "@@"); }
    if StartsWith(raw, "+") { FirstChar(raw, "+"); }
    assert raw[..1] == [mark];
  }

  lemma {:induction false} ScanRemoved(s: State, lines: seq<string>, utf8: Utf8) returns (t: State)
    requires !s.inHeader
    ensures Scan(s, Marked("-", lines), utf8) == Some(t)
    ensures Moves(s, t, [], Counted(s.path, lines)) && t.inHeader == s.inHeader && t.lineno == s.lineno
    decreases |lines|
  {
    if lines == [] {
      t := s;
      assert s.added + [] == s.added;
    } else {
      var marked := Marked("-", lines);
      assert marked[0] == ['-'] + lines[0];
      MarkedIsContent(s, '-', lines[0], utf8);
      assert marked[1..] == Marked("-", lines[1..]);
      var next := Step(s, marked[0], utf8).value;
      t := ScanRemoved(next, lines[1..], utf8);
      assert Moves(s, next, [], Counted(s.path, [lines[0]])) by {
        assert s.added + [] == s.added;
      }
      MovesTwice(s, next, t, [], [], Counted(s.path, [lines[0]]), Counted(s.path, lines[1..]));
      assert [lines[0]] + lines[1..] == lines;
      assert Counted(s.path, [lines[0]]) + Counted(s.path, lines[1..]) == Counted(s.path, lines);
    }
  }

  /** One added line. */
  lemma StepAdded(s: State, line: string, utf8: Utf8)
    requires !s.inHeader
    ensures Step(s, ['+'] + line, utf8).Some?
    ensures var next := Step(s, ['+'] + line, utf8).value;
      next == if s.path.None? then s
              else s.(added := s.added + [Added(s.path.value, s.lineno, line)], lineno := s.lineno + 1)
  {
    MarkedIsContent(s, '+', line, utf8);
  }

  lemma {:induction false} ScanIgnored(s: State, lines: seq<string>, utf8: Utf8)
    requires !s.inHeader && s.path.None?
    ensures Scan(s, Marked("+", lines), utf8) == Some(s)
    decreases |lines|
  {
    if lines != [] {
      var marked := Marked("+", lines);
      assert marked[0] == ['+'] + lines[0] && marked[1..] == Marked("+", lines[1..]);
      StepAdded(s, lines[0], utf8);
      ScanIgnored(s, lines[1..], utf8);
    }
  }

  /** The state after added lines of a hunk in a file with a name. */
  ghost function WithAdded(s: State, lines: seq<string>): State
    requires s.path.Some?
  {
    s.(added := s.added + AddedIn(s.path.value, s.lineno, lines), lineno := s.lineno + |lines|)
  }

  lemma WithAddedRest(s: State, lines: seq<string>)
    requires s.path.Some? && lines != []
    ensures var first := s.(added := s.added + [Added(s.path.value, s.lineno, lines[0])], lineno := s.lineno + 1);
      WithAdded(first, lines[1..]) == WithAdded(s, lines)
  {
    var first, rest := Added(s.path.value, s.lineno, lines[0]), AddedIn(s.path.value, s.lineno + 1, lines[1..]);
    assert AddedIn(s.path.value, s.lineno, lines) == [first] + rest;
    assert s.added + [first] + rest == s.added + ([first] + rest);
  }

  lemma {:induction false} ScanCounted(s: State, lines: seq<string>, utf8: Utf8)
    requires !s.inHeader && s.path.Some?
    ensures Scan(s, Marked("+", lines), utf8) == Some(WithAdded(s, lines))
    decreases |lines|
  {
    if lines == [] {
      assert s.added + [] == s.added;
    } else {
      var marked := Marked("+", lines);
      assert marked[0] == ['+'] + lines[0] && marked[1..] == Marked("+", lines[1..]);
      StepAdded(s, lines[0], utf8);
      WithAddedRest(s, lines);
      ScanCounted(s.(added := s.added + [Added(s.path.value, s.lineno, lines[0])], lineno := s.lineno + 1), lines[1..],
                  utf8);
    }
  }

  lemma ScanAdded(s: State, lines: seq<string>, utf8: Utf8) returns (t: State)
    requires !s.inHeader
    ensures Scan(s, Marked("+", lines), utf8) == Some(t)
    ensures Moves(s, t, if s.path.None? then [] else AddedIn(s.path.value, s.lineno, lines), [])
        && t.inHeader == s.inHeader
  {
    if s.path.None? {
      ScanIgnored(s, lines, utf8);
      t := s;
      assert s.added + [] == s.added;
    } else {
      ScanCounted(s, lines, utf8);
      t := WithAdded(s, lines);
    }
  }

  // --- hunk headers

  lemma DigitsStand(s: string, i: nat, n: nat)
    requires Stands(s, i, Digits(n)) && (i + |Digits(n)| < |s| ==> !IsDigit(s[i + |Digits(n)|]))
    ensures DigitsEnd(s, i) == i + |Digits(n)| && s[i..i + |Digits(n)|] == Digits(n)
  {
    var d := Digits(n);
    assert forall k :: i <= k < i + |d| ==> s[k] == s[i..i + |d|][k - i];
    DigitsEndIs(s, i, i + |d|);
  }

  /** `part` stands in `s` at `i` with a blank after it. */
  ghost predicate StandsAlone(s: string, i: nat, part: string) {
    Stands(s, i, part) && i + |part| < |s| && s[i + |part|] == ' '
  }

  /** A count is read past, and no digit stands where it does. */
  lemma CountStands(s: string, i: nat, count: Option<nat>)
    requires StandsAlone(s, i, PrintCount(count))
    ensures i < |s| && !IsDigit(s[i]) && PastCount(s, i) == i + |PrintCount(count)|
  {
    if count.Some? {
      StandsSplit(s, i, ",", Digits(count.value));
      assert s[i] == s[i..i + 1][0] == ',';
      DigitsStand(s, i + 1, count.value);
      assert s[i + 1] == s[i + 1..i + 1 + |Digits(count.value)|][0];
    }
  }

  /** A printed range is read past, its start first. */
  lemma RangeStands(s: string, i: nat, r: Range)
    requires StandsAlone(s, i, PrintRange(r))
    ensures ReadRange(s, i) == Some((i + |Digits(r.start)|, i + |PrintRange(r)|))
    ensures s[i..i + |Digits(r.start)|] == Digits(r.start)
  {
    StandsSplit(s, i, Digits(r.start), PrintCount(r.count));
    CountStands(s, i + |Digits(r.start)|, r.count);
    DigitsStand(s, i, r.start);
  }

  lemma HunkStartOf(h: Hunk)
    ensures HunkStart(HunkHeader(h)) == Some(h.now.start)
    ensures StartsWith(HunkHeader(h), "@@")
  {
    HeaderParts(HunkHeader(h), PrintRange(h.was), PrintRange(h.now), h.context);
    ReadsRanges(HunkHeader(h), h.was, h.now);
  }

  /** What stands around the ranges of a hunk's header. */
  ghost predicate AroundRanges(raw: string, b: nat, c: nat) {
    StartsWith(raw, "@@ -") && At(raw, b, " +") && At(raw, c, " @@")
  }

  ghost predicate RangesStand(raw: string, was: string, now: string) {
    var b, c := 4 + |was|, 4 + |was| + 2 + |now|;
    AroundRanges(raw, b, c) && StandsAlone(raw, 4, was) && StandsAlone(raw, b + 2, now)
  }

  lemma ReadsRanges(raw: string, was: Range, now: Range)
    requires RangesStand(raw, PrintRange(was), PrintRange(now))
    ensures HunkStart(raw) == Some(now.start)
  {
    var b, c := 4 + |PrintRange(was)|, 4 + |PrintRange(was)| + 2 + |PrintRange(now)|;
    FirstRangeRead(raw, was, PrintRange(now));
    RangeStands(raw, b + 2, now);
    HunkStartIs(raw, 4 + |Digits(was.start)|, b, b + 2 + |Digits(now.start)|, c);
    ParseDigits(now.start);
  }

  lemma FirstRangeRead(raw: string, was: Range, now: string)
    requires RangesStand(raw, PrintRange(was), now)
    ensures ReadRange(raw, 4) == Some((4 + |Digits(was.start)|, 4 + |PrintRange(was)|))
  {
    RangeStands(raw, 4, was);
  }

  lemma HunkStartIs(raw: string, a: nat, b: nat, d: nat, c: nat)
    requires AroundRanges(raw, b, c) && b + 2 <= d <= |raw|
    requires ReadRange(raw, 4) == Some((a, b)) && ReadRange(raw, b + 2) == Some((d, c))
    ensures HunkStart(raw) == Some(ParseNat(raw[b + 2..d]))
  {
  }

  lemma HeaderParts(raw: string, was: string, now: string, context: string)
    requires raw == "@@ -" + was + " +" + now + " @@" + context
    ensures RangesStand(raw, was, now) && StartsWith(raw, "@@")
  {
    var b, c := 4 + |was|, 4 + |was| + 2 + |now|;
    assert raw[..4] == "@@ -" && raw[..2] == "@@";
    assert raw[4..b] == was && raw[b + 2..c] == now;
    assert raw[b..][..2] == " +" && raw[c..][..3] == " @@";
    assert raw[b] == raw[b..][..2][0] && raw[c] == raw[c..][..3][0];
  }

  // --- hunks and files

  /** The mark of a file's unended last line says nothing. */
  lemma UnendedIsNothing(s: State, shown: bool, utf8: Utf8)
    requires !s.inHeader
    ensures Scan(s, if shown then [UNENDED] else [], utf8) == Some(s)
  {
    if shown {
      if StartsWith(UNENDED, "diff --git ") { FirstChar(UNENDED, "diff --git "); }
      if StartsWith(UNENDED, "@@") { FirstChar(UNENDED, "@@"); }
      if StartsWith(UNENDED, "+") { FirstChar(UNENDED, "+"); }
      if StartsWith(UNENDED, "-") { FirstChar(UNENDED, "-"); }
      ScanOne(s, UNENDED, utf8);
    }
  }

  ghost function HunkAdded(path: Option<string>, h: Hunk): seq<Added> {
    if path.None? then [] else AddedIn(path.value, h.now.start, h.added)
  }

  lemma ScanHunkHeader(s: State, h: Hunk, utf8: Utf8)
    ensures Step(s, HunkHeader(h), utf8) == Some(s.(inHeader := false, lineno := h.now.start))
  {
    HunkStartOf(h);
    if StartsWith(HunkHeader(h), "diff --git ") {
      FirstChar(HunkHeader(h), "diff --git ");
      FirstChar(HunkHeader(h), "@@");
    }
    if StartsWith(HunkHeader(h), "+++ ") { FirstChar(HunkHeader(h), "+++ "); FirstChar(HunkHeader(h), "@@"); }
  }

  lemma ScanHunk(s: State, h: Hunk, utf8: Utf8) returns (t: State)
    ensures Scan(s, PrintHunk(h), utf8) == Some(t)
    ensures Moves(s, t, HunkAdded(s.path, h), Counted(s.path, h.removed))
  {
    var header, gone := [HunkHeader(h)], Marked("-", h.removed) + if h.wasUnended then [UNENDED] else [];
    var came := Marked("+", h.added) + if h.nowUnended then [UNENDED] else [];
    ScanConcat(s, header + gone, came, utf8);
    ScanConcat(s, header, gone, utf8);
    ScanHunkHeader(s, h, utf8);
    ScanOne(s, HunkHeader(h), utf8);
    var a := s.(inHeader := false, lineno := h.now.start);
    ScanConcat(a, Marked("-", h.removed), if h.wasUnended then [UNENDED] else [], utf8);
    var b := ScanRemoved(a, h.removed, utf8);
    UnendedIsNothing(b, h.wasUnended, utf8);
    ScanConcat(b, Marked("+", h.added), if h.nowUnended then [UNENDED] else [], utf8);
    t := ScanAdded(b, h.added, utf8);
    UnendedIsNothing(t, h.nowUnended, utf8);
    MovesTwice(a, b, t, [], HunkAdded(s.path, h), Counted(s.path, h.removed), []);
    assert [] + HunkAdded(s.path, h) == HunkAdded(s.path, h);
    assert Counted(s.path, h.removed) + [] == Counted(s.path, h.removed);
  }

  ghost function HunksAdded(path: Option<string>, hunks: seq<Hunk>): seq<Added> {
    if path.None? then [] else AddedInHunks(path.value, hunks)
  }

  lemma {:induction false} ScanHunks(s: State, hunks: seq<Hunk>, utf8: Utf8) returns (t: State)
    ensures Scan(s, PrintHunks(hunks), utf8) == Some(t)
    ensures Moves(s, t, HunksAdded(s.path, hunks), Counted(s.path, RemovedInHunks(hunks)))
    decreases |hunks|
  {
    if hunks == [] {
      t := s;
      assert s.added + [] == s.added;
    } else {
      ScanConcat(s, PrintHunk(hunks[0]), PrintHunks(hunks[1..]), utf8);
      var a := ScanHunk(s, hunks[0], utf8);
      t := ScanHunks(a, hunks[1..], utf8);
      MovesTwice(s, a, t, HunkAdded(s.path, hunks[0]), HunksAdded(s.path, hunks[1..]),
                 Counted(s.path, hunks[0].removed), Counted(s.path, RemovedInHunks(hunks[1..])));
      assert HunkAdded(s.path, hunks[0]) + HunksAdded(s.path, hunks[1..]) == HunksAdded(s.path, hunks);
      assert Counted(s.path, hunks[0].removed) + Counted(s.path, RemovedInHunks(hunks[1..]))
          == Counted(s.path, RemovedInHunks(hunks));
    }
  }

  lemma {:induction false} ScanHeaders(s: State, headers: seq<string>, utf8: Utf8)
    requires s.inHeader && forall i :: 0 <= i < |headers| ==> HeaderLine(headers[i])
    ensures Scan(s, headers, utf8) == Some(s)
    decreases |headers|
  {
    if headers != [] {
      assert HeaderLine(headers[0]);
      ScanHeaders(s, headers[1..], utf8);
    }
  }

  // --- names

  lemma StripOne(s: string, tab: bool)
    requires s != "" && s[|s| - 1] != '\t'
    ensures StripTabs(s + if tab then "\t" else "") == s
  {
    if tab {
      assert (s + "\t")[..|s|] == s;
    } else {
      assert s + "" == s;
    }
  }

  /** A quoted name reads back as what was quoted, however each character was printed. */
  lemma UnquoteQuoted(styled: seq<Styled>, tab: bool, utf8: Utf8)
    requires Faithful(utf8) && forall i :: 0 <= i < |styled| ==> Printable(styled[i].c, styled[i].style)
    ensures Unquote("\"b/" + PrintChars(styled, utf8) + "\"" + (if tab then "\t" else ""), utf8)
            == Some("b/" + NameOf(styled))
  {
    var all := [Styled('b', AsIs), Styled('/', AsIs)] + styled;
    assert all[1..] == [Styled('/', AsIs)] + styled && all[1..][1..] == styled;
    var chars := PrintChars(styled, utf8);
    assert PrintChars(all, utf8) == ['b'] + (['/'] + chars);
    assert NameOf(all) == ['b'] + (['/'] + NameOf(styled));
    var body := "\"" + PrintChars(all, utf8) + "\"";
    assert body == "\"b/" + chars + "\"";
    assert body[1..1 + |PrintChars(all, utf8)|] == PrintChars(all, utf8);
    UnescapePrinted(body, 1, all, utf8);
    StripOne(body, tab);
    assert utf8.decode(Encode(NameOf(all), utf8)) == NameOf(all);
    assert NameOf(all) == "b/" + NameOf(styled);
  }

  lemma UnquotePlain(name: string, utf8: Utf8)
    requires '\t' !in name
    ensures Unquote("b/" + name + (if ' ' in name then "\t" else ""), utf8) == Some("b/" + name)
  {
    var s := "b/" + name;
    assert s[0] == 'b';
    if ' ' in name {
      assert (s + "\t")[..|s|] == s && (s + "\t")[0] == 'b';
    } else {
      assert s + "" == s;
      assert s[|s| - 1] != '\t' by { if name != "" { assert s[|s| - 1] == name[|name| - 1]; } }
    }
  }

  lemma UnquoteTarget(t: Target, printed: string, utf8: Utf8)
    requires Faithful(utf8) && PrintableTarget(t) && !t.Unnamed? && PrintTarget(t, utf8) == ["+++ " + printed]
    ensures match PathOf(t)
            case Some(path) => Unquote(printed, utf8) == Some("b/" + path)
            case None => Unquote(printed, utf8) == Some("/dev/null")
  {
    var line := "+++ " + printed;
    assert line[4..] == printed;
    match t {
      case Plain(name) =>
        var text := "b/" + name + if ' ' in name then "\t" else "";
        assert line == "+++ " + text;
        assert line[4..] == text;
        UnquotePlain(name, utf8);
      case Quoted(styled, tab) =>
        var text := "\"b/" + PrintChars(styled, utf8) + "\"" + if tab then "\t" else "";
        assert line == "+++ " + text;
        assert line[4..] == text;
        UnquoteQuoted(styled, tab, utf8);
      case Deleted =>
        assert line == "+++ " + "/dev/null";
        assert line[4..] == "/dev/null";
    }
  }

  ghost function TargetText(t: Target, utf8: Utf8): string
    requires !t.Unnamed?
  {
    match t
    case Deleted => "/dev/null"
    case Plain(name) => "b/" + name + if ' ' in name then "\t" else ""
    case Quoted(styled, tab) => "\"b/" + PrintChars(styled, utf8) + "\"" + if tab then "\t" else ""
  }

  lemma TargetIsText(t: Target, utf8: Utf8)
    requires !t.Unnamed?
    ensures PrintTarget(t, utf8) == ["+++ " + TargetText(t, utf8)]
  {
    match t {
      case Deleted => assert "+++ " + "/dev/null" == "+++ /dev/null";
      case Plain(name) =>
        assert "+++ b/" + name + (if ' ' in name then "\t" else "") == "+++ " + TargetText(t, utf8);
      case Quoted(styled, tab) =>
        assert "+++ \"b/" + PrintChars(styled, utf8) + "\"" + (if tab then "\t" else "")
            == "+++ " + TargetText(t, utf8);
    }
  }

  lemma ScanTarget(s: State, t: Target, utf8: Utf8)
    requires s.inHeader && s.path == None && Faithful(utf8) && PrintableTarget(t)
    ensures Scan(s, PrintTarget(t, utf8), utf8) == Some(s.(path := PathOf(t)))
  {
    if !t.Unnamed? {
      TargetIsText(t, utf8);
      var text := TargetText(t, utf8);
      var line := "+++ " + text;
      UnquoteTarget(t, text, utf8);
      assert line[4..] == text && line[..4] == "+++ ";
      if StartsWith(line, "diff --git ") { FirstChar(line, "diff --git "); FirstChar(line, "+++ "); }
      ScanOne(s, line, utf8);
      match PathOf(t) {
        case Some(path) => assert ("b/" + path)[..2] == "b/" && ("b/" + path)[2..] == path;
        case None => assert !StartsWith("/dev/null", "b/");
      }
    }
  }

  /** What reading files adds to a state. */
  ghost predicate Reads(s: State, t: State, files: seq<File>) {
    t.added == s.added + AllAdded(files) && forall q :: ReadsUnder(s, t, q, AllRemoved(files, q))
  }

  ghost predicate ReadsUnder(s: State, t: State, q: string, lines: seq<string>) {
    && RemovedFrom(t.removed, q) == RemovedFrom(s.removed, q) + lines
    && (q in t.removed <==> q in s.removed || lines != [])
  }

  lemma ReadsUnderTwice(s: State, t: State, u: State, q: string, a: seq<string>, b: seq<string>)
    requires ReadsUnder(s, t, q, a) && ReadsUnder(t, u, q, b)
    ensures ReadsUnder(s, u, q, a + b)
  {
    assert RemovedFrom(s.removed, q) + a + b == RemovedFrom(s.removed, q) + (a + b);
  }

  lemma ScanFile(s: State, f: File, utf8: Utf8) returns (t: State)
    requires Faithful(utf8) && PrintableFile(f)
    ensures Scan(s, PrintFile(f, utf8), utf8) == Some(t)
    ensures Reads(s, t, [f])
  {
    var git, a := "diff --git " + f.git, s.(inHeader := true, path := None);
    assert git[..11] == "diff --git ";
    ScanConcat(s, [git] + f.headers + PrintTarget(f.target, utf8), PrintHunks(f.hunks), utf8);
    ScanConcat(s, [git] + f.headers, PrintTarget(f.target, utf8), utf8);
    ScanConcat(s, [git], f.headers, utf8);
    ScanOne(s, git, utf8);
    ScanHeaders(a, f.headers, utf8);
    ScanTarget(a, f.target, utf8);
    var b := a.(path := PathOf(f.target));
    t := ScanHunks(b, f.hunks, utf8);
    assert [f][1..] == [];
    assert AllAdded([f]) == HunksAdded(b.path, f.hunks) + [];
    forall q ensures AllRemoved([f], q) == if b.path == Some(q) then RemovedInHunks(f.hunks) else [] {
      assert AllRemoved([f], q) == (if b.path == Some(q) then RemovedInHunks(f.hunks) else []) + AllRemoved([], q);
    }
  }

  lemma FilesSplit(first: File, rest: seq<File>)
    ensures AllAdded([first] + rest) == AllAdded([first]) + AllAdded(rest)
    ensures forall q :: AllRemoved([first] + rest, q) == AllRemoved([first], q) + AllRemoved(rest, q)
  {
    var files := [first] + rest;
    assert files[1..] == rest && [first][1..] == [];
    assert AllAdded([first]) == AllAdded([first]) + [];
    forall q ensures AllRemoved(files, q) == AllRemoved([first], q) + AllRemoved(rest, q) {
      var own := if PathOf(first.target) == Some(q) then RemovedInHunks(first.hunks) else [];
      assert AllRemoved([first], q) == own + [];
    }
  }

  lemma ReadsTwice(s: State, t: State, u: State, first: File, rest: seq<File>)
    requires Reads(s, t, [first]) && Reads(t, u, rest)
    ensures Reads(s, u, [first] + rest)
  {
    FilesSplit(first, rest);
    assert s.added + AllAdded([first]) + AllAdded(rest) == s.added + (AllAdded([first]) + AllAdded(rest));
    forall q ensures ReadsUnder(s, u, q, AllRemoved([first] + rest, q)) {
      ReadsUnderTwice(s, t, u, q, AllRemoved([first], q), AllRemoved(rest, q));
    }
  }

  lemma {:induction false} ScanFiles(s: State, files: seq<File>, utf8: Utf8) returns (t: State)
    requires Faithful(utf8) && PrintableFiles(files)
    ensures Scan(s, PrintFiles(files, utf8), utf8) == Some(t)
    ensures Reads(s, t, files)
    decreases |files|
  {
    if files == [] {
      t := s;
      assert s.added + [] == s.added;
    } else {
      assert PrintableFile(files[0]);
      ScanConcat(s, PrintFile(files[0], utf8), PrintFiles(files[1..], utf8), utf8);
      var a := ScanFile(s, files[0], utf8);
      t := ScanFiles(a, files[1..], utf8);
      ReadsTwice(s, a, t, files[0], files[1..]);
      assert files == [files[0]] + files[1..];
    }
  }

  // --- lines

  ghost predicate OneLiners(lines: seq<string>) {
    forall i :: 0 <= i < |lines| ==> OneLine(lines[i])
  }

  lemma {:induction false} CharsOneLine(styled: seq<Styled>, utf8: Utf8)
    requires forall i :: 0 <= i < |styled| ==> Printable(styled[i].c, styled[i].style)
    ensures OneLine(PrintChars(styled, utf8))
  {
    if styled != [] {
      CharsOneLine(styled[1..], utf8);
      if styled[0].style.InOctal? { BytesOneLine(utf8.encode(styled[0].c)); }
    }
  }

  lemma {:induction false} BytesOneLine(bytes: seq<Byte>)
    ensures OneLine(PrintBytes(bytes))
  {
    if bytes != [] { BytesOneLine(bytes[1..]); }
  }

  lemma HunkOneLiners(h: Hunk)
    requires PrintableHunk(h)
    ensures OneLiners(PrintHunk(h))
  {
    RangeOneLine(h.was);
    RangeOneLine(h.now);
    assert OneLine(HunkHeader(h));
    assert forall i :: 0 <= i < |h.removed| ==> OneLine(Marked("-", h.removed)[i]);
    assert forall i :: 0 <= i < |h.added| ==> OneLine(Marked("+", h.added)[i]);
    assert OneLine(UNENDED);
  }

  lemma RangeOneLine(r: Range)
    ensures OneLine(PrintRange(r))
  {
  }

  lemma {:induction false} HunksOneLiners(hunks: seq<Hunk>)
    requires forall i :: 0 <= i < |hunks| ==> PrintableHunk(hunks[i])
    ensures OneLiners(PrintHunks(hunks))
  {
    if hunks != [] {
      HunkOneLiners(hunks[0]);
      HunksOneLiners(hunks[1..]);
    }
  }

  lemma {:induction false} FilesOneLiners(files: seq<File>, utf8: Utf8)
    requires PrintableFiles(files)
    ensures OneLiners(PrintFiles(files, utf8))
  {
    if files != [] {
      assert PrintableFile(files[0]);
      FileOneLiners(files[0], utf8);
      FilesOneLiners(files[1..], utf8);
    }
  }

  lemma FileOneLiners(f: File, utf8: Utf8)
    requires PrintableFile(f)
    ensures OneLiners(PrintFile(f, utf8))
  {
    HunksOneLiners(f.hunks);
    if f.target.Quoted? { CharsOneLine(f.target.styled, utf8); }
    assert OneLiners(PrintTarget(f.target, utf8));
    assert OneLiners(["diff --git " + f.git] + f.headers);
  }

  /** Reading undoes printing: for any files and hunks, names plain or quoted in any way, the scan gives exactly the
      added lines with their new-file numbers and, under each path something was removed from, the removed lines,
      whatever the lines look like. */
  lemma ReadingUndoesPrinting(files: seq<File>, utf8: Utf8)
    requires Faithful(utf8) && PrintableFiles(files)
    ensures var r := Parse(Print(files, utf8), utf8);
            && r.Some?
            && r.value.added == AllAdded(files)
            && (forall q :: q in r.value.removed <==> AllRemoved(files, q) != [])
            && (forall q :: q in r.value.removed ==> r.value.removed[q] == AllRemoved(files, q))
  {
    var lines := PrintFiles(files, utf8);
    FilesOneLiners(files, utf8);
    SplitEnded(lines);
    ScanConcat(START, lines, [""], utf8);
    var t := ScanFiles(START, files, utf8);
    ScanOne(t, "", utf8);
    assert START.added + AllAdded(files) == AllAdded(files);
    forall q ensures RemovedFrom(t.removed, q) == AllRemoved(files, q) {
      assert [] + AllRemoved(files, q) == AllRemoved(files, q);
    }
  }
}
