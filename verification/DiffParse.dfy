/** Reading a `git diff -U0` (scripts/check_added_chinese.py, `parse_diff` and `_unquote`), and that reading undoes
    printing. */
module DiffParse {
  import opened Wrappers
  import opened Text

  type Byte = x: int | 0 <= x < 256

  /** UTF-8, as far as names need it. */
  datatype Utf8 = Utf8(encode: char -> seq<Byte>, decode: seq<Byte> -> string)

  // ---------------------------------------------------------------------------
  // Names
  // ---------------------------------------------------------------------------

  predicate IsOctal(c: char) {
    '0' <= c <= '7'
  }

  /** What a letter after a backslash stands for: one of the escapes, or itself. */
  function Escaped(c: char): char {
    if c == 'a' then '\U{0007}' else if c == 'b' then '\U{0008}' else if c == 'f' then '\U{000C}'
    else if c == 'n' then '\n' else if c == 'r' then '\r' else if c == 't' then '\t' else if c == 'v' then '\U{000B}'
    else c
  }

  function OctalValue(s: string): int
    requires |s| == 3 && forall i :: 0 <= i < 3 ==> IsOctal(s[i])
  {
    (s[0] as int - 48) * 64 + (s[1] as int - 48) * 8 + (s[2] as int - 48)
  }

  function Prepend(bytes: seq<Byte>, rest: Option<seq<Byte>>): Option<seq<Byte>> {
    if rest.None? then None else Some(bytes + rest.value)
  }

  lemma PrependTwice(a: seq<Byte>, b: seq<Byte>, rest: Option<seq<Byte>>)
    ensures Prepend(a, Prepend(b, rest)) == Prepend(a + b, rest)
  {
    if rest.Some? { assert a + (b + rest.value) == a + b + rest.value; }
  }

  /** The bytes of a quoted name from `i` to its closing quote; None where the original raises. */
  function Unescape(body: string, i: nat, utf8: Utf8): Option<seq<Byte>>
    decreases |body| - i
  {
    if i + 1 >= |body| then Some([])
    else if body[i] == '\\' && i + 2 < |body| then
      if IsOctal(body[i + 1]) then
        if i + 4 > |body| || !(forall k :: i + 1 <= k < i + 4 ==> IsOctal(body[k])) then None
        else
          var value := OctalValue(body[i + 1..i + 4]);
          if value > 255 then None else Prepend([value], Unescape(body, i + 4, utf8))
      else Prepend(utf8.encode(Escaped(body[i + 1])), Unescape(body, i + 2, utf8))
    else Prepend(utf8.encode(body[i]), Unescape(body, i + 1, utf8))
  }

  function StripTabs(s: string): string {
    if s != "" && s[|s| - 1] == '\t' then StripTabs(s[..|s| - 1]) else s
  }

  /** A path as it stands on a `+++ ` line. */
  function Unquote(name: string, utf8: Utf8): Option<string> {
    if name == "" || name[0] != '\"' then
      Some(if name != "" && name[|name| - 1] == '\t' then name[..|name| - 1] else name)
    else
      match Unescape(StripTabs(name), 1, utf8)
      case None => None
      case Some(raw) => Some(utf8.decode(raw))
  }

  /** The loop over a quoted name. */
  method UnquoteLoop(body: string, utf8: Utf8) returns (raw: Option<seq<Byte>>)
    ensures raw == Unescape(body, 1, utf8)
  {
    var bytes: seq<Byte> := [];
    var i := 1;
    if Unescape(body, 1, utf8).Some? { assert [] + Unescape(body, 1, utf8).value == Unescape(body, 1, utf8).value; }
    while i + 1 < |body|
      invariant Unescape(body, 1, utf8) == Prepend(bytes, Unescape(body, i, utf8))
      decreases |body| - i
    {
      var c := body[i];
      if c == '\\' && i + 2 < |body| {
        if IsOctal(body[i + 1]) {
          if i + 4 > |body| || exists k :: i + 1 <= k < i + 4 && !IsOctal(body[k]) {
            return None;
          }
          var value := OctalValue(body[i + 1..i + 4]);
          if value > 255 {
            return None;
          }
          PrependTwice(bytes, [value], Unescape(body, i + 4, utf8));
          bytes := bytes + [value];
          i := i + 4;
        } else {
          PrependTwice(bytes, utf8.encode(Escaped(body[i + 1])), Unescape(body, i + 2, utf8));
          bytes := bytes + utf8.encode(Escaped(body[i + 1]));
          i := i + 2;
        }
      } else {
        PrependTwice(bytes, utf8.encode(c), Unescape(body, i + 1, utf8));
        bytes := bytes + utf8.encode(c);
        i := i + 1;
      }
    }
    assert bytes + [] == bytes;
    return Some(bytes);
  }

  // ---------------------------------------------------------------------------
  // Hunk headers
  // ---------------------------------------------------------------------------

  /** Past `,` and digits at `i`, if they are there. */
  function PastCount(s: string, i: nat): (end: nat)
    requires i <= |s|
    ensures i <= end <= |s|
  {
    if i + 1 < |s| && s[i] == ',' && IsDigit(s[i + 1]) then DigitsEnd(s, i + 1) else i
  }

  function At(s: string, i: nat, part: string): bool {
    i <= |s| && StartsWith(s[i..], part)
  }

  /** Where a range's start ends, and where its count does: the count is left out, or a comma and digits. */
  function ReadRange(s: string, i: nat): (r: Option<(nat, nat)>)
    requires i <= |s|
    ensures r.Some? ==> i < r.value.0 <= r.value.1 <= |s|
  {
    var a := DigitsEnd(s, i);
    if a == i then None else Some((a, PastCount(s, a)))
  }

  /** The new file's first line of a hunk header. */
  function HunkStart(raw: string): Option<nat> {
    if !StartsWith(raw, "@@ -") then None
    else
      match ReadRange(raw, 4)
      case None => None
      case Some((_, b)) =>
        if !At(raw, b, " +") then None
        else
          match ReadRange(raw, b + 2)
          case None => None
          case Some((c, d)) => if At(raw, d, " @@") then Some(ParseNat(raw[b + 2..c])) else None
  }

  // ---------------------------------------------------------------------------
  // The scan
  // ---------------------------------------------------------------------------

  datatype Added = Added(path: string, line: nat, text: string)

  datatype State = State(
    added: seq<Added>,
    removed: map<string, seq<string>>,
    path: Option<string>,
    lineno: nat,
    inHeader: bool)

  const START := State([], map[], None, 0, false)

  function AppendTo(removed: map<string, seq<string>>, path: string, line: string): map<string, seq<string>> {
    removed[path := (if path in removed then removed[path] else []) + [line]]
  }

  /** One line; None where the original raises. */
  function Step(s: State, raw: string, utf8: Utf8): Option<State> {
    if StartsWith(raw, "diff --git ") then Some(s.(inHeader := true, path := None))
    else if s.inHeader && StartsWith(raw, "+++ ") then
      var target := Unquote(raw[4..], utf8);
      if target.None? then None
      else Some(s.(path := if StartsWith(target.value, "b/") then Some(target.value[2..]) else None))
    else if s.inHeader && !StartsWith(raw, "@@") then Some(s)
    else if StartsWith(raw, "@@") then
      var start := HunkStart(raw);
      Some(s.(inHeader := false, lineno := if start.Some? then start.value else 0))
    else if s.path.None? then Some(s)
    else if StartsWith(raw, "+") then
      Some(s.(added := s.added + [Added(s.path.value, s.lineno, raw[1..])], lineno := s.lineno + 1))
    else if StartsWith(raw, "-") then Some(s.(removed := AppendTo(s.removed, s.path.value, raw[1..])))
    else Some(s)
  }

  function Scan(s: State, lines: seq<string>, utf8: Utf8): Option<State>
    decreases |lines|
  {
    if lines == [] then Some(s)
    else
      var next := Step(s, lines[0], utf8);
      if next.None? then None else Scan(next.value, lines[1..], utf8)
  }

  function Parse(diff: string, utf8: Utf8): Option<State> {
    Scan(START, SplitLines(diff), utf8)
  }

  method ParseDiff(diff: string, utf8: Utf8)
    returns (ok: bool, added: seq<Added>, removed: map<string, seq<string>>)
    ensures ok <==> Parse(diff, utf8).Some?
    ensures ok ==> added == Parse(diff, utf8).value.added && removed == Parse(diff, utf8).value.removed
  {
    ok, added, removed := true, [], map[];
    var path: Option<string>, lineno, inHeader := None, 0, false;
    var lines := SplitLines(diff);
    for i := 0 to |lines|
      invariant lineno >= 0
      invariant Scan(START, lines, utf8) == Scan(State(added, removed, path, lineno, inHeader), lines[i..], utf8)
    {
      var raw := lines[i];
      assert lines[i..][0] == raw && lines[i..][1..] == lines[i + 1..];
      if StartsWith(raw, "diff --git ") {
        inHeader, path := true, None;
      } else if inHeader && StartsWith(raw, "+++ ") {
        var target := Unquote(raw[4..], utf8);
        if target.None? {
          return false, [], map[];
        }
        path := if StartsWith(target.value, "b/") then Some(target.value[2..]) else None;
      } else if inHeader && !StartsWith(raw, "@@") {
        continue;
      } else if StartsWith(raw, "@@") {
        inHeader := false;
        var start := HunkStart(raw);
        lineno := if start.Some? then start.value else 0;
      } else if path.None? {
        continue;
      } else if StartsWith(raw, "+") {
        added := added + [Added(path.value, lineno, raw[1..])];
        lineno := lineno + 1;
      } else if StartsWith(raw, "-") {
        removed := AppendTo(removed, path.value, raw[1..]);
      }
    }
  }
}
