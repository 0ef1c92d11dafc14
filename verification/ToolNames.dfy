/** Function names every provider takes, and the way back (arslan/llm/tool_names.py). */
module ToolNames {
  import opened Wrappers

  /** Any digest of eight hex digits will do. */
  type Hex8 = s: string | |s| == 8 && forall i :: 0 <= i < 8 ==> IsHex(s[i]) witness "00000000"

  type Digest = string -> Hex8

  const SUFFIX := 10
  const LONGEST := 64

  predicate IsHex(c: char) {
    '0' <= c <= '9' || 'a' <= c <= 'f'
  }

  predicate IsFirst(c: char) {
    'A' <= c <= 'Z' || 'a' <= c <= 'z' || c == '_'
  }

  predicate IsAllowed(c: char) {
    IsFirst(c) || '0' <= c <= '9' || c == '-'
  }

  /** What all providers take. */
  predicate Taken(s: string) {
    1 <= |s| <= LONGEST && IsFirst(s[0]) && forall i :: 0 <= i < |s| ==> IsAllowed(s[i])
  }

  /** Ends as a new name does: `_h` and eight hex digits. */
  predicate Renamed(s: string) {
    |s| >= SUFFIX && s[|s| - 10] == '_' && s[|s| - 9] == 'h' && forall i :: |s| - 8 <= i < |s| ==> IsHex(s[i])
  }

  predicate Kept(key: string) {
    Taken(key) && !Renamed(key)
  }

  function Cleaned(key: string): (r: string)
    ensures 1 <= |r| ==> forall i :: 0 <= i < |r| ==> IsAllowed(r[i])
    ensures |r| >= 1 && IsFirst(r[0])
  {
    var r := seq(|key|, i requires 0 <= i < |key| => if IsAllowed(key[i]) then key[i] else '_');
    if r != [] && IsFirst(r[0]) then r else "_" + r
  }

  function Cut(s: string): string {
    if |s| <= LONGEST - SUFFIX then s else s[..LONGEST - SUFFIX]
  }

  /** The name `key` goes by on every provider. */
  function Wire(key: string, digest: Digest): string {
    if Kept(key) then key else Cut(Cleaned(key)) + "_h" + digest(key)
  }

  // ---------------------------------------------------------------------------
  // Names on the wire
  // ---------------------------------------------------------------------------

  /** Every name is one all providers take, and a name that is not the key itself ends like a new name, so a key
      sent unchanged never equals another key's new name. */
  lemma WireIsTaken(key: string, digest: Digest)
    ensures Taken(Wire(key, digest))
    ensures !Kept(key) ==> Renamed(Wire(key, digest))
  {
    if !Kept(key) {
      var text, hex := Cut(Cleaned(key)), digest(key);
      var name := text + "_h" + hex;
      assert name == Wire(key, digest) && |name| == |text| + 10;
      assert forall i :: 0 <= i < |text| ==> name[i] == text[i];
      assert name[|text|] == '_' && name[|text| + 1] == 'h';
      assert forall i :: 0 <= i < 8 ==> name[|text| + 2 + i] == hex[i];
      forall i | 0 <= i < |name| ensures IsAllowed(name[i]) {
        if i >= |text| + 2 { assert IsHex(name[|text| + 2 + (i - |text| - 2)]); }
      }
    }
  }

  /** A key all providers take is sent as it is, unless it ends like a new name; any other keeps, as far as there is
      room, every character they take, a `_` in front where it does not start like a name and one for each other. */
  lemma WireResembles(key: string, digest: Digest)
    ensures Kept(key) ==> Wire(key, digest) == key
    ensures !Kept(key) ==>
      var name, shift := Wire(key, digest), if key != "" && (IsFirst(key[0]) || !IsAllowed(key[0])) then 0 else 1;
      && |name| == (if |key| + shift <= LONGEST - SUFFIX then |key| + shift else LONGEST - SUFFIX) + SUFFIX
      && (shift == 1 ==> name[0] == '_')
      && (forall i :: 0 <= i < |key| && i + shift < |name| - SUFFIX ==>
            name[i + shift] == if IsAllowed(key[i]) then key[i] else '_')
      && name[|name| - 8..] == digest(key)
  {
    if !Kept(key) {
      var text := Cut(Cleaned(key));
      assert forall i :: 0 <= i < |text| ==> Wire(key, digest)[i] == text[i];
      CutIsCleaned(key);
    }
  }

  lemma CutIsCleaned(key: string)
    ensures var text, shift := Cut(Cleaned(key)), if key != "" && (IsFirst(key[0]) || !IsAllowed(key[0])) then 0 else 1;
      && |text| == (if |key| + shift <= LONGEST - SUFFIX then |key| + shift else LONGEST - SUFFIX)
      && (shift == 1 ==> text[0] == '_')
      && (forall i :: 0 <= i < |key| && i + shift < |text| ==>
            text[i + shift] == if IsAllowed(key[i]) then key[i] else '_')
  {
  }

  lemma KeptIsNobodysNewName(kept: string, other: string, digest: Digest)
    requires Kept(kept) && other != kept
    ensures Wire(other, digest) != Wire(kept, digest)
  {
    WireIsTaken(other, digest);
  }

  /** Two keys share a name exactly when both are renamed, clean to the same text as far as it is kept, and share
      their digest. */
  lemma SharedNameIff(a: string, b: string, digest: Digest)
    requires a != b
    ensures Wire(a, digest) == Wire(b, digest)
            <==> !Kept(a) && !Kept(b) && Cut(Cleaned(a)) == Cut(Cleaned(b)) && digest(a) == digest(b)
  {
    WireIsTaken(a, digest);
    WireIsTaken(b, digest);
    if Wire(a, digest) == Wire(b, digest) && !Kept(a) && !Kept(b) {
      var name := Wire(a, digest);
      var n := |name| - 10;
      assert |Cut(Cleaned(a))| == n && |Cut(Cleaned(b))| == n;
      assert name[..n] == Cut(Cleaned(a)) && name[..n] == Cut(Cleaned(b));
      assert name[n + 2..] == digest(a) && name[n + 2..] == digest(b);
    }
  }

  // ---------------------------------------------------------------------------
  // One request's names
  // ---------------------------------------------------------------------------

  /** A tool, or an entry of the list that has no function name. */
  datatype Tool = Function(name: string, body: string) | NoFunction(body: string)

  /** A tool with this key goes by `name`. */
  ghost predicate GoesBy(tools: seq<Tool>, key: string, name: string, digest: Digest) {
    (exists t :: t in tools && t.Function? && t.name == key) && Wire(key, digest) == name
  }

  ghost predicate SharedName(tools: seq<Tool>, name: string, digest: Digest) {
    exists a, b :: a != b && GoesBy(tools, a, name, digest) && GoesBy(tools, b, name, digest)
  }

  /** The list as sent: each function under its wire name, a shared name for neither. */
  ghost function Sent(tools: seq<Tool>, all: seq<Tool>, digest: Digest): seq<Tool> {
    if tools == [] then []
    else
      var before, t := Sent(tools[..|tools| - 1], all, digest), tools[|tools| - 1];
      if t.NoFunction? then before + [t]
      else if SharedName(all, Wire(t.name, digest), digest) then before
      else before + [t.(name := Wire(t.name, digest))]
  }

  /** `back` leads from each name exactly one key goes by to that key; `shared` holds the others. */
  ghost predicate Exact(tools: seq<Tool>, back: map<string, string>, shared: set<string>, digest: Digest) {
    && (forall name :: name in shared <==> SharedName(tools, name, digest))
    && (forall key, name :: GoesBy(tools, key, name, digest) && name !in shared ==> name in back && back[name] == key)
    && (forall name :: name in back ==> name !in shared && GoesBy(tools, back[name], name, digest))
  }

  /** While the list is read: `back` has the first key under each name, `shared` the names with another. */
  ghost predicate FirstCome(read: seq<Tool>, back: map<string, string>, shared: set<string>, digest: Digest) {
    && (forall key, name :: GoesBy(read, key, name, digest) ==> name in back && (back[name] == key || name in shared))
    && (forall name :: name in back ==> GoesBy(read, back[name], name, digest))
    && (forall name :: name in shared ==> SharedName(read, name, digest))
  }

  lemma GoesByMore(read: seq<Tool>, t: Tool, key: string, name: string, digest: Digest)
    ensures GoesBy(read + [t], key, name, digest) <==>
      GoesBy(read, key, name, digest) || (t.Function? && t.name == key && Wire(key, digest) == name)
  {
    assert forall u :: u in read + [t] <==> u in read || u == t;
  }

  lemma SharedMore(read: seq<Tool>, t: Tool, name: string, digest: Digest)
    requires SharedName(read, name, digest)
    ensures SharedName(read + [t], name, digest)
  {
    var a, b :| a != b && GoesBy(read, a, name, digest) && GoesBy(read, b, name, digest);
    GoesByMore(read, t, a, name, digest);
    GoesByMore(read, t, b, name, digest);
  }

  /** The first key met under a name keeps it; a name that meets another key is shared. */
  function Set(back: map<string, string>, name: string, key: string): map<string, string> {
    if name in back then back else back[name := key]
  }

  function Add(back: map<string, string>, shared: set<string>, name: string, key: string): set<string> {
    if name in back && back[name] != key then shared + {name} else shared
  }

  lemma FirstComeNext(read: seq<Tool>, t: Tool, back: map<string, string>, shared: set<string>, digest: Digest)
    requires FirstCome(read, back, shared, digest)
    ensures t.NoFunction? ==> FirstCome(read + [t], back, shared, digest)
    ensures t.Function? ==>
      var name := Wire(t.name, digest);
      FirstCome(read + [t], Set(back, name, t.name), Add(back, shared, name, t.name), digest)
  {
    var more := read + [t];
    forall key, name
      ensures GoesBy(more, key, name, digest) <==>
        GoesBy(read, key, name, digest) || (t.Function? && t.name == key && Wire(key, digest) == name)
    {
      GoesByMore(read, t, key, name, digest);
    }
    forall name | name in shared ensures SharedName(more, name, digest) {
      SharedMore(read, t, name, digest);
    }
    if t.Function? { KeyNext(more, t.name, back, shared, digest); }
  }

  lemma KeyNext(more: seq<Tool>, key: string, back: map<string, string>, shared: set<string>, digest: Digest)
    requires forall k, n :: GoesBy(more, k, n, digest) && (k != key || n != Wire(key, digest)) ==>
      n in back && (back[n] == k || n in shared)
    requires forall n :: n in back ==> GoesBy(more, back[n], n, digest)
    requires forall n :: n in shared ==> SharedName(more, n, digest)
    requires GoesBy(more, key, Wire(key, digest), digest)
    ensures FirstCome(more, Set(back, Wire(key, digest), key), Add(back, shared, Wire(key, digest), key), digest)
  {
    var name := Wire(key, digest);
    if name in back && back[name] != key {
      assert GoesBy(more, back[name], name, digest);
      assert SharedName(more, name, digest);
    }
  }

  lemma FirstComeIsExact(tools: seq<Tool>, back: map<string, string>, shared: set<string>, digest: Digest)
    requires FirstCome(tools, back, shared, digest)
    ensures Exact(tools, map name | name in back && name !in shared :: back[name], shared, digest)
  {
  }

  method Collect(tools: seq<Tool>, digest: Digest) returns (back: map<string, string>, shared: set<string>)
    ensures Exact(tools, back, shared, digest)
  {
    back, shared := map[], {};
    for i := 0 to |tools|
      invariant FirstCome(tools[..i], back, shared, digest)
    {
      FirstComeNext(tools[..i], tools[i], back, shared, digest);
      assert tools[..i + 1] == tools[..i] + [tools[i]];
      if tools[i].Function? {
        var key, name := tools[i].name, Wire(tools[i].name, digest);
        if name !in back {
          back := back[name := key];
        } else if back[name] != key {
          shared := shared + {name};
        }
      }
    }
    assert tools[..|tools|] == tools;
    FirstComeIsExact(tools, back, shared, digest);
    back := map name | name in back && name !in shared :: back[name];
  }

  /** A call of a reply, or an entry of its list that has no function name. */
  datatype Call = Call(name: string, body: string) | NoCall(body: string)

  class Names {
    const back: map<string, string>
    const shared: set<string>
    ghost const tools: seq<Tool>
    const digest: Digest

    ghost predicate Valid() {
      Exact(tools, back, shared, digest)
    }

    constructor (tools: seq<Tool>, digest: Digest)
      ensures Valid() && this.tools == tools && this.digest == digest
    {
      this.tools, this.digest := tools, digest;
      var b, s := Collect(tools, digest);
      back, shared := b, s;
    }

    /** The key a call by `name` means: the tool sent under it, else `name` itself. */
    function Real(name: string): string
    {
      if name in back then back[name] else name
    }

    /** A list as it is sent, whichever list these names were made from. */
    method SentTools(list: seq<Tool>) returns (out: seq<Tool>)
      requires Valid()
      ensures out == Sent(list, tools, digest)
    {
      out := [];
      for i := 0 to |list|
        invariant out == Sent(list[..i], tools, digest)
      {
        assert list[..i + 1][..i] == list[..i];
        var t := list[i];
        if t.NoFunction? {
          out := out + [t];
        } else if Wire(t.name, digest) !in shared {
          out := out + [t.(name := Wire(t.name, digest))];
        }
      }
      assert list[..|list|] == list;
    }

    /** The reply's calls under the keys they mean. */
    method Reply(calls: seq<Call>) returns (out: seq<Call>)
      ensures |out| == |calls|
      ensures forall i :: 0 <= i < |out| ==>
        out[i] == if calls[i].Call? then calls[i].(name := Real(calls[i].name)) else calls[i]
    {
      out := [];
      for i := 0 to |calls|
        invariant |out| == i
        invariant forall j :: 0 <= j < i ==>
          out[j] == if calls[j].Call? then calls[j].(name := Real(calls[j].name)) else calls[j]
      {
        var call := calls[i];
        if call.Call? && Real(call.name) != call.name {
          call := call.(name := Real(call.name));
        }
        out := out + [call];
      }
    }
  }

  /** The history's calls, and what answers them, as sent. */
  function RenameCalls(calls: seq<Call>, digest: Digest): (out: seq<Call>)
    ensures |out| == |calls|
  {
    seq(|calls|, i requires 0 <= i < |calls| =>
      if calls[i].Call? then calls[i].(name := Wire(calls[i].name, digest)) else calls[i])
  }

  // ---------------------------------------------------------------------------
  // There and back
  // ---------------------------------------------------------------------------

  /** What is sent: names providers take, each for a tool of the list whose name is not shared, in order. */
  lemma {:induction false} SentFacts(tools: seq<Tool>, all: seq<Tool>, digest: Digest)
    requires forall t :: t in tools ==> t in all
    ensures forall t :: t in Sent(tools, all, digest) && t.Function? ==>
      && Taken(t.name) && !SharedName(all, t.name, digest) && exists key :: GoesBy(all, key, t.name, digest)
    ensures forall t :: t in tools && t.Function? && !SharedName(all, Wire(t.name, digest), digest) ==>
      t.(name := Wire(t.name, digest)) in Sent(tools, all, digest)
  {
    if tools != [] {
      var before, last := tools[..|tools| - 1], tools[|tools| - 1];
      SentFacts(before, all, digest);
      assert tools == before + [last];
      if last.Function? {
        WireIsTaken(last.name, digest);
        assert GoesBy(all, last.name, Wire(last.name, digest), digest);
      }
    }
  }

  /** The list is sent tool by tool, in order: one without a function as it is, one whose name is shared not at all, any
      other under its name. */
  lemma {:induction false} SentInOrder(before: seq<Tool>, t: Tool, rest: seq<Tool>, all: seq<Tool>, digest: Digest)
    ensures Sent(before + [t] + rest, all, digest)
      == Sent(before, all, digest)
         + (if t.NoFunction? then [t]
            else if SharedName(all, Wire(t.name, digest), digest) then [] else [t.(name := Wire(t.name, digest))])
         + Sent(rest, all, digest)
    decreases |rest|
  {
    if rest == [] {
      assert before + [t] + rest == before + [t] && (before + [t])[..|before|] == before;
      assert Sent(before + [t], all, digest) == Sent(before + [t], all, digest) + [];
    } else {
      var init, last := rest[..|rest| - 1], rest[|rest| - 1];
      assert (before + [t] + rest)[..|before + [t] + rest| - 1] == before + [t] + init;
      SentInOrder(before, t, init, all, digest);
    }
  }

  /** For any tool list and any digest: a sent name belongs to one key only, and a call by it means that key. */
  lemma CallsMeanTheirTool(names: Names, t: Tool)
    requires names.Valid() && t in Sent(names.tools, names.tools, names.digest) && t.Function?
    ensures GoesBy(names.tools, names.Real(t.name), t.name, names.digest)
    ensures forall key :: GoesBy(names.tools, key, t.name, names.digest) ==> key == names.Real(t.name)
    ensures Wire(names.Real(t.name), names.digest) == t.name
  {
    SentFacts(names.tools, names.tools, names.digest);
  }

  /** A tool whose name is shared is not sent, and every other one is, under a name that leads back to it. */
  lemma EveryOtherToolIsSent(names: Names, t: Tool)
    requires names.Valid() && t in names.tools && t.Function?
    ensures var name := Wire(t.name, names.digest);
            if SharedName(names.tools, name, names.digest)
            then names.Real(name) == name
              && forall u :: u in Sent(names.tools, names.tools, names.digest) && u.Function? ==> u.name != name
            else t.(name := name) in Sent(names.tools, names.tools, names.digest) && names.Real(name) == t.name
  {
    SentFacts(names.tools, names.tools, names.digest);
    assert GoesBy(names.tools, t.name, Wire(t.name, names.digest), names.digest);
  }

  /** Sending a reply's calls back as history gives each the name it came under. */
  lemma ReplyThenHistory(names: Names, calls: seq<Call>, meant: seq<Call>)
    requires names.Valid() && |meant| == |calls|
    requires forall i :: 0 <= i < |calls| ==>
      meant[i] == if calls[i].Call? then calls[i].(name := names.Real(calls[i].name)) else calls[i]
    requires forall i :: 0 <= i < |calls| && calls[i].Call? ==>
      exists t :: t in Sent(names.tools, names.tools, names.digest) && t.Function? && t.name == calls[i].name
    ensures RenameCalls(meant, names.digest) == calls
  {
    forall i | 0 <= i < |calls| ensures RenameCalls(meant, names.digest)[i] == calls[i] {
      if calls[i].Call? {
        var t :| t in Sent(names.tools, names.tools, names.digest) && t.Function? && t.name == calls[i].name;
        CallsMeanTheirTool(names, t);
      }
    }
  }
}
