/** A streamed Claude reply put back together (arslan/llm/anthropic_stream.py). Reading lines, the idle limit and
    the raised responses are left out; how JSON text is decoded is left open. */
module AnthropicStream {
  import opened Wrappers

  datatype Kind = TextBlock | ThinkingBlock | ToolUse | OtherBlock

  /** The fields of a block that deltas append text to. */
  datatype Part = TextPart | ThinkingPart | SignaturePart

  /** A content block: its type, its text fields, its citations, a call's input, and the rest as it came. */
  datatype Block<V> = Block(
    kind: Kind, texts: map<Part, string>, citations: Option<seq<V>>, input: Option<V>, rest: V)

  datatype Delta<V> = Piece(part: Part, text: string) | InputJson(json: string) | Citation(citation: V) | UnknownDelta

  /** A message's usage, and its other fields but for the content, which the blocks replace. */
  datatype Message<V> = Message(fields: map<string, V>, usage: map<string, V>)

  /** A data line of the stream. `Ping` stands for every event the program has no use for, `BadLine` for a line that
      is not JSON. */
  datatype Frame<V> =
    | MessageStart(message: Message<V>)
    | BlockStart(index: int, block: Block<V>)
    | BlockDelta(index: int, delta: Delta<V>)
    | BlockStop(index: int)
    | MessageDelta(stops: map<string, V>, counts: map<string, Option<V>>, extra: map<string, V>)
    | MessageStop
    | ErrorEvent(status: nat)
    | Ping
    | BadLine

  datatype Failure = HttpStatus(status: nat) | ArgumentsDidNotParse | EndedEarly | UnreadableReply

  datatype Reply<V> = Reply(message: Message<V>, content: seq<Block<V>>, verbatim: bool)

  /** `json.loads`, None for text that is no JSON; what counts as blank; the value `{}`. */
  datatype Reader<!V> = Reader(blank: string -> bool, json: string -> Option<V>, empty: V) {
    function Arguments(raw: string): Option<V> {
      if blank(raw) then Some(empty) else json(raw)
    }
  }

  // ---------------------------------------------------------------------------
  // One line
  // ---------------------------------------------------------------------------

  /** What has been read: the message and the blocks so far, the arguments of the calls still open, whether something
      was not understood, whether the message ended, and the text handed on. */
  datatype State<V> = State(
    message: Message<V>, blocks: map<int, Block<V>>, arguments: map<int, seq<string>>,
    unknown: bool, stopped: bool, shown: seq<string>)

  function Fresh<V>(): State<V> {
    State(Message(map[], map[]), map[], map[], false, false, [])
  }

  predicate Sound<V>(s: State<V>) {
    forall i :: i in s.arguments ==> i in s.blocks
  }

  function Held<V>(b: Block<V>, part: Part): string {
    if part in b.texts then b.texts[part] else ""
  }

  function Cited<V>(b: Block<V>): seq<V> {
    if b.citations.Some? then b.citations.value else []
  }

  function Added<V>(s: State<V>, i: int, d: Delta<V>): State<V> {
    if i !in s.blocks then s.(unknown := true)
    else
      var b := s.blocks[i];
      match d
      case Piece(part, text) =>
        s.(blocks := s.blocks[i := b.(texts := b.texts[part := Held(b, part) + text])],
           shown := if part == TextPart && text != "" then s.shown + [text] else s.shown)
      case InputJson(json) =>
        if i in s.arguments then s.(arguments := s.arguments[i := s.arguments[i] + [json]]) else s.(unknown := true)
      case Citation(c) => s.(blocks := s.blocks[i := b.(citations := Some(Cited(b) + [c]))])
      case UnknownDelta => s.(unknown := true)
  }

  function Closed<V>(reader: Reader<V>, s: State<V>, i: int): Result<State<V>, Failure>
    requires Sound(s)
  {
    if i !in s.arguments then Ok(s)
    else
      var input := reader.Arguments(Flat(s.arguments[i]));
      if input.None? then Err(ArgumentsDidNotParse)
      else Ok(s.(arguments := s.arguments - {i}, blocks := s.blocks[i := s.blocks[i].(input := input)]))
  }

  /** A message_delta's stop fields and other fields replace the message's, and its counts that are not null. */
  function Updated<V>(m: Message<V>, stops: map<string, V>, counts: map<string, Option<V>>, extra: map<string, V>)
    : Message<V>
  {
    var stop := map k | k in stops && (k == "stop_reason" || k == "stop_sequence") :: stops[k];
    var known := map k | k in counts && counts[k].Some? :: counts[k].value;
    Message(m.fields + stop + extra, m.usage + known)
  }

  function Step<V>(reader: Reader<V>, s: State<V>, f: Frame<V>): (r: Result<State<V>, Failure>)
    requires Sound(s)
    ensures r.Ok? ==> Sound(r.value)
  {
    match f
    case MessageStart(m) => Ok(s.(message := m))
    case BlockStart(i, b) =>
      Ok(s.(blocks := s.blocks[i := b], arguments := if b.kind == ToolUse then s.arguments[i := []] else s.arguments))
    case BlockDelta(i, d) => Ok(Added(s, i, d))
    case BlockStop(i) => Closed(reader, s, i)
    case MessageDelta(stops, counts, extra) => Ok(s.(message := Updated(s.message, stops, counts, extra)))
    case MessageStop => Ok(s.(stopped := true))
    case ErrorEvent(status) => Err(HttpStatus(status))
    case Ping => Ok(s)
    case BadLine => Ok(s.(unknown := true))
  }

  // ---------------------------------------------------------------------------
  // A whole stream
  // ---------------------------------------------------------------------------

  function After<V>(reader: Reader<V>, frames: seq<Frame<V>>): (r: Result<State<V>, Failure>)
    ensures r.Ok? ==> Sound(r.value)
  {
    if frames == [] then Ok(Fresh())
    else
      var before := After(reader, frames[..|frames| - 1]);
      if before.Err? then before else Step(reader, before.value, frames[|frames| - 1])
  }

  lemma AfterMore<V>(reader: Reader<V>, frames: seq<Frame<V>>, f: Frame<V>)
    ensures var before := After(reader, frames);
      After(reader, frames + [f]) == if before.Err? then before else Step(reader, before.value, f)
  {
    assert (frames + [f])[..|frames|] == frames;
  }

  lemma {:induction false} FailureStays<V>(reader: Reader<V>, frames: seq<Frame<V>>, n: nat)
    requires n <= |frames| && After(reader, frames[..n]).Err?
    ensures After(reader, frames) == After(reader, frames[..n])
  {
    if n == |frames| {
      assert frames[..n] == frames;
    } else {
      var init := frames[..|frames| - 1];
      assert init[..n] == frames[..n];
      FailureStays(reader, init, n);
    }
  }

  /** Where reading stops: after the first message_stop from `k` on, or at the end. */
  function StopAt<V>(frames: seq<Frame<V>>, k: nat): (n: nat)
    requires k <= |frames|
    ensures k <= n <= |frames|
    ensures forall j :: k <= j < n - 1 ==> !frames[j].MessageStop?
    ensures n < |frames| ==> n > k && frames[n - 1].MessageStop?
    decreases |frames| - k
  {
    if k == |frames| then k else if frames[k].MessageStop? then k + 1 else StopAt(frames, k + 1)
  }

  /** The blocks in the order of their indices. */
  function Content<V>(blocks: map<int, Block<V>>): seq<Block<V>> {
    var keys := SortedKeys(blocks.Keys);
    seq(|keys|, n requires 0 <= n < |keys| => assert keys[n] in keys; blocks[keys[n]])
  }

  predicate CallsATool<V>(blocks: map<int, Block<V>>) {
    exists i :: i in blocks && blocks[i].kind == ToolUse
  }

  function Finished<V>(s: State<V>): Result<Reply<V>, Failure> {
    if !s.stopped then Err(EndedEarly)
    else if s.unknown && CallsATool(s.blocks) then Err(UnreadableReply)
    else Ok(Reply(s.message, Content(s.blocks), !s.unknown))
  }

  function Assembled<V>(reader: Reader<V>, frames: seq<Frame<V>>): Result<Reply<V>, Failure> {
    var s := After(reader, frames[..StopAt(frames, 0)]);
    if s.Err? then Err(s.error) else Finished(s.value)
  }

  lemma ReadOneMore<V>(reader: Reader<V>, frames: seq<Frame<V>>, k: nat)
    requires k < |frames| && After(reader, frames[..k]).Ok? && StopAt(frames, 0) == StopAt(frames, k)
    ensures After(reader, frames[..k + 1]) == Step(reader, After(reader, frames[..k]).value, frames[k])
    ensures After(reader, frames[..k + 1]).Err? ==>
      Assembled(reader, frames) == Err(After(reader, frames[..k + 1]).error)
    ensures if frames[k].MessageStop? then StopAt(frames, 0) == k + 1 else StopAt(frames, 0) == StopAt(frames, k + 1)
  {
    AfterMore(reader, frames[..k], frames[k]);
    assert frames[..k] + [frames[k]] == frames[..k + 1];
    if After(reader, frames[..k + 1]).Err? {
      var read := frames[..StopAt(frames, 0)];
      assert read[..k + 1] == frames[..k + 1];
      FailureStays(reader, read, k + 1);
    }
  }

  // ---------------------------------------------------------------------------
  // The assembler
  // ---------------------------------------------------------------------------

  class Assembler<V> {
    const reader: Reader<V>
    var message: Message<V>
    var blocks: map<int, Block<V>>
    var arguments: map<int, seq<string>>
    var unknown: bool
    var stopped: bool
    /** What the text listener was given, piece by piece. */
    var shown: seq<string>

    function Now(): State<V>
      reads this
    {
      State(message, blocks, arguments, unknown, stopped, shown)
    }

    constructor (reader: Reader<V>)
      ensures Now() == Fresh() && this.reader == reader
    {
      this.reader := reader;
      message := Message(map[], map[]);
      blocks, arguments, unknown, stopped, shown := map[], map[], false, false, [];
    }

    method Feed(f: Frame<V>) returns (failed: Option<Failure>)
      requires Sound(Now()) && !f.BadLine?
      modifies this
      ensures match Step(reader, old(Now()), f)
        case Ok(s) => failed == None && Now() == s
        case Err(e) => failed == Some(e)
    {
      failed := None;
      match f {
        case MessageStart(m) => message := m;
        case BlockStart(i, b) =>
          blocks := blocks[i := b];
          if b.kind == ToolUse { arguments := arguments[i := []]; }
        case BlockDelta(i, d) => Take(i, d);
        case BlockStop(i) => failed := Close(i);
        case MessageDelta(stops, counts, extra) => message := Updated(message, stops, counts, extra);
        case MessageStop => stopped := true;
        case ErrorEvent(status) => failed := Some(HttpStatus(status));
        case Ping =>
      }
    }

    method Take(i: int, d: Delta<V>)
      modifies `blocks, `arguments, `unknown, `shown
      ensures Now() == Added(old(Now()), i, d)
    {
      if i !in blocks {
        unknown := true;
        return;
      }
      var b := blocks[i];
      match d {
        case Piece(part, text) =>
          blocks := blocks[i := b.(texts := b.texts[part := Held(b, part) + text])];
          if part == TextPart && text != "" { shown := shown + [text]; }
        case InputJson(json) =>
          if i in arguments { arguments := arguments[i := arguments[i] + [json]]; } else { unknown := true; }
        case Citation(c) =>
          blocks := blocks[i := b.(citations := Some(Cited(b) + [c]))];
        case UnknownDelta =>
          unknown := true;
      }
    }

    method Close(i: int) returns (failed: Option<Failure>)
      requires Sound(Now())
      modifies `blocks, `arguments
      ensures match Closed(reader, old(Now()), i)
        case Ok(s) => failed == None && Now() == s
        case Err(e) => failed == Some(e)
    {
      if i !in arguments { return None; }
      var raw := Flat(arguments[i]);
      arguments := arguments - {i};
      var input := reader.Arguments(raw);
      if input.None? { return Some(ArgumentsDidNotParse); }
      blocks := blocks[i := blocks[i].(input := input)];
      failed := None;
    }
  }

  method Assemble<V>(reader: Reader<V>, frames: seq<Frame<V>>) returns (reply: Result<Reply<V>, Failure>)
    ensures reply == Assembled(reader, frames)
  {
    var assembler := new Assembler(reader);
    var k := 0;
    while k < |frames| && !assembler.stopped
      invariant k <= |frames| && assembler.reader == reader
      invariant After(reader, frames[..k]) == Ok(assembler.Now())
      invariant StopAt(frames, 0) == if assembler.stopped then k else StopAt(frames, k)
    {
      ReadOneMore(reader, frames, k);
      if frames[k].BadLine? {
        assembler.unknown := true;
      } else {
        var failed := assembler.Feed(frames[k]);
        if failed.Some? { return Err(failed.value); }
      }
      k := k + 1;
    }
    reply := Finished(assembler.Now());
  }
}
