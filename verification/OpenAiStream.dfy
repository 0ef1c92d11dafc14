/** A streamed OpenAI-compatible reply put back together (arslan/llm/stream_assembly.py). Reading lines and the idle
    limit are left out; a field a chunk does not carry is the empty string. */
module OpenAiStream {
  import opened Wrappers

  datatype CallDelta = CallDelta(index: Option<int>, id: string, name: string, arguments: string)

  datatype Part = ContentPart | ReasoningPart | OtherReasoningPart

  datatype Delta<V> = Delta(
    role: string, content: string, reasoning: string, otherReasoning: string, details: seq<V>, calls: seq<CallDelta>)
  {
    function Text(part: Part): string {
      match part case ContentPart => content case ReasoningPart => reasoning case OtherReasoningPart => otherReasoning
    }
  }

  datatype Choice<V> = Choice(delta: Delta<V>, finish: string)

  datatype Frame<V> = Frame(usage: Option<V>, choices: seq<Choice<V>>)

  /** A line of the stream: a decoded chunk, the end marker, or one that carries nothing (a comment, an event name,
      text that is not JSON). */
  datatype Line<V> = Data(frame: Frame<V>) | DoneLine | NoData

  datatype Call = Call(id: string, name: string, arguments: string)

  datatype Message<V> = Message(
    role: string, content: string, reasoning: Option<string>, otherReasoning: Option<string>, details: seq<V>,
    calls: seq<Call>)

  datatype Reply<V> = Reply(message: Message<V>, finish: Option<string>, usage: Option<V>)

  // ---------------------------------------------------------------------------
  // One chunk
  // ---------------------------------------------------------------------------

  datatype State<V> = State(
    content: seq<string>, reasoning: seq<string>, otherReasoning: seq<string>, details: seq<V>,
    calls: map<int, Call>, finish: Option<string>, usage: Option<V>, role: string, shown: seq<string>)
  {
    function Sink(part: Part): seq<string> {
      match part case ContentPart => content case ReasoningPart => reasoning case OtherReasoningPart => otherReasoning
    }
  }

  function Fresh<V>(): State<V> {
    State([], [], [], [], map[], None, None, "assistant", [])
  }

  function Appended(pieces: seq<string>, piece: string): seq<string> {
    if piece == "" then pieces else pieces + [piece]
  }

  /** The first id and name a call is given stay; its arguments grow. */
  function Merged(slot: Call, d: CallDelta): Call {
    Call(if slot.id == "" then d.id else slot.id, if slot.name == "" then d.name else slot.name,
         slot.arguments + d.arguments)
  }

  function IndexOf(calls: map<int, Call>, d: CallDelta): int {
    if d.index.Some? then d.index.value else |calls|
  }

  function CallStep(calls: map<int, Call>, d: CallDelta): map<int, Call> {
    var i := IndexOf(calls, d);
    calls[i := Merged(if i in calls then calls[i] else Call("", "", ""), d)]
  }

  function CallsAfter(calls: map<int, Call>, ds: seq<CallDelta>): map<int, Call> {
    if ds == [] then calls else CallStep(CallsAfter(calls, ds[..|ds| - 1]), ds[|ds| - 1])
  }

  lemma CallsMore(calls: map<int, Call>, ds: seq<CallDelta>, d: CallDelta)
    ensures CallsAfter(calls, ds + [d]) == CallStep(CallsAfter(calls, ds), d)
  {
    assert (ds + [d])[..|ds|] == ds;
  }

  function ChoiceStep<V>(s: State<V>, c: Choice<V>): State<V> {
    var d := c.delta;
    State(Appended(s.content, d.content), Appended(s.reasoning, d.reasoning),
          Appended(s.otherReasoning, d.otherReasoning), s.details + d.details, CallsAfter(s.calls, d.calls),
          if c.finish == "" then s.finish else Some(c.finish), s.usage, if d.role == "" then s.role else d.role,
          Appended(s.shown, d.content))
  }

  function AfterChoices<V>(s: State<V>, choices: seq<Choice<V>>): State<V> {
    if choices == [] then s else ChoiceStep(AfterChoices(s, choices[..|choices| - 1]), choices[|choices| - 1])
  }

  function FrameStep<V>(s: State<V>, f: Frame<V>): State<V> {
    AfterChoices(if f.usage.Some? then s.(usage := f.usage) else s, f.choices)
  }

  /** A real delta: text, reasoning or a part of a call. */
  predicate Carries<V>(d: Delta<V>) {
    d.content != "" || d.reasoning != "" || d.otherReasoning != "" || d.details != [] || d.calls != []
  }

  // ---------------------------------------------------------------------------
  // A whole stream
  // ---------------------------------------------------------------------------

  function After<V>(frames: seq<Frame<V>>): State<V> {
    if frames == [] then Fresh() else FrameStep(After(frames[..|frames| - 1]), frames[|frames| - 1])
  }

  /** The calls in the order of their indices. */
  function Listed(calls: map<int, Call>): seq<Call> {
    var keys := SortedKeys(calls.Keys);
    seq(|keys|, n requires 0 <= n < |keys| => assert keys[n] in keys; calls[keys[n]])
  }

  function Finished<V>(s: State<V>): Reply<V> {
    Reply(
      Message(s.role, Flat(s.content), if s.reasoning == [] then None else Some(Flat(s.reasoning)),
              if s.otherReasoning == [] then None else Some(Flat(s.otherReasoning)), s.details, Listed(s.calls)),
      s.finish, s.usage)
  }

  /** The chunks before the end marker. */
  function Chunks<V>(lines: seq<Line<V>>): seq<Frame<V>> {
    if lines == [] || lines[0].DoneLine? then []
    else if lines[0].Data? then [lines[0].frame] + Chunks(lines[1..])
    else Chunks(lines[1..])
  }

  predicate EndMarked<V>(lines: seq<Line<V>>) {
    exists k :: 0 <= k < |lines| && lines[k].DoneLine?
  }

  /** The reply, or None when the connection ended mid-reply. */
  function Assembled<V>(lines: seq<Line<V>>): Option<Reply<V>> {
    var s := After(Chunks(lines));
    if !EndMarked(lines) && s.finish.None? then None else Some(Finished(s))
  }

  // ---------------------------------------------------------------------------
  // The assembler
  // ---------------------------------------------------------------------------

  class StreamAssembler<V> {
    var content: seq<string>
    var reasoning: seq<string>
    var otherReasoning: seq<string>
    var details: seq<V>
    var calls: map<int, Call>
    var finish: Option<string>
    var usage: Option<V>
    var role: string
    var done: bool
    /** What the text listener was given, piece by piece. */
    var shown: seq<string>

    function Now(): State<V>
      reads this
    {
      State(content, reasoning, otherReasoning, details, calls, finish, usage, role, shown)
    }

    constructor ()
      ensures Now() == Fresh() && !done
    {
      content, reasoning, otherReasoning, details, calls := [], [], [], [], map[];
      finish, usage, role, done, shown := None, None, "assistant", false, [];
    }

    /** Takes one chunk in, and says whether it carried a real delta. */
    method Feed(frame: Frame<V>) returns (progress: bool)
      modifies this
      ensures Now() == FrameStep(old(Now()), frame) && done == old(done)
      ensures progress <==> exists k :: 0 <= k < |frame.choices| && Carries(frame.choices[k].delta)
    {
      progress := false;
      if frame.usage.Some? { usage := frame.usage; }
      ghost var start := Now();
      for k := 0 to |frame.choices|
        invariant Now() == AfterChoices(start, frame.choices[..k]) && done == old(done)
        invariant progress <==> exists j :: 0 <= j < k && Carries(frame.choices[j].delta)
      {
        assert frame.choices[..k + 1] == frame.choices[..k] + [frame.choices[k]];
        var carried := Take(frame.choices[k]);
        progress := progress || carried;
      }
      assert frame.choices[..|frame.choices|] == frame.choices;
    }

    method Take(choice: Choice<V>) returns (progress: bool)
      modifies this
      ensures Now() == ChoiceStep(old(Now()), choice) && done == old(done)
      ensures progress <==> Carries(choice.delta)
    {
      var delta := choice.delta;
      progress := TakeTexts(delta);
      details := details + delta.details;
      TakeCalls(delta.calls);
      progress := progress || delta.details != [] || delta.calls != [];
      TakeMarks(choice);
    }

    method TakeMarks(choice: Choice<V>)
      modifies `role, `finish
      ensures role == if choice.delta.role == "" then old(role) else choice.delta.role
      ensures finish == if choice.finish == "" then old(finish) else Some(choice.finish)
    {
      if choice.delta.role != "" { role := choice.delta.role; }
      if choice.finish != "" { finish := Some(choice.finish); }
    }

    method TakeTexts(delta: Delta<V>) returns (progress: bool)
      modifies `content, `reasoning, `otherReasoning, `shown
      ensures content == Appended(old(content), delta.content) && shown == Appended(old(shown), delta.content)
      ensures reasoning == Appended(old(reasoning), delta.reasoning)
      ensures otherReasoning == Appended(old(otherReasoning), delta.otherReasoning)
      ensures progress <==> delta.content != "" || delta.reasoning != "" || delta.otherReasoning != ""
    {
      progress := false;
      if delta.content != "" { content, shown, progress := content + [delta.content], shown + [delta.content], true; }
      if delta.reasoning != "" { reasoning, progress := reasoning + [delta.reasoning], true; }
      if delta.otherReasoning != "" { otherReasoning, progress := otherReasoning + [delta.otherReasoning], true; }
    }

    method TakeCalls(deltas: seq<CallDelta>)
      modifies `calls
      ensures calls == CallsAfter(old(calls), deltas)
    {
      for k := 0 to |deltas|
        invariant calls == CallsAfter(old(calls), deltas[..k])
      {
        CallsMore(old(calls), deltas[..k], deltas[k]);
        assert deltas[..k] + [deltas[k]] == deltas[..k + 1];
        TakeCall(deltas[k]);
      }
      assert deltas[..|deltas|] == deltas;
    }

    method TakeCall(d: CallDelta)
      modifies `calls
      ensures calls == CallStep(old(calls), d)
    {
      var i := if d.index.Some? then d.index.value else |calls|;
      var slot := if i in calls then calls[i] else Call("", "", "");
      if slot.id == "" { slot := slot.(id := d.id); }
      if slot.name == "" { slot := slot.(name := d.name); }
      calls := calls[i := slot.(arguments := slot.arguments + d.arguments)];
    }
  }

  /** `k` lines have been read, none of them the end marker, and they held these chunks. */
  ghost predicate SoFar<V>(lines: seq<Line<V>>, k: nat, chunks: seq<Frame<V>>) {
    && k <= |lines| && (forall j :: 0 <= j < k ==> !lines[j].DoneLine?)
    && Chunks(lines) == chunks + Chunks(lines[k..])
  }

  lemma OneMoreLine<V>(lines: seq<Line<V>>, k: nat, chunks: seq<Frame<V>>)
    requires SoFar(lines, k, chunks) && k < |lines|
    ensures lines[k].DoneLine? ==> EndMarked(lines) && Chunks(lines) == chunks
    ensures lines[k].Data? ==> SoFar(lines, k + 1, chunks + [lines[k].frame])
    ensures lines[k].NoData? ==> SoFar(lines, k + 1, chunks)
  {
    var rest := lines[k + 1..];
    assert lines[k..][0] == lines[k] && lines[k..][1..] == rest;
    if lines[k].Data? {
      assert chunks + ([lines[k].frame] + Chunks(rest)) == chunks + [lines[k].frame] + Chunks(rest);
    }
  }

  lemma AllLines<V>(lines: seq<Line<V>>, chunks: seq<Frame<V>>)
    requires SoFar(lines, |lines|, chunks)
    ensures Chunks(lines) == chunks && !EndMarked(lines)
  {
    assert lines[|lines|..] == [];
    assert chunks + [] == chunks;
  }

  lemma AfterMore<V>(frames: seq<Frame<V>>, f: Frame<V>)
    ensures After(frames + [f]) == FrameStep(After(frames), f)
  {
    assert (frames + [f])[..|frames|] == frames;
  }

  method Assemble<V>(lines: seq<Line<V>>) returns (reply: Option<Reply<V>>)
    ensures reply == Assembled(lines)
  {
    var assembler := new StreamAssembler<V>();
    var k := 0;
    ghost var chunks: seq<Frame<V>> := [];
    assert lines[0..] == lines;
    while k < |lines| && !assembler.done
      invariant k <= |lines| && After(chunks) == assembler.Now()
      invariant !assembler.done ==> SoFar(lines, k, chunks)
      invariant assembler.done ==> EndMarked(lines) && Chunks(lines) == chunks
    {
      OneMoreLine(lines, k, chunks);
      if lines[k].DoneLine? {
        assembler.done := true;
      } else if lines[k].Data? {
        AfterMore(chunks, lines[k].frame);
        var progress := assembler.Feed(lines[k].frame);
        chunks := chunks + [lines[k].frame];
      }
      k := k + 1;
    }
    if !assembler.done { AllLines(lines, chunks); }
    var s := assembler.Now();
    reply := if !assembler.done && s.finish.None? then None else Some(Finished(s));
  }
}
