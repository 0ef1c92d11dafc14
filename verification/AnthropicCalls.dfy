/** What arguments a Claude reply's calls come back with (arslan/llm/anthropic_stream.py, `_delta`, `_close`,
    `result`), in any stream. */
module AnthropicCalls {
  import opened Wrappers
  import opened AnthropicStream
  import opened AnthropicReplies

  predicate StartsBlock<V>(f: Frame<V>, i: int) {
    f.BlockStart? && f.index == i
  }

  /** The block as the last start of index `i` gave it. */
  function StartOf<V>(frames: seq<Frame<V>>, i: int): Option<Block<V>> {
    if frames == [] then None
    else
      var f := frames[|frames| - 1];
      if StartsBlock(f, i) then Some(f.block) else StartOf(frames[..|frames| - 1], i)
  }

  /** The argument pieces of the call last started at `i`, up to its first stop. */
  ghost function ArgumentsAt<V>(frames: seq<Frame<V>>, i: int): seq<string> {
    if frames == [] then []
    else
      var init, f := frames[..|frames| - 1], frames[|frames| - 1];
      if StartsCall(f, i) then []
      else if f.BlockDelta? && f.index == i && f.delta.InputJson? && OpenCall(init, i) then
        ArgumentsAt(init, i) + [f.delta.json]
      else ArgumentsAt(init, i)
  }

  /** What index `i` holds follows the frames: its block is of the kind it last started as; an open call has the pieces
      so far; a call's input is the start's while it is open, and then what the joined pieces stand for. */
  ghost predicate CallFollows<V>(reader: Reader<V>, s: State<V>, frames: seq<Frame<V>>, i: int) {
    && (i in s.blocks <==> StartOf(frames, i).Some?)
    && (i in s.blocks ==> s.blocks[i].kind == StartOf(frames, i).value.kind)
    && (i in s.arguments <==> OpenCall(frames, i))
    && (i in s.arguments ==> s.arguments[i] == ArgumentsAt(frames, i))
    && (i in s.blocks && s.blocks[i].kind == ToolUse ==> s.blocks[i].input == InputOf(reader, frames, i))
  }

  ghost function InputOf<V>(reader: Reader<V>, frames: seq<Frame<V>>, i: int): Option<V>
    requires StartOf(frames, i).Some?
  {
    if OpenCall(frames, i) then StartOf(frames, i).value.input else reader.Arguments(Flat(ArgumentsAt(frames, i)))
  }

  lemma {:induction false} CallsFollow<V>(reader: Reader<V>, frames: seq<Frame<V>>, i: int)
    requires After(reader, frames).Ok?
    ensures CallFollows(reader, After(reader, frames).value, frames, i)
  {
    if frames != [] {
      var init, f := frames[..|frames| - 1], frames[|frames| - 1];
      assert frames == init + [f];
      CallsFollow(reader, init, i);
      var s := After(reader, init).value;
      OpenMore(init, f, i);
      if StartsBlock(f, i) {
        StartFollows(reader, s, init, f, i);
      } else if f.BlockDelta? && f.index == i {
        DeltaFollows(reader, s, init, f, i);
      } else if StopsBlock(f, i) {
        StopFollows(reader, s, init, f, i);
      } else {
        StepElsewhere(reader, s, f, i);
        ElsewhereFollows(reader, s, Step(reader, s, f).value, init, f, i);
      }
    }
  }

  lemma Unfold<V>(init: seq<Frame<V>>, f: Frame<V>, i: int)
    ensures StartOf(init + [f], i) == if StartsBlock(f, i) then Some(f.block) else StartOf(init, i)
    ensures ArgumentsAt(init + [f], i) ==
      if StartsCall(f, i) then []
      else if f.BlockDelta? && f.index == i && f.delta.InputJson? && OpenCall(init, i) then
        ArgumentsAt(init, i) + [f.delta.json]
      else ArgumentsAt(init, i)
  {
    assert (init + [f])[..|init|] == init;
  }

  lemma StartFollows<V>(reader: Reader<V>, s: State<V>, init: seq<Frame<V>>, f: Frame<V>, i: int)
    requires Sound(s) && CallFollows(reader, s, init, i) && StartsBlock(f, i)
    ensures CallFollows(reader, Step(reader, s, f).value, init + [f], i)
  {
    Unfold(init, f, i);
    OpenMore(init, f, i);
  }

  lemma DeltaFollows<V>(reader: Reader<V>, s: State<V>, init: seq<Frame<V>>, f: Frame<V>, i: int)
    requires Sound(s) && CallFollows(reader, s, init, i) && f.BlockDelta? && f.index == i
    ensures CallFollows(reader, Step(reader, s, f).value, init + [f], i)
  {
    Unfold(init, f, i);
    OpenMore(init, f, i);
    match f.delta {
      case Piece(_, _) =>
      case InputJson(_) =>
      case Citation(_) =>
      case UnknownDelta =>
    }
  }

  lemma StopFollows<V>(reader: Reader<V>, s: State<V>, init: seq<Frame<V>>, f: Frame<V>, i: int)
    requires Sound(s) && CallFollows(reader, s, init, i) && StopsBlock(f, i) && Step(reader, s, f).Ok?
    ensures CallFollows(reader, Step(reader, s, f).value, init + [f], i)
  {
    Unfold(init, f, i);
    OpenMore(init, f, i);
  }

  lemma ElsewhereFollows<V>(reader: Reader<V>, s: State<V>, next: State<V>, init: seq<Frame<V>>, f: Frame<V>, i: int)
    requires CallFollows(reader, s, init, i) && !Concerns(f, i) && SlotOf(next, i) == SlotOf(s, i)
    ensures CallFollows(reader, next, init + [f], i)
  {
    Unfold(init, f, i);
    OpenMore(init, f, i);
    assert (i in next.blocks <==> i in s.blocks) && (i in next.arguments <==> i in s.arguments);
  }

  // ---------------------------------------------------------------------------
  // The reply
  // ---------------------------------------------------------------------------

  /** The index of the reply's `n`-th block. */
  ghost function IndexOf<V>(reader: Reader<V>, frames: seq<Frame<V>>, n: nat): int
    requires Assembled(reader, frames).Ok? && n < |Assembled(reader, frames).value.content|
  {
    SortedKeys(After(reader, Read(frames)).value.blocks.Keys)[n]
  }

  /** Blank arguments stand for the empty object, any other for what they decode to. */
  ghost predicate StandsFor<V>(reader: Reader<V>, raw: string, input: Option<V>) {
    if reader.blank(raw) then input == Some(reader.empty) else input == reader.json(raw)
  }

  /** Reading gets to frame `k` and fails there: at an error event, with its status, or at the end of a call whose
      joined arguments are neither blank nor JSON. */
  ghost predicate BreaksAt<V>(reader: Reader<V>, frames: seq<Frame<V>>, k: nat, e: Failure) {
    && k < |frames| && After(reader, frames[..k]).Ok?
    && match frames[k]
       case ErrorEvent(status) => e == HttpStatus(status)
       case BlockStop(i) =>
         var raw := Flat(ArgumentsAt(frames[..k], i));
         OpenCall(frames[..k], i) && !reader.blank(raw) && reader.json(raw).None? && e == ArgumentsDidNotParse
       case _ => false
  }

  /** Nothing else makes a stream fail, and its failure is the first of these. */
  lemma {:induction false} FailsAtTheFirstIff<V>(reader: Reader<V>, frames: seq<Frame<V>>, e: Failure)
    ensures After(reader, frames) == Err(e) <==> exists k: nat :: BreaksAt(reader, frames, k, e)
  {
    if frames != [] {
      var init, f := frames[..|frames| - 1], frames[|frames| - 1];
      FailsAtTheFirstIff(reader, init, e);
      forall k: nat | k < |init| ensures BreaksAt(reader, frames, k, e) <==> BreaksAt(reader, init, k, e) {
        assert frames[..k] == init[..k] && frames[k] == init[k];
      }
      assert frames[..|init|] == init;
      if After(reader, init).Ok? {
        if f.BlockStop? { CallsFollow(reader, init, f.index); }
        assert BreaksAt(reader, frames, |init|, e) <==> Step(reader, After(reader, init).value, f) == Err(e);
      }
    }
  }

  /** Every call of a reply, in any stream: its input is what its joined argument pieces stand for once it was stopped,
      and the input it started with when it never was. */
  lemma CallsGetTheirArguments<V>(reader: Reader<V>, frames: seq<Frame<V>>, n: nat)
    requires Assembled(reader, frames).Ok? && n < |Assembled(reader, frames).value.content|
    requires Assembled(reader, frames).value.content[n].kind == ToolUse
    ensures var call, i := Assembled(reader, frames).value.content[n], IndexOf(reader, frames, n);
      && StartOf(Read(frames), i).Some? && StartOf(Read(frames), i).value.kind == ToolUse
      && call.input == InputOf(reader, Read(frames), i)
      && (!OpenCall(Read(frames), i) ==> StandsFor(reader, Flat(ArgumentsAt(Read(frames), i)), call.input))
      && (OpenCall(Read(frames), i) ==> call.input == StartOf(Read(frames), i).value.input)
  {
    var s, i := After(reader, Read(frames)).value, IndexOf(reader, frames, n);
    assert i in SortedKeys(s.blocks.Keys);
    CallsFollow(reader, Read(frames), i);
  }

  // ---------------------------------------------------------------------------
  // Whatever the start held
  // ---------------------------------------------------------------------------

  /** The stream with another input in the block that frame `k` starts. */
  function WithInput<V>(frames: seq<Frame<V>>, k: nat, input: Option<V>): seq<Frame<V>>
    requires k < |frames| && frames[k].BlockStart?
  {
    frames[k := frames[k].(block := frames[k].block.(input := input))]
  }

  /** The same state but for inputs. */
  ghost predicate AlikeBlocks<V>(a: map<int, Block<V>>, b: map<int, Block<V>>) {
    a.Keys == b.Keys && forall i :: i in a ==> b[i] == a[i].(input := b[i].input)
  }

  ghost predicate Alike<V>(s: State<V>, t: State<V>) {
    AlikeBlocks(s.blocks, t.blocks) && t == s.(blocks := t.blocks)
  }

  lemma StepAlike<V>(reader: Reader<V>, s: State<V>, t: State<V>, f: Frame<V>, g: Frame<V>)
    requires Sound(s) && Sound(t) && Alike(s, t)
    requires f == g || (f.BlockStart? && g.BlockStart? && g == f.(block := f.block.(input := g.block.input)))
    ensures match Step(reader, s, f)
      case Ok(next) => Step(reader, t, g).Ok? && Alike(next, Step(reader, t, g).value)
      case Err(e) => Step(reader, t, g) == Err(e)
  {
    match f {
      case BlockDelta(i, d) => AddedAlike(s, t, i, d);
      case BlockStop(i) => ClosedAlike(reader, s, t, i);
      case _ =>
    }
  }

  lemma AddedAlike<V>(s: State<V>, t: State<V>, i: int, d: Delta<V>)
    requires Alike(s, t)
    ensures Alike(Added(s, i, d), Added(t, i, d))
  {
    match d {
      case Piece(_, _) =>
      case InputJson(_) =>
      case Citation(_) =>
      case UnknownDelta =>
    }
  }

  lemma ClosedAlike<V>(reader: Reader<V>, s: State<V>, t: State<V>, i: int)
    requires Sound(s) && Sound(t) && Alike(s, t)
    ensures match Closed(reader, s, i)
      case Ok(next) => Closed(reader, t, i).Ok? && Alike(next, Closed(reader, t, i).value)
      case Err(e) => Closed(reader, t, i) == Err(e)
  {
  }

  lemma {:induction false} AfterAlike<V>(reader: Reader<V>, frames: seq<Frame<V>>, k: nat, input: Option<V>)
    requires k < |frames| && frames[k].BlockStart?
    ensures match After(reader, frames)
      case Ok(s) => After(reader, WithInput(frames, k, input)).Ok?
          && Alike(s, After(reader, WithInput(frames, k, input)).value)
      case Err(e) => After(reader, WithInput(frames, k, input)) == Err(e)
  {
    var other := WithInput(frames, k, input);
    var init, f, g := frames[..|frames| - 1], frames[|frames| - 1], other[|frames| - 1];
    if k == |init| {
      assert other[..|init|] == init;
      if After(reader, init).Ok? { StepAlike(reader, After(reader, init).value, After(reader, init).value, f, g); }
    } else {
      assert other[..|init|] == WithInput(init, k, input);
      AfterAlike(reader, init, k, input);
      if After(reader, init).Ok? {
        StepAlike(reader, After(reader, init).value, After(reader, WithInput(init, k, input)).value, f, g);
      }
    }
  }

  lemma {:induction false} SameStop<V>(frames: seq<Frame<V>>, k: nat, input: Option<V>, j: nat)
    requires k < |frames| && frames[k].BlockStart? && j <= |frames|
    ensures StopAt(WithInput(frames, k, input), j) == StopAt(frames, j)
    decreases |frames| - j
  {
    if j < |frames| { SameStop(frames, k, input, j + 1); }
  }

  lemma SameRead<V>(frames: seq<Frame<V>>, k: nat, input: Option<V>)
    requires k < |Read(frames)| && frames[k].BlockStart?
    ensures Read(WithInput(frames, k, input)) == WithInput(Read(frames), k, input)
  {
    SameStop(frames, k, input, 0);
  }

  lemma SameOpen<V>(frames: seq<Frame<V>>, k: nat, input: Option<V>, i: int)
    requires k < |frames| && frames[k].BlockStart?
    ensures OpenCall(WithInput(frames, k, input), i) <==> OpenCall(frames, i)
  {
    var other := WithInput(frames, k, input);
    assert forall j :: 0 <= j < |frames| ==>
      (StartsCall(other[j], i) <==> StartsCall(frames[j], i))
          && (StopsBlock(other[j], i) <==> StopsBlock(frames[j], i));
    if OpenCall(frames, i) {
      var j :| 0 <= j < |frames| && StartsCall(frames[j], i) && forall m :: j < m < |frames| ==>
          !StopsBlock(frames[m], i);
      assert StartsCall(other[j], i);
    }
    if OpenCall(other, i) {
      var j :| 0 <= j < |frames| && StartsCall(other[j], i) && forall m :: j < m < |frames| ==>
          !StopsBlock(other[m], i);
      assert StartsCall(frames[j], i);
    }
  }

  lemma {:induction false} SameArguments<V>(frames: seq<Frame<V>>, k: nat, input: Option<V>, i: int)
    requires k < |frames| && frames[k].BlockStart?
    ensures ArgumentsAt(WithInput(frames, k, input), i) == ArgumentsAt(frames, i)
  {
    var other, init := WithInput(frames, k, input), frames[..|frames| - 1];
    if k == |init| {
      assert other[..|init|] == init;
    } else {
      assert other[..|init|] == WithInput(init, k, input);
      SameArguments(init, k, input, i);
      SameOpen(init, k, input, i);
    }
  }

  /** Frame `k` is the last start of index `i`, and starts a call. */
  ghost predicate LastStartsCall<V>(frames: seq<Frame<V>>, k: nat, i: int) {
    k < |frames| && StartsCall(frames[k], i) && forall j :: k < j < |frames| ==> !StartsBlock(frames[j], i)
  }

  lemma {:induction false} StartIs<V>(frames: seq<Frame<V>>, k: nat, i: int)
    requires LastStartsCall(frames, k, i)
    ensures StartOf(frames, i) == Some(frames[k].block)
  {
    var init := frames[..|frames| - 1];
    if k < |init| {
      assert forall j :: 0 <= j < |init| ==> init[j] == frames[j];
      StartIs(init, k, i);
    }
  }

  /** The reply's block of index `i` has this input. */
  ghost predicate Returns<V>(reader: Reader<V>, frames: seq<Frame<V>>, i: int, input: Option<V>) {
    && Assembled(reader, frames).Ok?
    && exists n: nat :: n < |Assembled(reader, frames).value.content| && ReturnsAt(reader, frames, n, i, input)
  }

  ghost predicate ReturnsAt<V>(reader: Reader<V>, frames: seq<Frame<V>>, n: nat, i: int, input: Option<V>)
    requires Assembled(reader, frames).Ok? && n < |Assembled(reader, frames).value.content|
  {
    IndexOf(reader, frames, n) == i && Assembled(reader, frames).value.content[n].input == input
  }

  lemma InputReturned<V>(reader: Reader<V>, frames: seq<Frame<V>>, i: int, input: Option<V>)
    requires Assembled(reader, frames).Ok?
    requires StartOf(Read(frames), i).Some? && StartOf(Read(frames), i).value.kind == ToolUse
    ensures Returns(reader, frames, i, input) <==> input == InputOf(reader, Read(frames), i)
  {
    CallsFollow(reader, Read(frames), i);
    var blocks := After(reader, Read(frames)).value.blocks;
    var keys := SortedKeys(blocks.Keys);
    assert i in keys;
    var n: nat :| n < |keys| && keys[n] == i;
    assert ReturnsAt(reader, frames, n, i, InputOf(reader, Read(frames), i));
    if Returns(reader, frames, i, input) {
      var m: nat :| m < |Assembled(reader, frames).value.content| && ReturnsAt(reader, frames, m, i, input);
      assert keys[m] == keys[n] && m == n;
    }
  }

  lemma StartedReturns<V>(reader: Reader<V>, frames: seq<Frame<V>>, k: nat, i: int, input: Option<V>, args: Option<V>)
    requires Assembled(reader, frames).Ok? && LastStartsCall(Read(frames), k, i)
    requires args == reader.Arguments(Flat(ArgumentsAt(Read(frames), i)))
    ensures Returns(reader, WithInput(frames, k, input), i, args) <==> !OpenCall(Read(frames), i) || input == args
  {
    var read, other := Read(frames), WithInput(frames, k, input);
    SameRead(frames, k, input);
    AfterAlike(reader, read, k, input);
    SameOpen(read, k, input, i);
    SameArguments(read, k, input, i);
    assert LastStartsCall(Read(other), k, i);
    StartIs(Read(other), k, i);
    StillFinished(After(reader, read).value, After(reader, Read(other)).value);
    InputReturned(reader, other, i, args);
  }

  lemma StillFinished<V>(s: State<V>, t: State<V>)
    requires Alike(s, t) && Finished(s).Ok?
    ensures Finished(t).Ok?
  {
  }

  /** A call comes back with what was streamed for it, whatever it started with, exactly when it was stopped: the input
      of one that never was is what it started with. */
  lemma ArgumentsReturnedIff<V(!new)>(reader: Reader<V>, frames: seq<Frame<V>>, k: nat, i: int)
    requires Assembled(reader, frames).Ok? && LastStartsCall(Read(frames), k, i)
    ensures (forall input: Option<V> ::
        Returns(reader, WithInput(frames, k, input), i, reader.Arguments(Flat(ArgumentsAt(Read(frames), i)))))
      <==> !OpenCall(Read(frames), i)
  {
    var args := reader.Arguments(Flat(ArgumentsAt(Read(frames), i)));
    forall input: Option<V>
      ensures Returns(reader, WithInput(frames, k, input), i, args) <==> !OpenCall(Read(frames), i) || input == args
    {
      StartedReturns(reader, frames, k, i, input, args);
    }
    if OpenCall(Read(frames), i) {
      var another := if args.None? then Some(reader.empty) else None;
      assert !Returns(reader, WithInput(frames, k, another), i, args);
    }
  }
}
