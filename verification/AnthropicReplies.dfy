/** What a streamed Claude reply is, however its deltas are split and its blocks interleaved. */
module AnthropicReplies {
  import opened Wrappers
  import opened AnthropicStream

  // ---------------------------------------------------------------------------
  // Each block on its own
  // ---------------------------------------------------------------------------

  predicate Concerns<V>(f: Frame<V>, i: int) {
    (f.BlockStart? || f.BlockDelta? || f.BlockStop?) && f.index == i
  }

  /** The frames of one index. */
  function At<V>(frames: seq<Frame<V>>, i: int): seq<Frame<V>> {
    if frames == [] then []
    else
      var before, f := At(frames[..|frames| - 1], i), frames[|frames| - 1];
      if Concerns(f, i) then before + [f] else before
  }

  lemma AtMore<V>(frames: seq<Frame<V>>, f: Frame<V>, i: int)
    ensures At(frames + [f], i) == if Concerns(f, i) then At(frames, i) + [f] else At(frames, i)
  {
    assert (frames + [f])[..|frames|] == frames;
  }

  datatype Slot<V> = Slot(block: Option<Block<V>>, arguments: Option<seq<string>>)

  function SlotOf<V>(s: State<V>, i: int): Slot<V> {
    Slot(if i in s.blocks then Some(s.blocks[i]) else None, if i in s.arguments then Some(s.arguments[i]) else None)
  }

  lemma AddedIsLocal<V>(s: State<V>, t: State<V>, d: Delta<V>, i: int)
    requires SlotOf(s, i) == SlotOf(t, i)
    ensures SlotOf(Added(s, i, d), i) == SlotOf(Added(t, i, d), i)
    ensures forall j :: j != i ==> SlotOf(Added(s, i, d), j) == SlotOf(s, j)
  {
    match d {
      case Piece(_, _) =>
      case InputJson(_) =>
      case Citation(_) =>
      case UnknownDelta =>
    }
  }

  lemma ClosedIsLocal<V>(reader: Reader<V>, s: State<V>, t: State<V>, i: int)
    requires Sound(s) && Sound(t) && SlotOf(s, i) == SlotOf(t, i)
    ensures match Closed(reader, s, i)
      case Ok(next) =>
        && Closed(reader, t, i).Ok? && SlotOf(next, i) == SlotOf(Closed(reader, t, i).value, i)
        && forall j :: j != i ==> SlotOf(next, j) == SlotOf(s, j)
      case Err(e) => Closed(reader, t, i) == Err(e)
  {
    assert (i in s.arguments) == (i in t.arguments);
    if i in s.arguments { assert s.arguments[i] == t.arguments[i] && s.blocks[i] == t.blocks[i]; }
  }

  /** What a frame does at the index it concerns depends on what that index holds. */
  lemma StepIsLocal<V>(reader: Reader<V>, s: State<V>, t: State<V>, f: Frame<V>, i: int)
    requires Sound(s) && Sound(t) && SlotOf(s, i) == SlotOf(t, i) && Concerns(f, i)
    ensures match Step(reader, s, f)
      case Ok(next) => Step(reader, t, f).Ok? && SlotOf(next, i) == SlotOf(Step(reader, t, f).value, i)
      case Err(e) => Step(reader, t, f) == Err(e)
  {
    if f.BlockDelta? { AddedIsLocal(s, t, f.delta, i); }
    if f.BlockStop? { ClosedIsLocal(reader, s, t, i); }
  }

  lemma StepElsewhere<V>(reader: Reader<V>, s: State<V>, f: Frame<V>, i: int)
    requires Sound(s) && !Concerns(f, i) && Step(reader, s, f).Ok?
    ensures SlotOf(Step(reader, s, f).value, i) == SlotOf(s, i)
  {
    if f.BlockDelta? { AddedIsLocal(s, s, f.delta, f.index); }
    if f.BlockStop? { ClosedIsLocal(reader, s, s, f.index); }
  }

  /** What an index holds is what its own frames alone leave there. */
  lemma {:induction false} BlocksAreIndependent<V>(reader: Reader<V>, frames: seq<Frame<V>>, i: int)
    requires After(reader, frames).Ok?
    ensures After(reader, At(frames, i)).Ok?
    ensures SlotOf(After(reader, frames).value, i) == SlotOf(After(reader, At(frames, i)).value, i)
  {
    if frames != [] {
      var init, f := frames[..|frames| - 1], frames[|frames| - 1];
      BlocksAreIndependent(reader, init, i);
      if Concerns(f, i) {
        StepIsLocal(reader, After(reader, init).value, After(reader, At(init, i)).value, f, i);
        AfterMore(reader, At(init, i), f);
      } else {
        StepElsewhere(reader, After(reader, init).value, f, i);
      }
    }
  }

  ghost predicate FailsAt<V>(reader: Reader<V>, frames: seq<Frame<V>>, i: int) {
    After(reader, At(frames, i)).Err?
  }

  ghost predicate HasError<V>(frames: seq<Frame<V>>) {
    exists k :: 0 <= k < |frames| && frames[k].ErrorEvent?
  }

  /** A stream fails exactly when it carries an error event or the frames of one index fail alone. */
  lemma {:induction false} FailsIff<V>(reader: Reader<V>, frames: seq<Frame<V>>)
    ensures After(reader, frames).Err? <==> HasError(frames) || exists i :: FailsAt(reader, frames, i)
  {
    if After(reader, frames).Ok? {
      forall i ensures !FailsAt(reader, frames, i) { BlocksAreIndependent(reader, frames, i); }
      NoErrorRead(reader, frames);
    } else if frames != [] {
      var init, f := frames[..|frames| - 1], frames[|frames| - 1];
      FailsIff(reader, init);
      if After(reader, init).Ok? {
        FailingStep(reader, init, f);
        assert init + [f] == frames;
      } else if HasError(init) {
        var k :| 0 <= k < |init| && init[k].ErrorEvent?;
        assert frames[k].ErrorEvent?;
      } else {
        var i :| FailsAt(reader, init, i);
        if Concerns(f, i) { AfterMore(reader, At(init, i), f); }
        assert FailsAt(reader, frames, i);
      }
    }
  }

  lemma {:induction false} NoErrorRead<V>(reader: Reader<V>, frames: seq<Frame<V>>)
    requires After(reader, frames).Ok?
    ensures !HasError(frames)
  {
    if frames != [] {
      var init := frames[..|frames| - 1];
      NoErrorRead(reader, init);
      forall k | 0 <= k < |frames| ensures !frames[k].ErrorEvent? {
        if k < |init| { assert init[k] == frames[k]; }
      }
    }
  }

  lemma FailingStep<V>(reader: Reader<V>, init: seq<Frame<V>>, f: Frame<V>)
    requires After(reader, init).Ok? && Step(reader, After(reader, init).value, f).Err?
    ensures HasError(init + [f]) || exists i :: FailsAt(reader, init + [f], i)
  {
    if f.ErrorEvent? {
      assert (init + [f])[|init|].ErrorEvent?;
    } else {
      var i := f.index;
      BlocksAreIndependent(reader, init, i);
      StepIsLocal(reader, After(reader, init).value, After(reader, At(init, i)).value, f, i);
      AtMore(init, f, i);
      AfterMore(reader, At(init, i), f);
      assert FailsAt(reader, init + [f], i);
    }
  }

  // ---------------------------------------------------------------------------
  // What was understood
  // ---------------------------------------------------------------------------

  ghost predicate Started<V>(frames: seq<Frame<V>>, i: int) {
    exists k :: 0 <= k < |frames| && frames[k].BlockStart? && frames[k].index == i
  }

  predicate StopsBlock<V>(f: Frame<V>, i: int) {
    f.BlockStop? && f.index == i
  }

  predicate StartsCall<V>(f: Frame<V>, i: int) {
    f.BlockStart? && f.index == i && f.block.kind == ToolUse
  }

  /** A call started at `i`, and nothing has stopped index `i` since. */
  ghost predicate OpenCall<V>(frames: seq<Frame<V>>, i: int) {
    exists k :: 0 <= k < |frames| && StartsCall(frames[k], i) && forall m :: k < m < |frames| ==>
        !StopsBlock(frames[m], i)
  }

  /** The delta is of a kind the program knows, for a block that has started, and arguments only for an open call. */
  ghost predicate Known<V>(before: seq<Frame<V>>, i: int, d: Delta<V>) {
    Started(before, i) && !d.UnknownDelta? && (d.InputJson? ==> OpenCall(before, i))
  }

  /** Every data line was JSON, and every delta known where it came. */
  ghost predicate Understood<V>(frames: seq<Frame<V>>) {
    forall k :: 0 <= k < |frames| ==>
      !frames[k].BadLine? && (frames[k].BlockDelta? ==> Known(frames[..k], frames[k].index, frames[k].delta))
  }

  lemma StartedMore<V>(frames: seq<Frame<V>>, f: Frame<V>, i: int)
    ensures Started(frames + [f], i) <==> Started(frames, i) || (f.BlockStart? && f.index == i)
  {
    var more := frames + [f];
    assert more[|frames|] == f;
    if Started(frames, i) {
      var k :| 0 <= k < |frames| && frames[k].BlockStart? && frames[k].index == i;
      assert more[k] == frames[k];
    }
  }

  lemma OpenMore<V>(frames: seq<Frame<V>>, f: Frame<V>, i: int)
    ensures OpenCall(frames + [f], i) <==> StartsCall(f, i) || (OpenCall(frames, i) && !StopsBlock(f, i))
  {
    var more := frames + [f];
    assert more[|frames|] == f && forall k :: 0 <= k < |frames| ==> more[k] == frames[k];
    if OpenCall(more, i) && !StartsCall(f, i) {
      var k :| 0 <= k < |more| && StartsCall(more[k], i) && forall m :: k < m < |more| ==> !StopsBlock(more[m], i);
      assert StartsCall(frames[k], i);
    }
    if OpenCall(frames, i) && !StopsBlock(f, i) {
      var k :| 0 <= k < |frames| && StartsCall(frames[k], i) && forall m :: k < m < |frames| ==>
          !StopsBlock(frames[m], i);
      assert StartsCall(more[k], i);
    }
  }

  lemma UnderstoodMore<V>(frames: seq<Frame<V>>, f: Frame<V>)
    ensures Understood(frames + [f]) <==>
      Understood(frames) && !f.BadLine? && (f.BlockDelta? ==> Known(frames, f.index, f.delta))
  {
    var more := frames + [f];
    assert more[|frames|] == f && more[..|frames|] == frames;
    assert forall k :: 0 <= k < |frames| ==> more[k] == frames[k] && more[..k] == frames[..k];
  }

  /** The blocks and open calls are those the frames say, the mark of something not understood is set exactly when
      something was not, and the stream stopped exactly when it said so. */
  ghost predicate Tracks<V>(s: State<V>, frames: seq<Frame<V>>) {
    && (forall i :: i in s.blocks <==> Started(frames, i))
    && (forall i :: i in s.arguments <==> OpenCall(frames, i))
    && (s.unknown <==> !Understood(frames))
    && (s.stopped <==> exists k :: 0 <= k < |frames| && frames[k].MessageStop?)
  }

  lemma {:induction false} StateTracksFrames<V>(reader: Reader<V>, frames: seq<Frame<V>>)
    requires After(reader, frames).Ok?
    ensures Tracks(After(reader, frames).value, frames)
  {
    if frames != [] {
      var init, f := frames[..|frames| - 1], frames[|frames| - 1];
      StateTracksFrames(reader, init);
      assert init + [f] == frames;
      TracksNext(reader, After(reader, init).value, init, f);
    }
  }

  /** What one frame does to each of the four. */
  lemma StepMarks<V>(reader: Reader<V>, s: State<V>, f: Frame<V>)
    requires Sound(s) && Step(reader, s, f).Ok?
    ensures var next := Step(reader, s, f).value;
      && (forall i :: i in next.blocks <==> i in s.blocks || (f.BlockStart? && f.index == i))
      && (forall i :: i in next.arguments <==> StartsCall(f, i) || (i in s.arguments && !StopsBlock(f, i)))
      && (next.stopped <==> s.stopped || f.MessageStop?)
      && (next.unknown <==> s.unknown || f.BadLine? || (f.BlockDelta? && !Fits(s, f.index, f.delta)))
  {
    match f {
      case BlockDelta(i, d) =>
        match d { case Piece(_, _) => case InputJson(_) => case Citation(_) => case UnknownDelta => }
      case _ =>
    }
  }

  predicate Fits<V>(s: State<V>, i: int, d: Delta<V>) {
    i in s.blocks && !d.UnknownDelta? && (d.InputJson? ==> i in s.arguments)
  }

  lemma TracksNext<V>(reader: Reader<V>, s: State<V>, init: seq<Frame<V>>, f: Frame<V>)
    requires Sound(s) && Tracks(s, init) && Step(reader, s, f).Ok?
    ensures Tracks(Step(reader, s, f).value, init + [f])
  {
    var next := Step(reader, s, f).value;
    StepMarks(reader, s, f);
    forall i
      ensures i in next.blocks <==> Started(init + [f], i)
      ensures i in next.arguments <==> OpenCall(init + [f], i)
    {
      StartedMore(init, f, i);
      OpenMore(init, f, i);
    }
    UnderstoodMore(init, f);
    StoppedMore(init, f);
  }

  lemma StoppedMore<V>(init: seq<Frame<V>>, f: Frame<V>)
    ensures (exists k :: 0 <= k < |init + [f]| && (init + [f])[k].MessageStop?) <==>
      f.MessageStop? || exists k :: 0 <= k < |init| && init[k].MessageStop?
  {
    var more := init + [f];
    assert more[|init|] == f && forall k :: 0 <= k < |init| ==> more[k] == init[k];
    if k :| 0 <= k < |init| && init[k].MessageStop? { assert more[k].MessageStop?; }
  }

  ghost predicate HasBadLine<V>(frames: seq<Frame<V>>) {
    exists k :: 0 <= k < |frames| && frames[k].BadLine?
  }

  ghost predicate UnknownAt<V>(reader: Reader<V>, frames: seq<Frame<V>>, i: int) {
    After(reader, At(frames, i)).Ok? && After(reader, At(frames, i)).value.unknown
  }

  lemma StaysUnknown<V>(reader: Reader<V>, init: seq<Frame<V>>, f: Frame<V>, i: int)
    requires After(reader, init + [f]).Ok? && UnknownAt(reader, init, i)
    ensures UnknownAt(reader, init + [f], i)
  {
    AtMore(init, f, i);
    if Concerns(f, i) {
      BlocksAreIndependent(reader, init + [f], i);
      AfterMore(reader, At(init, i), f);
      StepMarks(reader, After(reader, At(init, i)).value, f);
    }
  }

  lemma NewlyUnknown<V>(reader: Reader<V>, init: seq<Frame<V>>, f: Frame<V>)
    requires After(reader, init).Ok? && !After(reader, init).value.unknown && !f.BadLine?
    requires After(reader, init + [f]).Ok? && After(reader, init + [f]).value.unknown
    ensures exists i :: UnknownAt(reader, init + [f], i)
  {
    var s := After(reader, init).value;
    AfterMore(reader, init, f);
    StepMarks(reader, s, f);
    var i := f.index;
    BlocksAreIndependent(reader, init, i);
    var t := After(reader, At(init, i)).value;
    assert SlotOf(s, i) == SlotOf(t, i) && Fits(s, i, f.delta) == Fits(t, i, f.delta);
    AtMore(init, f, i);
    AfterMore(reader, At(init, i), f);
    StepMarks(reader, t, f);
    assert UnknownAt(reader, init + [f], i);
  }

  /** A delta that is not understood is one its own block's frames already show. */
  lemma {:induction false} UnknownIsLocal<V>(reader: Reader<V>, frames: seq<Frame<V>>)
    requires After(reader, frames).Ok? && After(reader, frames).value.unknown && !HasBadLine(frames)
    ensures exists i :: UnknownAt(reader, frames, i)
  {
    if frames != [] {
      var init, f := frames[..|frames| - 1], frames[|frames| - 1];
      assert forall k :: 0 <= k < |init| ==> init[k] == frames[k];
      var s := After(reader, init).value;
      assert init + [f] == frames;
      if s.unknown {
        UnknownIsLocal(reader, init);
        var i :| UnknownAt(reader, init, i);
        StaysUnknown(reader, init, f, i);
      } else {
        NewlyUnknown(reader, init, f);
      }
    }
  }

  // ---------------------------------------------------------------------------
  // One block, split into deltas
  // ---------------------------------------------------------------------------

  function Texts<V>(ds: seq<Delta<V>>, part: Part): seq<string> {
    if ds == [] then []
    else
      var before, d := Texts(ds[..|ds| - 1], part), ds[|ds| - 1];
      if d.Piece? && d.part == part then before + [d.text] else before
  }

  function Jsons<V>(ds: seq<Delta<V>>): seq<string> {
    if ds == [] then []
    else
      var before, d := Jsons(ds[..|ds| - 1]), ds[|ds| - 1];
      if d.InputJson? then before + [d.json] else before
  }

  function Citations<V>(ds: seq<Delta<V>>): seq<V> {
    if ds == [] then []
    else
      var before, d := Citations(ds[..|ds| - 1]), ds[|ds| - 1];
      if d.Citation? then before + [d.citation] else before
  }

  /** `shell`'s text field followed by the deltas' text: what `b` has there, if either has any. */
  ghost predicate SpellsPart<V>(shell: Block<V>, ds: seq<Delta<V>>, b: Block<V>, part: Part) {
    && (part in b.texts <==> part in shell.texts || Texts(ds, part) != [])
    && Held(b, part) == Held(shell, part) + Flat(Texts(ds, part))
  }

  /** `b` is the block that starts as `shell` and goes on with the deltas, but for a call's input. */
  ghost predicate SpellsFields<V>(shell: Block<V>, ds: seq<Delta<V>>, b: Block<V>) {
    && b.kind == shell.kind && b.rest == shell.rest
    && (forall part :: SpellsPart(shell, ds, b, part))
    && b.citations == if Citations(ds) == [] then shell.citations else Some(Cited(shell) + Citations(ds))
  }

  /** A call's input is what the joined arguments stand for; any other block keeps its own. */
  ghost predicate Spells<V>(reader: Reader<V>, shell: Block<V>, ds: seq<Delta<V>>, b: Block<V>) {
    && SpellsFields(shell, ds, b)
    && (if shell.kind == ToolUse then b.input.Some? && b.input == reader.Arguments(Flat(Jsons(ds)))
        else b.input == shell.input)
  }

  /** The deltas the API sends for a block of this kind. */
  ghost predicate Suited<V>(kind: Kind, ds: seq<Delta<V>>) {
    forall k :: 0 <= k < |ds| ==>
      && !ds[k].UnknownDelta?
      && (ds[k].InputJson? ==> kind == ToolUse)
      && (ds[k].Piece? && ds[k].part == TextPart ==> kind == TextBlock)
  }

  function Deltas<V>(i: int, ds: seq<Delta<V>>): seq<Frame<V>> {
    seq(|ds|, k requires 0 <= k < |ds| => BlockDelta(i, ds[k]))
  }

  function Wire<V>(i: int, shell: Block<V>, ds: seq<Delta<V>>): seq<Frame<V>> {
    Open(i, shell, ds) + [BlockStop(i)]
  }

  /** The state with one block open. */
  ghost predicate Opened<V>(s: State<V>, i: int, shell: Block<V>, ds: seq<Delta<V>>) {
    && s.blocks.Keys == {i} && SpellsFields(shell, ds, s.blocks[i]) && s.blocks[i].input == shell.input
    && s.arguments == (if shell.kind == ToolUse then map[i := Jsons(ds)] else map[])
    && !s.unknown
  }

  lemma OpenedNext<V>(s: State<V>, i: int, shell: Block<V>, ds: seq<Delta<V>>, d: Delta<V>)
    requires Opened(s, i, shell, ds) && Suited(shell.kind, [d])
    ensures Opened(Added(s, i, d), i, shell, ds + [d])
  {
    var more, b, c := ds + [d], s.blocks[i], Added(s, i, d).blocks[i];
    assert more[..|ds|] == ds && more[|ds|] == d && [d][0] == d;
    forall part ensures SpellsPart(shell, more, c, part) {
      assert SpellsPart(shell, ds, b, part);
      if d.Piece? && d.part == part {
        FlatMore(Texts(ds, part), d.text);
        assert Held(shell, part) + Flat(Texts(ds, part)) + d.text
            == Held(shell, part) + (Flat(Texts(ds, part)) + d.text);
      }
    }
    if d.Citation? {
      assert Cited(b) + [d.citation] == Cited(shell) + (Citations(ds) + [d.citation]);
    }
  }

  lemma AfterDelta<V>(reader: Reader<V>, frames: seq<Frame<V>>, i: int, d: Delta<V>)
    requires After(reader, frames).Ok?
    ensures After(reader, frames + [BlockDelta(i, d)]) == Ok(Added(After(reader, frames).value, i, d))
  {
    AfterMore(reader, frames, BlockDelta(i, d));
  }

  /** A block started and not yet stopped. */
  function Open<V>(i: int, shell: Block<V>, ds: seq<Delta<V>>): seq<Frame<V>> {
    [BlockStart(i, shell)] + Deltas(i, ds)
  }

  lemma OpenMoreOf<V>(i: int, shell: Block<V>, ds: seq<Delta<V>>, d: Delta<V>)
    ensures Open(i, shell, ds + [d]) == Open(i, shell, ds) + [BlockDelta(i, d)]
  {
    assert Deltas(i, ds + [d]) == Deltas(i, ds) + [BlockDelta(i, d)];
  }

  lemma JustOpened<V>(reader: Reader<V>, i: int, shell: Block<V>)
    ensures After(reader, Open(i, shell, [])).Ok? && Opened(After(reader, Open(i, shell, [])).value, i, shell, [])
  {
    assert Open(i, shell, []) == [] + [BlockStart(i, shell)];
    AfterMore(reader, [], BlockStart(i, shell));
    assert forall part :: SpellsPart(shell, [], shell, part);
  }

  lemma {:induction false} OpenBlock<V>(reader: Reader<V>, i: int, shell: Block<V>, ds: seq<Delta<V>>)
    requires Suited(shell.kind, ds)
    ensures After(reader, Open(i, shell, ds)).Ok? && Opened(After(reader, Open(i, shell, ds)).value, i, shell, ds)
  {
    if ds == [] {
      JustOpened(reader, i, shell);
    } else {
      var init, d := ds[..|ds| - 1], ds[|ds| - 1];
      OpenBlock(reader, i, shell, init);
      OpenedNext(After(reader, Open(i, shell, init)).value, i, shell, init, d);
      AfterDelta(reader, Open(i, shell, init), i, d);
      OpenMoreOf(i, shell, init, d);
      assert init + [d] == ds;
    }
  }

  /** However a block is split into deltas, its frames alone put it back together. */
  lemma SplitBlockIsWhole<V>(reader: Reader<V>, i: int, shell: Block<V>, ds: seq<Delta<V>>, b: Block<V>)
    requires Suited(shell.kind, ds) && Spells(reader, shell, ds, b)
    ensures After(reader, Wire(i, shell, ds)).Ok?
    ensures var s := After(reader, Wire(i, shell, ds)).value;
      s.blocks == map[i := b] && s.arguments == map[] && !s.unknown
  {
    var open := Open(i, shell, ds);
    OpenBlock(reader, i, shell, ds);
    AfterMore(reader, open, BlockStop(i));
    var s := After(reader, Wire(i, shell, ds)).value;
    var was := After(reader, open).value.blocks[i];
    forall part ensures SpellsPart(shell, ds, s.blocks[i], part) {
      assert SpellsPart(shell, ds, was, part);
    }
    SpelledOnce(shell, ds, s.blocks[i], b);
    assert s.blocks[i] == b;
  }

  lemma SpelledOnce<V>(shell: Block<V>, ds: seq<Delta<V>>, a: Block<V>, b: Block<V>)
    requires SpellsFields(shell, ds, a) && SpellsFields(shell, ds, b)
    ensures a.texts == b.texts && a.citations == b.citations && a.kind == b.kind && a.rest == b.rest
  {
    forall part
      ensures part in a.texts <==> part in b.texts
      ensures part in a.texts ==> a.texts[part] == b.texts[part]
    {
      assert SpellsPart(shell, ds, a, part) && SpellsPart(shell, ds, b, part);
    }
  }

  // ---------------------------------------------------------------------------
  // A whole reply
  // ---------------------------------------------------------------------------

  ghost predicate IsWire<V(!new)>(reader: Reader<V>, frames: seq<Frame<V>>, i: int, b: Block<V>) {
    exists shell, ds ::
      frames == Wire(i, shell, ds) && Suited(shell.kind, ds) && Spells(reader, shell, ds, b)
  }

  /** A stream of these blocks: each split into deltas in any way, their frames in any order between them and among
      any others, ended by one message_stop. */
  ghost predicate Streams<V(!new)>(reader: Reader<V>, frames: seq<Frame<V>>, blocks: map<int, Block<V>>) {
    && frames != [] && frames[|frames| - 1].MessageStop?
    && (forall k :: 0 <= k < |frames| - 1 ==> !frames[k].MessageStop?)
    && !HasError(frames) && !HasBadLine(frames)
    && forall i :: if i in blocks then IsWire(reader, At(frames, i), i, blocks[i]) else At(frames, i) == []
  }

  lemma StreamedAlone<V(!new)>(reader: Reader<V>, frames: seq<Frame<V>>, blocks: map<int, Block<V>>, i: int)
    requires Streams(reader, frames, blocks)
    ensures After(reader, At(frames, i)).Ok?
    ensures var s := After(reader, At(frames, i)).value;
      !s.unknown && SlotOf(s, i) == Slot(if i in blocks then Some(blocks[i]) else None, None)
  {
    if i in blocks {
      var shell, ds :| At(frames, i) == Wire(i, shell, ds) && Suited(shell.kind, ds)
        && Spells(reader, shell, ds, blocks[i]);
      SplitBlockIsWhole(reader, i, shell, ds, blocks[i]);
    }
  }

  lemma StreamedState<V(!new)>(reader: Reader<V>, frames: seq<Frame<V>>, blocks: map<int, Block<V>>)
    requires Streams(reader, frames, blocks)
    ensures After(reader, frames).Ok?
    ensures var s := After(reader, frames).value;
      s.blocks == blocks && s.arguments == map[] && !s.unknown && s.stopped
  {
    forall i ensures !FailsAt(reader, frames, i) && !UnknownAt(reader, frames, i) {
      StreamedAlone(reader, frames, blocks, i);
    }
    FailsIff(reader, frames);
    var s := After(reader, frames).value;
    if s.unknown { UnknownIsLocal(reader, frames); }
    forall i ensures SlotOf(s, i) == Slot(if i in blocks then Some(blocks[i]) else None, None) {
      BlocksAreIndependent(reader, frames, i);
      StreamedAlone(reader, frames, blocks, i);
    }
    forall i
      ensures (i in s.blocks <==> i in blocks) && (i in blocks ==> s.blocks[i] == blocks[i]) && i !in s.arguments
    {
      assert SlotOf(s, i) == Slot(if i in blocks then Some(blocks[i]) else None, None);
    }
    assert s.blocks == blocks;
    assert s.arguments == map[];
    StateTracksFrames(reader, frames);
  }

  lemma StopsAtTheEnd<V>(frames: seq<Frame<V>>, k: nat)
    requires k <= |frames| && forall j :: 0 <= j < |frames| - 1 ==> !frames[j].MessageStop?
    ensures StopAt(frames, k) == |frames|
    decreases |frames| - k
  {
    if k < |frames| && !frames[k].MessageStop? { StopsAtTheEnd(frames, k + 1); }
  }

  // ---------------------------------------------------------------------------
  // The message around the blocks
  // ---------------------------------------------------------------------------

  /** A field of the message, or a count of its usage. */
  datatype Entry = FieldOf(key: string) | CountOf(key: string)

  function Lookup<V>(m: map<string, V>, key: string): Option<V> {
    if key in m then Some(m[key]) else None
  }

  function InMessage<V>(m: Message<V>, e: Entry): Option<V> {
    if e.FieldOf? then Lookup(m.fields, e.key) else Lookup(m.usage, e.key)
  }

  /** Whether a frame says what an entry is: a message_start says it of all, a message_delta of the stop fields and
      the other fields it carries and of the counts it gives that are not null. */
  predicate Says<V>(f: Frame<V>, e: Entry) {
    || f.MessageStart?
    || (f.MessageDelta? &&
        if e.FieldOf? then
          e.key in f.extra || (e.key in f.stops && (e.key == "stop_reason" || e.key == "stop_sequence"))
        else e.key in f.counts && f.counts[e.key].Some?)
  }

  function Said<V>(f: Frame<V>, e: Entry): Option<V>
    requires Says(f, e)
  {
    if f.MessageStart? then InMessage(f.message, e)
    else if e.CountOf? then f.counts[e.key]
    else if e.key in f.extra then Some(f.extra[e.key])
    else Some(f.stops[e.key])
  }

  /** `v` is what the last frame to say so says the entry is; an entry nobody speaks of is not there. */
  ghost predicate LastSaid<V>(frames: seq<Frame<V>>, e: Entry, v: Option<V>) {
    || (v.None? && forall k :: 0 <= k < |frames| ==> !Says(frames[k], e))
    || exists k :: 0 <= k < |frames| && SaidLastAt(frames, k, e, v)
  }

  ghost predicate SaidLastAt<V>(frames: seq<Frame<V>>, k: nat, e: Entry, v: Option<V>)
    requires k < |frames|
  {
    Says(frames[k], e) && Said(frames[k], e) == v && forall j :: k < j < |frames| ==> !Says(frames[j], e)
  }

  lemma LastSaidMore<V>(frames: seq<Frame<V>>, f: Frame<V>, e: Entry, v: Option<V>)
    requires LastSaid(frames, e, v)
    ensures LastSaid(frames + [f], e, if Says(f, e) then Said(f, e) else v)
  {
    var more := frames + [f];
    assert more[|frames|] == f && forall k :: 0 <= k < |frames| ==> more[k] == frames[k];
    if Says(f, e) {
      assert SaidLastAt(more, |frames|, e, Said(f, e));
    } else if k :| 0 <= k < |frames| && SaidLastAt(frames, k, e, v) {
      assert SaidLastAt(more, k, e, v);
    }
  }

  lemma SaidOnce<V>(frames: seq<Frame<V>>, e: Entry, v: Option<V>, w: Option<V>)
    requires LastSaid(frames, e, v) && LastSaid(frames, e, w)
    ensures v == w
  {
    if k :| 0 <= k < |frames| && SaidLastAt(frames, k, e, v) {
      var j :| 0 <= j < |frames| && SaidLastAt(frames, j, e, w);
      assert j == k;
    }
  }

  lemma StepSays<V>(reader: Reader<V>, s: State<V>, f: Frame<V>, e: Entry)
    requires Sound(s) && Step(reader, s, f).Ok?
    ensures InMessage(Step(reader, s, f).value.message, e) == if Says(f, e) then Said(f, e) else InMessage(s.message, e)
  {
    match f {
      case BlockDelta(_, d) =>
        match d { case Piece(_, _) => case InputJson(_) => case Citation(_) => case UnknownDelta => }
      case _ =>
    }
  }

  lemma {:induction false} MessageIsLastSaid<V>(reader: Reader<V>, frames: seq<Frame<V>>, e: Entry)
    requires After(reader, frames).Ok?
    ensures LastSaid(frames, e, InMessage(After(reader, frames).value.message, e))
  {
    if frames != [] {
      var init, f := frames[..|frames| - 1], frames[|frames| - 1];
      assert frames == init + [f];
      MessageIsLastSaid(reader, init, e);
      LastSaidMore(init, f, e, InMessage(After(reader, init).value.message, e));
      StepSays(reader, After(reader, init).value, f, e);
    }
  }

  /** The frames say of every field and every count what it is in `m`. */
  ghost predicate SpellsMessage<V>(frames: seq<Frame<V>>, m: Message<V>) {
    forall e: Entry :: LastSaid(frames, e, InMessage(m, e))
  }

  lemma MessageSpelledOnce<V>(frames: seq<Frame<V>>, m: Message<V>, n: Message<V>)
    requires SpellsMessage(frames, m) && forall e: Entry :: LastSaid(frames, e, InMessage(n, e))
    ensures m == n
  {
    forall e: Entry ensures InMessage(m, e) == InMessage(n, e) {
      SaidOnce(frames, e, InMessage(m, e), InMessage(n, e));
    }
    forall key ensures Lookup(m.fields, key) == Lookup(n.fields, key) && Lookup(m.usage, key) == Lookup(n.usage, key) {
      assert InMessage(m, FieldOf(key)) == InMessage(n, FieldOf(key));
      assert InMessage(m, CountOf(key)) == InMessage(n, CountOf(key));
    }
    SameMap(m.fields, n.fields);
    SameMap(m.usage, n.usage);
  }

  lemma SameMap<V>(a: map<string, V>, b: map<string, V>)
    requires forall key :: Lookup(a, key) == Lookup(b, key)
    ensures a == b
  {
    forall key ensures (key in a <==> key in b) && (key in a ==> a[key] == b[key]) {
      assert Lookup(a, key) == Lookup(b, key);
    }
  }

  /** Streaming and whole replies agree: every stream of a reply, whatever the split of its blocks and the order of
      their frames, gives that reply, with its stop reason, its usage and its blocks in the order of their indices. */
  lemma StreamedIsWhole<V(!new)>(
    reader: Reader<V>, frames: seq<Frame<V>>, m: Message<V>, blocks: map<int, Block<V>>)
    requires Streams(reader, frames, blocks) && SpellsMessage(frames, m)
    ensures Assembled(reader, frames).Ok?
    ensures var reply := Assembled(reader, frames).value;
      reply.message == m && reply.verbatim && InKeyOrder(blocks, reply.content)
  {
    StreamedContent(reader, frames, blocks);
    ContentIsInKeyOrder(blocks);
    var s := After(reader, frames).value;
    forall e: Entry ensures LastSaid(frames, e, InMessage(s.message, e)) { MessageIsLastSaid(reader, frames, e); }
    MessageSpelledOnce(frames, m, s.message);
  }

  lemma StreamedContent<V(!new)>(reader: Reader<V>, frames: seq<Frame<V>>, blocks: map<int, Block<V>>)
    requires Streams(reader, frames, blocks)
    ensures After(reader, frames).Ok?
    ensures Assembled(reader, frames) == Ok(Reply(After(reader, frames).value.message, Content(blocks), true))
  {
    StreamedState(reader, frames, blocks);
    StopsAtTheEnd(frames, 0);
    assert frames[..|frames|] == frames;
  }

  // ---------------------------------------------------------------------------
  // What any stream may give
  // ---------------------------------------------------------------------------

  function Read<V>(frames: seq<Frame<V>>): seq<Frame<V>> {
    frames[..StopAt(frames, 0)]
  }

  lemma ContentIsInKeyOrder<V>(blocks: map<int, Block<V>>)
    ensures InKeyOrder(blocks, Content(blocks))
  {
    assert ListedUnder(blocks, SortedKeys(blocks.Keys), Content(blocks));
  }

  /** Every reply, of any stream, has one block for every index that was started, in the order of the indices, and each
      is the whole block that this index's own frames leave: text, thinking, signature, citations, input and the
      rest. */
  lemma ReplyHoldsItsBlocks<V>(reader: Reader<V>, frames: seq<Frame<V>>) returns (keys: seq<int>)
    requires Assembled(reader, frames).Ok?
    ensures Ascending(keys) && forall i :: i in keys <==> Started(Read(frames), i)
    ensures var content := Assembled(reader, frames).value.content;
      |content| == |keys| && forall n :: 0 <= n < |keys| ==> LeftAlone(reader, Read(frames), keys[n], content[n])
  {
    var read := Read(frames);
    var blocks := After(reader, read).value.blocks;
    StateTracksFrames(reader, read);
    keys := SortedKeys(blocks.Keys);
    forall n | 0 <= n < |keys| ensures LeftAlone(reader, read, keys[n], Content(blocks)[n]) {
      assert keys[n] in keys;
      BlocksAreIndependent(reader, read, keys[n]);
    }
  }

  /** The frames of index `i`, read alone, leave this block there. */
  ghost predicate LeftAlone<V>(reader: Reader<V>, frames: seq<Frame<V>>, i: int, block: Block<V>) {
    var alone := After(reader, At(frames, i));
    alone.Ok? && i in alone.value.blocks && alone.value.blocks[i] == block
  }

  ghost predicate HasCall<V>(reply: Reply<V>) {
    exists k :: 0 <= k < |reply.content| && reply.content[k].kind == ToolUse
  }

  lemma ContentHasCall<V>(blocks: map<int, Block<V>>)
    ensures CallsATool(blocks) <==> exists k :: 0 <= k < |Content(blocks)| && Content(blocks)[k].kind == ToolUse
  {
    var keys, content := SortedKeys(blocks.Keys), Content(blocks);
    if CallsATool(blocks) {
      var i :| i in blocks && blocks[i].kind == ToolUse;
      assert i in keys;
      var k :| 0 <= k < |keys| && keys[k] == i;
      assert content[k].kind == ToolUse;
    }
    if k :| 0 <= k < |content| && content[k].kind == ToolUse {
      assert keys[k] in keys && blocks[keys[k]].kind == ToolUse;
    }
  }

  /** A reply comes only from a stream that reached its message_stop; it calls a tool only if every delta and every
      data line up to there was understood, and may be replayed as it is exactly when they were. */
  lemma CallsNeedTheWholeStream<V>(reader: Reader<V>, frames: seq<Frame<V>>)
    requires Assembled(reader, frames).Ok?
    ensures var reply := Assembled(reader, frames).value;
      && (exists k :: 0 <= k < |Read(frames)| && Read(frames)[k].MessageStop?)
      && (reply.verbatim <==> Understood(Read(frames)))
      && (HasCall(reply) ==> Understood(Read(frames)))
  {
    StateTracksFrames(reader, Read(frames));
    ContentHasCall(After(reader, Read(frames)).value.blocks);
  }

  /** Refused as unreadable: exactly the streams that end, hold a call, and were not understood. */
  lemma RefusedIff<V>(reader: Reader<V>, frames: seq<Frame<V>>)
    ensures Assembled(reader, frames) == Err(UnreadableReply) <==>
      && After(reader, Read(frames)).Ok?
      && (exists k :: 0 <= k < |Read(frames)| && Read(frames)[k].MessageStop?)
      && CallsATool(After(reader, Read(frames)).value.blocks)
      && !Understood(Read(frames))
  {
    if After(reader, Read(frames)).Ok? {
      StateTracksFrames(reader, Read(frames));
    } else {
      NeverUnreadable(reader, Read(frames));
    }
  }

  lemma {:induction false} NeverUnreadable<V>(reader: Reader<V>, frames: seq<Frame<V>>)
    ensures After(reader, frames) != Err(UnreadableReply)
  {
    if frames != [] { NeverUnreadable(reader, frames[..|frames| - 1]); }
  }
}
