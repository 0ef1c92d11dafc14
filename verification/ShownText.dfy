/** The text handed on while a Claude reply streams, against the answer the finished reply holds. */
module ShownText {
  import opened Wrappers
  import opened AnthropicStream
  import opened AnthropicReplies

  /** A piece of text and the index it came for. */
  datatype Arrival = Arrival(index: int, text: string)

  function All(arrivals: seq<Arrival>): string {
    if arrivals == [] then "" else All(arrivals[..|arrivals| - 1]) + arrivals[|arrivals| - 1].text
  }

  function TextAt(arrivals: seq<Arrival>, i: int): string {
    if arrivals == [] then ""
    else
      var before, a := TextAt(arrivals[..|arrivals| - 1], i), arrivals[|arrivals| - 1];
      if a.index == i then before + a.text else before
  }

  /** The pieces put together index by index. */
  function ByIndex(arrivals: seq<Arrival>, keys: seq<int>): string {
    if keys == [] then "" else TextAt(arrivals, keys[0]) + ByIndex(arrivals, keys[1..])
  }

  predicate Ascending(keys: seq<int>) {
    forall a, b :: 0 <= a < b < |keys| ==> keys[a] < keys[b]
  }

  predicate InOrder(arrivals: seq<Arrival>) {
    forall a, b :: 0 <= a < b < |arrivals| ==> arrivals[a].index <= arrivals[b].index
  }

  lemma {:induction false} NothingAbove(arrivals: seq<Arrival>, keys: seq<int>)
    requires forall a, k :: 0 <= a < |arrivals| && 0 <= k < |keys| ==> arrivals[a].index < keys[k]
    ensures ByIndex(arrivals, keys) == ""
    decreases |keys|, |arrivals|
  {
    if keys != [] {
      NothingAt(arrivals, keys[0]);
      NothingAbove(arrivals, keys[1..]);
    }
  }

  lemma {:induction false} NothingAt(arrivals: seq<Arrival>, i: int)
    requires forall a :: 0 <= a < |arrivals| ==> arrivals[a].index != i
    ensures TextAt(arrivals, i) == ""
  {
    if arrivals != [] { NothingAt(arrivals[..|arrivals| - 1], i); }
  }

  lemma {:induction false} ByIndexMore(arrivals: seq<Arrival>, a: Arrival, keys: seq<int>)
    requires Ascending(keys) && a.index in keys
    requires forall k :: 0 <= k < |arrivals| ==> arrivals[k].index <= a.index
    ensures ByIndex(arrivals + [a], keys) == ByIndex(arrivals, keys) + a.text
  {
    var more, rest := arrivals + [a], keys[1..];
    assert more[..|arrivals|] == arrivals;
    if keys[0] == a.index {
      NothingAbove(arrivals, rest);
      NothingAbove(more, rest);
    } else {
      ByIndexMore(arrivals, a, rest);
      assert TextAt(arrivals, keys[0]) + (ByIndex(arrivals, rest) + a.text)
          == TextAt(arrivals, keys[0]) + ByIndex(arrivals, rest) + a.text;
    }
  }

  /** Pieces that come index after index join to what they join to index by index. */
  lemma {:induction false} OrderedPiecesJoin(arrivals: seq<Arrival>, keys: seq<int>)
    requires Ascending(keys) && InOrder(arrivals)
    requires forall k :: 0 <= k < |arrivals| ==> arrivals[k].index in keys
    ensures All(arrivals) == ByIndex(arrivals, keys)
  {
    if arrivals == [] {
      EmptyByIndex(keys);
    } else {
      var init, a := arrivals[..|arrivals| - 1], arrivals[|arrivals| - 1];
      OrderedPiecesJoin(init, keys);
      ByIndexMore(init, a, keys);
      assert init + [a] == arrivals;
    }
  }

  lemma {:induction false} EmptyByIndex(keys: seq<int>)
    ensures ByIndex([], keys) == ""
  {
    if keys != [] { EmptyByIndex(keys[1..]); }
  }

  // ---------------------------------------------------------------------------
  // Order is needed
  // ---------------------------------------------------------------------------

  function Zip(order: seq<int>, texts: seq<string>): seq<Arrival>
    requires |order| == |texts|
  {
    seq(|order|, k requires 0 <= k < |order| => Arrival(order[k], texts[k]))
  }

  /** Whatever the pieces say, they join to the same text as they come and index by index. */
  ghost predicate AlwaysJoins(order: seq<int>) {
    forall texts: seq<string> | |texts| == |order| ::
      All(Zip(order, texts)) == ByIndex(Zip(order, texts), SortedKeys(set i | i in order))
  }

  /** "a" at place `k`, "b" at the next, nothing elsewhere. */
  function TwoPieces(n: nat, k: nat): seq<string> {
    seq(n, j => if j == k then "a" else if j == k + 1 then "b" else "")
  }

  lemma {:induction false} TwoPiecesRead(arrivals: seq<Arrival>, order: seq<int>, k: nat, i: int)
    requires k + 1 < |order| && order[k] != order[k + 1] && |arrivals| <= |order|
    requires arrivals == Zip(order, TwoPieces(|order|, k))[..|arrivals|]
    ensures All(arrivals) == (if |arrivals| > k then "a" else "") + (if |arrivals| > k + 1 then "b" else "")
    ensures TextAt(arrivals, i) ==
      (if i == order[k] && |arrivals| > k then "a" else "")
          + (if i == order[k + 1] && |arrivals| > k + 1 then "b" else "")
  {
    if arrivals != [] {
      var init := arrivals[..|arrivals| - 1];
      assert init == Zip(order, TwoPieces(|order|, k))[..|init|];
      TwoPiecesRead(init, order, k, i);
    }
  }

  lemma {:induction false} TwoPiecesByIndex(arrivals: seq<Arrival>, order: seq<int>, k: nat, keys: seq<int>)
    requires k + 1 < |order| && order[k] > order[k + 1] && Ascending(keys)
    requires arrivals == Zip(order, TwoPieces(|order|, k))
    ensures ByIndex(arrivals, keys)
        == (if order[k + 1] in keys then "b" else "") + (if order[k] in keys then "a" else "")
  {
    if keys != [] {
      assert arrivals == arrivals[..|arrivals|];
      TwoPiecesRead(arrivals, order, k, keys[0]);
      TwoPiecesByIndex(arrivals, order, k, keys[1..]);
      assert keys == [keys[0]] + keys[1..];
    }
  }

  lemma {:induction false} Descent(order: seq<int>) returns (k: nat)
    requires exists a, b :: 0 <= a < b < |order| && order[a] > order[b]
    ensures k + 1 < |order| && order[k] > order[k + 1]
  {
    var a, b :| 0 <= a < b < |order| && order[a] > order[b];
    k := a;
    while order[k] <= order[k + 1]
      invariant a <= k < b && order[k] > order[b]
      decreases b - k
    {
      k := k + 1;
    }
  }

  lemma OutOfOrder(order: seq<int>, k: nat)
    requires k + 1 < |order| && order[k] > order[k + 1]
    ensures !AlwaysJoins(order)
  {
    var keys, texts := SortedKeys(set i | i in order), TwoPieces(|order|, k);
    var arrivals := Zip(order, texts);
    assert arrivals == arrivals[..|arrivals|];
    TwoPiecesRead(arrivals, order, k, order[k]);
    TwoPiecesByIndex(arrivals, order, k, keys);
    assert All(arrivals)[0] == 'a' && ByIndex(arrivals, keys)[0] == 'b';
  }

  /** What is shown is the answer, whatever the text, exactly when text comes index after index: two text blocks
      streamed in turns are shown out of order. */
  lemma ShownInOrderIff(order: seq<int>)
    ensures AlwaysJoins(order) <==> forall a, b :: 0 <= a < b < |order| ==> order[a] <= order[b]
  {
    if forall a, b :: 0 <= a < b < |order| ==> order[a] <= order[b] {
      forall texts: seq<string> | |texts| == |order|
        ensures All(Zip(order, texts)) == ByIndex(Zip(order, texts), SortedKeys(set i | i in order))
      {
        OrderedPiecesJoin(Zip(order, texts), SortedKeys(set i | i in order));
      }
    } else {
      var k := Descent(order);
      OutOfOrder(order, k);
    }
  }

  // ---------------------------------------------------------------------------
  // The text of a stream
  // ---------------------------------------------------------------------------

  predicate IsText<V>(f: Frame<V>) {
    f.BlockDelta? && f.delta.Piece? && f.delta.part == TextPart
  }

  function Arrivals<V>(frames: seq<Frame<V>>): seq<Arrival> {
    if frames == [] then []
    else
      var before, f := Arrivals(frames[..|frames| - 1]), frames[|frames| - 1];
      if IsText(f) then before + [Arrival(f.index, f.delta.text)] else before
  }

  function TextIn<V>(f: Frame<V>): string {
    if IsText(f) then f.delta.text else ""
  }

  lemma ShownNext<V>(reader: Reader<V>, s: State<V>, f: Frame<V>)
    requires Sound(s) && Step(reader, s, f).Ok? && !Step(reader, s, f).value.unknown
    ensures !s.unknown
    ensures Step(reader, s, f).value.shown == if TextIn(f) == "" then s.shown else s.shown + [TextIn(f)]
  {
    match f {
      case BlockDelta(i, d) =>
      case BlockStop(_) =>
      case _ =>
    }
  }

  lemma {:induction false} ShownIsWhatArrived<V>(reader: Reader<V>, frames: seq<Frame<V>>)
    requires After(reader, frames).Ok? && !After(reader, frames).value.unknown
    ensures Flat(After(reader, frames).value.shown) == All(Arrivals(frames))
  {
    if frames != [] {
      var init, f := frames[..|frames| - 1], frames[|frames| - 1];
      ShownNext(reader, After(reader, init).value, f);
      ShownIsWhatArrived(reader, init);
      FlatMore(After(reader, init).value.shown, TextIn(f));
      AllMore(init, f);
      assert init + [f] == frames;
    }
  }

  lemma AllMore<V>(init: seq<Frame<V>>, f: Frame<V>)
    ensures All(Arrivals(init + [f])) == All(Arrivals(init)) + TextIn(f)
  {
    assert (init + [f])[..|init|] == init;
    if IsText(f) {
      assert (Arrivals(init) + [Arrival(f.index, f.delta.text)])[..|Arrivals(init)|] == Arrivals(init);
    }
  }

  lemma {:induction false} TextAtIsItsOwn<V>(frames: seq<Frame<V>>, i: int)
    ensures TextAt(Arrivals(frames), i) == TextAt(Arrivals(At(frames, i)), i)
  {
    if frames != [] {
      var init, f := frames[..|frames| - 1], frames[|frames| - 1];
      TextAtIsItsOwn(init, i);
      ArrivalsMore(init, f, i);
      if Concerns(f, i) { ArrivalsMore(At(init, i), f, i); }
      assert init + [f] == frames;
    }
  }

  lemma ArrivalsMore<V>(frames: seq<Frame<V>>, f: Frame<V>, i: int)
    ensures TextAt(Arrivals(frames + [f]), i) ==
      TextAt(Arrivals(frames), i) + if IsText(f) && f.index == i then f.delta.text else ""
  {
    var arrivals := Arrivals(frames);
    assert (frames + [f])[..|frames|] == frames;
    if IsText(f) {
      assert (arrivals + [Arrival(f.index, f.delta.text)])[..|arrivals|] == arrivals;
    }
  }

  lemma {:induction false} TextOfDeltas<V>(i: int, shell: Block<V>, ds: seq<Delta<V>>)
    ensures TextAt(Arrivals(Open(i, shell, ds)), i) == Flat(Texts(ds, TextPart))
  {
    if ds == [] {
      assert Open(i, shell, ds) == [] + [BlockStart(i, shell)];
      ArrivalsMore([], BlockStart(i, shell), i);
    } else {
      var init, d := ds[..|ds| - 1], ds[|ds| - 1];
      TextOfDeltas(i, shell, init);
      OpenMoreOf(i, shell, init, d);
      assert init + [d] == ds;
      ArrivalsMore(Open(i, shell, init), BlockDelta(i, d), i);
      if d.Piece? && d.part == TextPart { FlatMore(Texts(init, TextPart), d.text); }
    }
  }

  function AnswerText<V>(b: Block<V>): string {
    if b.kind == TextBlock then Held(b, TextPart) else ""
  }

  /** The text of a finished reply: its text blocks' text, in order. */
  function Answer<V>(content: seq<Block<V>>): string {
    if content == [] then "" else AnswerText(content[0]) + Answer(content[1..])
  }

  /** Every text block starts without text. */
  ghost predicate StartsEmpty<V>(frames: seq<Frame<V>>) {
    forall k :: 0 <= k < |frames| && frames[k].BlockStart? ==> AnswerText(frames[k].block) == ""
  }

  lemma {:induction false} AtIsFound<V>(frames: seq<Frame<V>>, i: int, k: nat) returns (m: nat)
    requires k < |frames| && Concerns(frames[k], i)
    ensures m < |At(frames, i)| && At(frames, i)[m] == frames[k]
  {
    var init := frames[..|frames| - 1];
    if k < |init| { m := AtIsFound(init, i, k); } else { m := |At(init, i)|; }
  }

  lemma {:induction false} AtIsFrom<V>(frames: seq<Frame<V>>, i: int, m: nat) returns (k: nat)
    requires m < |At(frames, i)|
    ensures k < |frames| && At(frames, i)[m] == frames[k]
  {
    var init := frames[..|frames| - 1];
    if m < |At(init, i)| { k := AtIsFrom(init, i, m); } else { k := |init|; }
  }

  lemma {:induction false} NoTextUnlessSuited<V>(kind: Kind, ds: seq<Delta<V>>)
    requires Suited(kind, ds) && kind != TextBlock
    ensures Texts(ds, TextPart) == []
  {
    if ds != [] {
      var init := ds[..|ds| - 1];
      assert forall k :: 0 <= k < |init| ==> init[k] == ds[k];
      NoTextUnlessSuited(kind, init);
    }
  }

  /** The start of block `i`, whose text is followed by what arrives for `i`. */
  lemma TextOfBlock<V(!new)>(reader: Reader<V>, frames: seq<Frame<V>>, blocks: map<int, Block<V>>, i: int)
    returns (start: nat)
    requires Streams(reader, frames, blocks) && i in blocks
    ensures start < |frames| && frames[start].BlockStart? && frames[start].index == i
    ensures forall k :: 0 <= k < |frames| && frames[k].BlockStart? && frames[k].index == i ==>
        frames[k] == frames[start]
    ensures AnswerText(blocks[i]) == AnswerText(frames[start].block) + TextAt(Arrivals(frames), i)
  {
    TextAtIsItsOwn(frames, i);
    var shell, ds :| At(frames, i) == Wire(i, shell, ds) && Suited(shell.kind, ds)
      && Spells(reader, shell, ds, blocks[i]);
    start := AtIsFrom(frames, i, 0);
    assert frames[start] == BlockStart(i, shell);
    forall k | 0 <= k < |frames| && frames[k].BlockStart? && frames[k].index == i
      ensures frames[k] == frames[start]
    {
      var m := AtIsFound(frames, i, k);
      assert Wire(i, shell, ds)[m].BlockStart?;
    }
    TextOfDeltas(i, shell, ds);
    ArrivalsMore(Open(i, shell, ds), BlockStop(i), i);
    assert SpellsPart(shell, ds, blocks[i], TextPart);
    if shell.kind != TextBlock { NoTextUnlessSuited(shell.kind, ds); }
  }

  /** The answer is never shorter than what arrived, and longer as soon as one block started with text. */
  lemma {:induction false} AnswerAgainstArrivals<V>(
    content: seq<Block<V>>, starts: seq<string>, arrivals: seq<Arrival>, keys: seq<int>)
    requires |content| == |keys| == |starts|
    requires forall n :: 0 <= n < |keys| ==> AnswerText(content[n]) == starts[n] + TextAt(arrivals, keys[n])
    ensures (forall n :: 0 <= n < |keys| ==> starts[n] == "") ==> Answer(content) == ByIndex(arrivals, keys)
    ensures |Answer(content)| >= |ByIndex(arrivals, keys)|
    ensures forall n :: 0 <= n < |keys| && starts[n] != "" ==> |Answer(content)| > |ByIndex(arrivals, keys)|
  {
    if keys != [] {
      AnswerAgainstArrivals(content[1..], starts[1..], arrivals, keys[1..]);
      assert forall n :: 1 <= n < |keys| ==> starts[n] == starts[1..][n - 1];
      assert forall n :: 0 <= n < |keys| - 1 ==> starts[1..][n] == starts[n + 1];
    }
  }

  lemma {:induction false} TextComesForBlocks<V>(frames: seq<Frame<V>>, keys: seq<int>)
    requires forall i :: i !in keys ==> At(frames, i) == []
    ensures forall k :: 0 <= k < |Arrivals(frames)| ==> Arrivals(frames)[k].index in keys
  {
    if frames != [] {
      var init, f := frames[..|frames| - 1], frames[|frames| - 1];
      forall i | i !in keys ensures At(init, i) == [] && !Concerns(f, i) {
        assert At(frames, i) == [];
      }
      TextComesForBlocks(init, keys);
    }
  }

  /** Block `i` started with `text`, and what arrived for `i` follows it. */
  ghost predicate StartedWith<V>(frames: seq<Frame<V>>, blocks: map<int, Block<V>>, i: int, text: string) {
    && i in blocks && AnswerText(blocks[i]) == text + TextAt(Arrivals(frames), i)
    && (forall k :: 0 <= k < |frames| && frames[k].BlockStart? && frames[k].index == i ==>
          AnswerText(frames[k].block) == text)
    && exists k :: 0 <= k < |frames| && frames[k].BlockStart? && frames[k].index == i
  }

  lemma {:induction false} StartsOfBlocks<V(!new)>(
    reader: Reader<V>, frames: seq<Frame<V>>, blocks: map<int, Block<V>>, keys: seq<int>) returns (starts: seq<string>)
    requires Streams(reader, frames, blocks) && forall n :: 0 <= n < |keys| ==> keys[n] in blocks
    ensures |starts| == |keys| && forall n :: 0 <= n < |keys| ==> StartedWith(frames, blocks, keys[n], starts[n])
    decreases |keys|
  {
    if keys == [] { return []; }
    var rest := StartsOfBlocks(reader, frames, blocks, keys[1..]);
    var start := TextOfBlock(reader, frames, blocks, keys[0]);
    var text := AnswerText(frames[start].block);
    assert StartedWith(frames, blocks, keys[0], text);
    starts := [text] + rest;
    forall n | 0 <= n < |keys| ensures StartedWith(frames, blocks, keys[n], starts[n]) {
      if n > 0 { assert keys[n] == keys[1..][n - 1] && starts[n] == rest[n - 1]; }
    }
  }

  lemma TextStartIsOfABlock<V(!new)>(
    reader: Reader<V>, frames: seq<Frame<V>>, blocks: map<int, Block<V>>, k: nat) returns (n: nat)
    requires Streams(reader, frames, blocks) && k < |frames| && frames[k].BlockStart?
    ensures n < |SortedKeys(blocks.Keys)| && SortedKeys(blocks.Keys)[n] == frames[k].index
  {
    var m := AtIsFound(frames, frames[k].index, k);
    assert frames[k].index in SortedKeys(blocks.Keys);
    n :| 0 <= n < |SortedKeys(blocks.Keys)| && SortedKeys(blocks.Keys)[n] == frames[k].index;
  }

  lemma AnswerIff<V(!new)>(reader: Reader<V>, frames: seq<Frame<V>>, blocks: map<int, Block<V>>)
    requires Streams(reader, frames, blocks)
    ensures Answer(Content(blocks)) == ByIndex(Arrivals(frames), SortedKeys(blocks.Keys)) <==> StartsEmpty(frames)
  {
    var keys, arrivals, content := SortedKeys(blocks.Keys), Arrivals(frames), Content(blocks);
    forall n | 0 <= n < |keys| ensures keys[n] in blocks { assert keys[n] in keys; }
    var starts := StartsOfBlocks(reader, frames, blocks, keys);
    forall n | 0 <= n < |keys|
      ensures AnswerText(content[n]) == starts[n] + TextAt(arrivals, keys[n])
      ensures StartsEmpty(frames) ==> starts[n] == ""
    {
      assert StartedWith(frames, blocks, keys[n], starts[n]);
    }
    AnswerAgainstArrivals(content, starts, arrivals, keys);
    if !StartsEmpty(frames) {
      var k :| 0 <= k < |frames| && frames[k].BlockStart? && AnswerText(frames[k].block) != "";
      var n := TextStartIsOfABlock(reader, frames, blocks, k);
      assert StartedWith(frames, blocks, keys[n], starts[n]);
      assert starts[n] != "";
    }
  }

  /** When text comes index after index, the pieces shown join to the finished reply's answer exactly when no text
      block started with text of its own, which the program never shows. */
  lemma ShownIsTheAnswerIff<V(!new)>(reader: Reader<V>, frames: seq<Frame<V>>, blocks: map<int, Block<V>>)
    requires Streams(reader, frames, blocks) && InOrder(Arrivals(frames))
    ensures After(reader, frames).Ok? && Assembled(reader, frames).Ok?
    ensures Flat(After(reader, frames).value.shown) == Answer(Assembled(reader, frames).value.content)
            <==> StartsEmpty(frames)
  {
    StreamedContent(reader, frames, blocks);
    StreamedState(reader, frames, blocks);
    ShownIsWhatArrived(reader, frames);
    TextComesForBlocks(frames, SortedKeys(blocks.Keys));
    OrderedPiecesJoin(Arrivals(frames), SortedKeys(blocks.Keys));
    AnswerIff(reader, frames, blocks);
  }
}
