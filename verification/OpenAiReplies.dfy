/** What a streamed OpenAI-compatible reply is, however its text and its calls' arguments are split and interleaved. */
module OpenAiReplies {
  import opened Wrappers
  import opened OpenAiStream

  // ---------------------------------------------------------------------------
  // What a stream carries
  // ---------------------------------------------------------------------------

  function Choices<V>(frames: seq<Frame<V>>): seq<Choice<V>> {
    if frames == [] then [] else Choices(frames[..|frames| - 1]) + frames[|frames| - 1].choices
  }

  function TextOf<V>(cs: seq<Choice<V>>, part: Part): string {
    if cs == [] then "" else TextOf(cs[..|cs| - 1], part) + cs[|cs| - 1].delta.Text(part)
  }

  function DetailsOf<V>(cs: seq<Choice<V>>): seq<V> {
    if cs == [] then [] else DetailsOf(cs[..|cs| - 1]) + cs[|cs| - 1].delta.details
  }

  function CallDeltas<V>(cs: seq<Choice<V>>): seq<CallDelta> {
    if cs == [] then [] else CallDeltas(cs[..|cs| - 1]) + cs[|cs| - 1].delta.calls
  }

  function Roles<V>(cs: seq<Choice<V>>): seq<string> {
    seq(|cs|, k requires 0 <= k < |cs| => cs[k].delta.role)
  }

  function Finishes<V>(cs: seq<Choice<V>>): seq<string> {
    seq(|cs|, k requires 0 <= k < |cs| => cs[k].finish)
  }

  function FirstOf(values: seq<string>): string {
    if values == [] then "" else if values[0] != "" then values[0] else FirstOf(values[1..])
  }

  function LastOf(values: seq<string>): string {
    if values == [] then "" else
      var last := values[|values| - 1];
      if last != "" then last else LastOf(values[..|values| - 1])
  }

  lemma CallsConcatMore(calls: map<int, Call>, a: seq<CallDelta>, b: seq<CallDelta>, d: CallDelta)
    requires CallsAfter(calls, a + b) == CallsAfter(CallsAfter(calls, a), b)
    ensures CallsAfter(calls, a + (b + [d])) == CallsAfter(CallsAfter(calls, a), b + [d])
  {
    assert a + (b + [d]) == (a + b) + [d];
    CallsMore(calls, a + b, d);
    CallsMore(CallsAfter(calls, a), b, d);
  }

  lemma {:induction false} CallsConcat(calls: map<int, Call>, a: seq<CallDelta>, b: seq<CallDelta>)
    ensures CallsAfter(calls, a + b) == CallsAfter(CallsAfter(calls, a), b)
  {
    if b == [] {
      assert a + b == a;
    } else {
      var init, d := b[..|b| - 1], b[|b| - 1];
      assert b == init + [d];
      CallsConcat(calls, a, init);
      CallsConcatMore(calls, a, init, d);
    }
  }

  lemma ChoicesMore<V>(s: State<V>, cs: seq<Choice<V>>, c: Choice<V>)
    ensures AfterChoices(s, cs + [c]) == ChoiceStep(AfterChoices(s, cs), c)
  {
    assert (cs + [c])[..|cs|] == cs;
  }

  lemma {:induction false} ChoicesConcat<V>(s: State<V>, a: seq<Choice<V>>, b: seq<Choice<V>>)
    ensures AfterChoices(s, a + b) == AfterChoices(AfterChoices(s, a), b)
  {
    if b == [] {
      assert a + b == a;
    } else {
      var init := b[..|b| - 1];
      ChoicesConcat(s, a, init);
      assert a + b == (a + init) + [b[|b| - 1]];
      ChoicesMore(s, a + init, b[|b| - 1]);
    }
  }

  lemma {:induction false} UsageApart<V>(s: State<V>, usage: Option<V>, cs: seq<Choice<V>>)
    ensures AfterChoices(s.(usage := usage), cs) == AfterChoices(s, cs).(usage := usage)
  {
    if cs != [] { UsageApart(s, usage, cs[..|cs| - 1]); }
  }

  /** The usage the last chunk to carry one carries. */
  function UsageOf<V>(frames: seq<Frame<V>>): Option<V> {
    if frames == [] then None
    else if frames[|frames| - 1].usage.Some? then frames[|frames| - 1].usage
    else UsageOf(frames[..|frames| - 1])
  }

  /** How a stream is cut into chunks and choices makes no difference but to the usage, which is the last one. */
  lemma {:induction false} AfterIsItsChoices<V>(frames: seq<Frame<V>>)
    ensures After(frames) == AfterChoices(Fresh(), Choices(frames)).(usage := UsageOf(frames))
  {
    if frames == [] {
      assert After(frames) == AfterChoices(Fresh(), Choices(frames)).(usage := None);
    } else {
      var init, f := frames[..|frames| - 1], frames[|frames| - 1];
      AfterIsItsChoices(init);
      var s: State<V> := AfterChoices(Fresh(), Choices(init));
      UsageApart(s, UsageOf(frames), f.choices);
      ChoicesConcat(Fresh(), Choices(init), f.choices);
      var before := After(init);
      assert (if f.usage.Some? then before.(usage := f.usage) else before) == s.(usage := UsageOf(frames));
    }
  }

  /** The state holds what the choices carry. */
  ghost predicate Holds<V>(s: State<V>, cs: seq<Choice<V>>) {
    && (forall part :: HoldsText(s, cs, part))
    && s.shown == s.content && s.details == DetailsOf(cs) && s.calls == CallsAfter(map[], CallDeltas(cs))
    && s.role == (if LastOf(Roles(cs)) == "" then "assistant" else LastOf(Roles(cs)))
    && s.finish == (if LastOf(Finishes(cs)) == "" then None else Some(LastOf(Finishes(cs))))
  }

  ghost predicate HoldsText<V>(s: State<V>, cs: seq<Choice<V>>, part: Part) {
    Flat(s.Sink(part)) == TextOf(cs, part) && (s.Sink(part) == [] <==> TextOf(cs, part) == "")
  }

  lemma HoldsTextNext<V>(s: State<V>, cs: seq<Choice<V>>, c: Choice<V>, part: Part)
    requires HoldsText(s, cs, part)
    ensures HoldsText(ChoiceStep(s, c), cs + [c], part)
  {
    assert (cs + [c])[..|cs|] == cs;
    var piece := c.delta.Text(part);
    assert ChoiceStep(s, c).Sink(part) == Appended(s.Sink(part), piece);
    FlatMore(s.Sink(part), piece);
  }

  lemma LastOfMore<V>(cs: seq<Choice<V>>, c: Choice<V>)
    ensures LastOf(Roles(cs + [c])) == if c.delta.role == "" then LastOf(Roles(cs)) else c.delta.role
    ensures LastOf(Finishes(cs + [c])) == if c.finish == "" then LastOf(Finishes(cs)) else c.finish
  {
    var more := cs + [c];
    assert Roles(more)[..|cs|] == Roles(cs) && Finishes(more)[..|cs|] == Finishes(cs);
  }

  lemma HoldsNext<V>(s: State<V>, cs: seq<Choice<V>>, c: Choice<V>)
    requires Holds(s, cs)
    ensures Holds(ChoiceStep(s, c), cs + [c])
  {
    var next, more := ChoiceStep(s, c), cs + [c];
    assert more[..|cs|] == cs;
    LastOfMore(cs, c);
    assert next.calls == CallsAfter(map[], CallDeltas(more)) by {
      CallsConcat(map[], CallDeltas(cs), c.delta.calls);
    }
    forall part ensures HoldsText(next, more, part) { HoldsTextNext(s, cs, c, part); }
  }

  lemma NothingHeld<V>()
    ensures Holds(Fresh<V>(), [])
  {
    assert forall part :: HoldsText(Fresh<V>(), [], part);
  }

  lemma {:induction false} ChoicesAreHeld<V>(cs: seq<Choice<V>>)
    ensures Holds(AfterChoices(Fresh<V>(), cs), cs)
  {
    if cs == [] {
      NothingHeld<V>();
    } else {
      var init, c := cs[..|cs| - 1], cs[|cs| - 1];
      ChoicesAreHeld(init);
      HoldsNext(AfterChoices(Fresh(), init), init, c);
      ChoicesMore(Fresh(), init, c);
      assert init + [c] == cs;
    }
  }

  // ---------------------------------------------------------------------------
  // Calls
  // ---------------------------------------------------------------------------

  /** The index each delta is for: its own, or else the number of indices there are so far. */
  function Indices(ds: seq<CallDelta>): (r: seq<int>)
    ensures |r| == |ds|
  {
    if ds == [] then []
    else
      var before, d := Indices(ds[..|ds| - 1]), ds[|ds| - 1];
      before + [if d.index.Some? then d.index.value else DistinctCount(before)]
  }

  function DistinctCount(indices: seq<int>): nat {
    |set i | i in indices|
  }

  /** The deltas for index `i`. */
  function DeltasAt(ds: seq<CallDelta>, i: int): seq<CallDelta> {
    if ds == [] then []
    else
      var before := DeltasAt(ds[..|ds| - 1], i);
      if Indices(ds)[|ds| - 1] == i then before + [ds[|ds| - 1]] else before
  }

  /** The indices in use are those of the deltas. */
  lemma {:induction false} CallsAreIndices(ds: seq<CallDelta>)
    ensures CallsAfter(map[], ds).Keys == set i | i in Indices(ds)
  {
    if ds != [] {
      var init, d := ds[..|ds| - 1], ds[|ds| - 1];
      CallsAreIndices(init);
      assert |CallsAfter(map[], init)| == |CallsAfter(map[], init).Keys|;
      assert Indices(ds) == Indices(init) + [IndexOf(CallsAfter(map[], init), d)];
    }
  }

  function Ids(ds: seq<CallDelta>): seq<string> {
    seq(|ds|, k requires 0 <= k < |ds| => ds[k].id)
  }

  function Names(ds: seq<CallDelta>): seq<string> {
    seq(|ds|, k requires 0 <= k < |ds| => ds[k].name)
  }

  function Arguments(ds: seq<CallDelta>): seq<string> {
    seq(|ds|, k requires 0 <= k < |ds| => ds[k].arguments)
  }

  /** The call these deltas make: the first id and the first name that are not empty, and all the arguments. */
  function CallOf(ds: seq<CallDelta>): Call {
    Call(FirstOf(Ids(ds)), FirstOf(Names(ds)), Flat(Arguments(ds)))
  }

  lemma {:induction false} FirstOfMore(values: seq<string>, v: string)
    ensures FirstOf(values + [v]) == if FirstOf(values) == "" then v else FirstOf(values)
  {
    if values == [] {
      assert values + [v] == [v];
    } else {
      assert (values + [v])[1..] == values[1..] + [v];
      FirstOfMore(values[1..], v);
    }
  }

  lemma CallOfMore(ds: seq<CallDelta>, d: CallDelta)
    ensures CallOf(ds + [d]) == Merged(CallOf(ds), d)
  {
    assert Ids(ds + [d]) == Ids(ds) + [d.id];
    assert Names(ds + [d]) == Names(ds) + [d.name];
    assert Arguments(ds + [d]) == Arguments(ds) + [d.arguments];
    FirstOfMore(Ids(ds), d.id);
    FirstOfMore(Names(ds), d.name);
    FlatMore(Arguments(ds), d.arguments);
  }

  /** A call is made by the deltas of its own index alone. */
  lemma {:induction false} CallIsItsDeltas(ds: seq<CallDelta>, i: int)
    ensures i in CallsAfter(map[], ds) <==> DeltasAt(ds, i) != []
    ensures i in CallsAfter(map[], ds) ==> CallsAfter(map[], ds)[i] == CallOf(DeltasAt(ds, i))
  {
    if ds != [] {
      var init, d := ds[..|ds| - 1], ds[|ds| - 1];
      CallIsItsDeltas(init, i);
      CallsAreIndices(init);
      var before := CallsAfter(map[], init);
      assert |before| == |before.Keys|;
      assert Indices(ds)[|init|] == IndexOf(before, d);
      if Indices(ds)[|init|] == i {
        CallOfMore(DeltasAt(init, i), d);
        assert CallOf([]) == Call("", "", "");
      }
    }
  }

  /** The deltas stream these calls: each call's own deltas, in any split and any order between the calls. */
  ghost predicate StreamsCalls(ds: seq<CallDelta>, calls: map<int, Call>) {
    forall i :: if i in calls then DeltasAt(ds, i) != [] && CallOf(DeltasAt(ds, i)) == calls[i]
        else DeltasAt(ds, i) == []
  }

  lemma StreamedCallsAreWhole(ds: seq<CallDelta>, calls: map<int, Call>)
    requires StreamsCalls(ds, calls)
    ensures CallsAfter(map[], ds) == calls
  {
    var after := CallsAfter(map[], ds);
    forall i ensures (i in after <==> i in calls) && (i in calls ==> after[i] == calls[i]) {
      CallIsItsDeltas(ds, i);
      assert if i in calls then DeltasAt(ds, i) != [] && CallOf(DeltasAt(ds, i)) == calls[i] else DeltasAt(ds, i) == [];
    }
  }

  /** In an ascending list of naturals every member is at least its place. */
  lemma {:induction false} AtLeastItsPlace(r: seq<int>, k: nat)
    requires k < |r| && forall i :: i in r ==> 0 <= i
    requires forall a, b :: 0 <= a < b < |r| ==> r[a] < r[b]
    ensures r[k] >= k
  {
    assert r[k] in r;
    if k > 0 { AtLeastItsPlace(r, k - 1); }
  }

  /** `0` to `n - 1` are their own ascending list. */
  lemma CountedKeys(r: seq<int>, n: nat)
    requires forall i :: i in r <==> 0 <= i < n
    requires forall a, b :: 0 <= a < b < |r| ==> r[a] < r[b]
    ensures |r| == n && forall j :: 0 <= j < n ==> r[j] == j
  {
    if r != [] {
      AtLeastItsPlace(r, |r| - 1);
      assert r[|r| - 1] in r;
    }
    CountedUpTo(r, n, n);
  }

  lemma {:induction false} CountedUpTo(r: seq<int>, n: nat, k: nat)
    requires forall i :: i in r <==> 0 <= i < n
    requires forall a, b :: 0 <= a < b < |r| ==> r[a] < r[b]
    requires k <= n
    ensures |r| >= k && forall j :: 0 <= j < k ==> r[j] == j
  {
    if k > 0 {
      CountedUpTo(r, n, k - 1);
      assert k - 1 in r;
      var at :| 0 <= at < |r| && r[at] == k - 1;
      AtLeastItsPlace(r, k - 1);
    }
  }

  /** The calls are the deltas themselves, counted from 0. */
  ghost predicate OneEach(calls: map<int, Call>, ds: seq<CallDelta>) {
    && |calls| == |ds| && (forall i :: i in calls <==> 0 <= i < |ds|)
    && forall k :: 0 <= k < |ds| ==> calls[k] == Call(ds[k].id, ds[k].name, ds[k].arguments)
  }

  lemma OneEachNext(calls: map<int, Call>, ds: seq<CallDelta>, d: CallDelta)
    requires OneEach(calls, ds) && d.index.None?
    ensures OneEach(CallStep(calls, d), ds + [d])
  {
    assert |ds| !in calls;
    assert CallStep(calls, d) == calls[|ds| := Call(d.id, d.name, "" + d.arguments)];
    assert "" + d.arguments == d.arguments;
  }

  /** A server that sends each call whole and without an index gets each as a call of its own, in order. */
  lemma {:induction false} UnindexedCallsStayApart(ds: seq<CallDelta>)
    requires forall k :: 0 <= k < |ds| ==> ds[k].index.None?
    ensures OneEach(CallsAfter(map[], ds), ds)
  {
    if ds != [] {
      var init, d := ds[..|ds| - 1], ds[|ds| - 1];
      UnindexedCallsStayApart(init);
      OneEachNext(CallsAfter(map[], init), init, d);
      assert init + [d] == ds;
    }
  }

  lemma UnindexedCallsAreListed(ds: seq<CallDelta>)
    requires forall k :: 0 <= k < |ds| ==> ds[k].index.None?
    ensures |Listed(CallsAfter(map[], ds))| == |ds|
    ensures forall k :: 0 <= k < |ds| ==>
      Listed(CallsAfter(map[], ds))[k] == Call(ds[k].id, ds[k].name, ds[k].arguments)
  {
    UnindexedCallsStayApart(ds);
    CountedKeys(SortedKeys(CallsAfter(map[], ds).Keys), |ds|);
  }

  /** A delta without an index opens no call of its own exactly when the number of calls so far is itself an index in
      use. */
  lemma UnindexedJoinsIff(ds: seq<CallDelta>, d: CallDelta)
    requires d.index.None?
    ensures var n := |CallsAfter(map[], ds)|;
      |CallsAfter(map[], ds + [d])| == n <==> n in Indices(ds)
  {
    CallsAreIndices(ds);
    CallsMore(map[], ds, d);
    var before := CallsAfter(map[], ds);
    assert |before| in before <==> |before| in Indices(ds);
  }

  /** So a second call, sent without an index after a call at index 1, is lost in the first. */
  lemma GapsMergeCalls(a: CallDelta, b: CallDelta)
    requires a.index == Some(1) && b.index.None? && a.id != "" && a.name != ""
    ensures CallsAfter(map[], [a, b]) == map[1 := Call(a.id, a.name, a.arguments + b.arguments)]
  {
    var none: map<int, Call> := map[];
    CallsMore(none, [], a);
    CallsMore(none, [a], b);
    assert [] + [a] == [a] && [a] + [b] == [a, b];
    assert "" + a.arguments == a.arguments;
    var one := CallsAfter(none, [a]);
    assert one == map[1 := Call(a.id, a.name, a.arguments)];
    var both := CallsAfter(none, [a, b]);
    assert both == map[1 := Call(a.id, a.name, a.arguments + b.arguments)];
  }

  // ---------------------------------------------------------------------------
  // A whole reply
  // ---------------------------------------------------------------------------

  function TextOrNone(text: string): Option<string> {
    if text == "" then None else Some(text)
  }

  /** A stream of this reply: its text, reasoning and details in any split, its calls in any split and order, its
      finish reason and its usage given last. */
  ghost predicate Streams<V>(frames: seq<Frame<V>>, reply: Reply<V>, calls: map<int, Call>) {
    var m, cs := reply.message, Choices(frames);
    && m.content == TextOf(cs, ContentPart)
    && m.reasoning == TextOrNone(TextOf(cs, ReasoningPart))
    && m.otherReasoning == TextOrNone(TextOf(cs, OtherReasoningPart))
    && m.details == DetailsOf(cs) && InKeyOrder(calls, m.calls) && StreamsCalls(CallDeltas(cs), calls)
    && m.role == (if LastOf(Roles(cs)) == "" then "assistant" else LastOf(Roles(cs)))
    && reply.finish == TextOrNone(LastOf(Finishes(cs)))
    && LastUsage(frames, reply.usage)
  }

  /** No chunk carries a usage, or this is the one the last of them carries. */
  ghost predicate LastUsage<V>(frames: seq<Frame<V>>, usage: Option<V>) {
    || (usage.None? && forall k :: 0 <= k < |frames| ==> frames[k].usage.None?)
    || (usage.Some? && exists k :: 0 <= k < |frames| && UsageLastAt(frames, k, usage))
  }

  ghost predicate UsageLastAt<V>(frames: seq<Frame<V>>, k: nat, usage: Option<V>)
    requires k < |frames|
  {
    frames[k].usage == usage && forall j :: k < j < |frames| ==> frames[j].usage.None?
  }

  lemma {:induction false} UsageIsLast<V>(frames: seq<Frame<V>>, usage: Option<V>)
    requires LastUsage(frames, usage)
    ensures UsageOf(frames) == usage
  {
    if frames != [] && frames[|frames| - 1].usage.None? {
      var init := frames[..|frames| - 1];
      assert forall k :: 0 <= k < |init| ==> init[k] == frames[k];
      if usage.Some? {
        var k :| 0 <= k < |frames| && UsageLastAt(frames, k, usage);
        assert UsageLastAt(init, k, usage);
      }
      UsageIsLast(init, usage);
    } else if frames != [] && usage.Some? {
      var k :| 0 <= k < |frames| && UsageLastAt(frames, k, usage);
      assert k == |frames| - 1;
    }
  }

  lemma StateIsHeld<V>(frames: seq<Frame<V>>)
    ensures Holds(After(frames), Choices(frames))
  {
    var cs := Choices(frames);
    AfterIsItsChoices(frames);
    ChoicesAreHeld(cs);
    var s := AfterChoices(Fresh<V>(), cs);
    assert forall part :: After(frames).Sink(part) == s.Sink(part);
    forall part ensures HoldsText(After(frames), cs, part) { assert HoldsText(s, cs, part); }
  }

  /** A choice is progress exactly when it carries a part of a call or changes more of what was read than the role and
      the finish reason. */
  lemma ProgressIff<V>(s: State<V>, c: Choice<V>)
    ensures Carries(c.delta) <==> c.delta.calls != [] || ChoiceStep(s, c).(role := s.role, finish := s.finish) != s
  {
    var next, d := ChoiceStep(s, c), c.delta;
    assert |next.content| == |s.content| + if d.content == "" then 0 else 1;
    assert |next.reasoning| == |s.reasoning| + if d.reasoning == "" then 0 else 1;
    assert |next.otherReasoning| == |s.otherReasoning| + if d.otherReasoning == "" then 0 else 1;
    assert |next.details| == |s.details| + |d.details|;
    assert d.details == [] ==> next.details == s.details;
  }

  lemma ListedIs(calls: map<int, Call>, list: seq<Call>)
    requires InKeyOrder(calls, list)
    ensures list == Listed(calls)
  {
    assert ListedUnder(calls, SortedKeys(calls.Keys), Listed(calls));
    KeyOrderOnce(calls, list, Listed(calls));
  }

  /** Streaming and whole replies agree: every stream of a reply gives that reply, with its finish reason and its
      usage, and the pieces shown are its content. */
  lemma StreamedIsWhole<V>(frames: seq<Frame<V>>, reply: Reply<V>, calls: map<int, Call>)
    requires Streams(frames, reply, calls)
    ensures Finished(After(frames)) == reply
    ensures Flat(After(frames).shown) == reply.message.content
  {
    var s, cs := After(frames), Choices(frames);
    StateIsHeld(frames);
    AfterIsItsChoices(frames);
    UsageIsLast(frames, reply.usage);
    StreamedCallsAreWhole(CallDeltas(cs), calls);
    ListedIs(calls, reply.message.calls);
    assert HoldsText(s, cs, ContentPart) && HoldsText(s, cs, ReasoningPart) && HoldsText(s, cs, OtherReasoningPart);
    assert s.Sink(ContentPart) == s.content && s.Sink(ReasoningPart) == s.reasoning;
    assert s.Sink(OtherReasoningPart) == s.otherReasoning;
  }

  /** The chunks of some lines are the decoded ones, in order, up to the end marker; nothing after it is read. */
  lemma {:induction false} ChunksInOrder<V>(before: seq<Line<V>>, line: Line<V>, rest: seq<Line<V>>)
    requires forall k :: 0 <= k < |before| ==> !before[k].DoneLine?
    ensures Chunks(before + [line] + rest) == Chunks(before) +
      match line case DoneLine => [] case NoData => Chunks(rest) case Data(f) => [f] + Chunks(rest)
  {
    var lines := before + [line] + rest;
    if before == [] {
      assert lines[0] == line && lines[1..] == rest;
    } else {
      assert lines[0] == before[0] && lines[1..] == before[1..] + [line] + rest;
      ChunksInOrder(before[1..], line, rest);
    }
  }

  /** And so does reading its lines, once the end marker or the finish reason has come. */
  lemma LinesGiveTheReply<V>(lines: seq<Line<V>>, reply: Reply<V>, calls: map<int, Call>)
    requires Streams(Chunks(lines), reply, calls) && (EndMarked(lines) || reply.finish.Some?)
    ensures Assembled(lines) == Some(reply)
  {
    StreamedIsWhole(Chunks(lines), reply, calls);
  }

  lemma {:induction false} LastOfIsSome(values: seq<string>)
    ensures LastOf(values) != "" <==> exists k :: 0 <= k < |values| && values[k] != ""
  {
    if values != [] {
      var init := values[..|values| - 1];
      LastOfIsSome(init);
      if k :| 0 <= k < |init| && init[k] != "" { assert values[k] != ""; }
      assert forall k :: 0 <= k < |init| ==> values[k] == init[k];
    }
  }

  ghost predicate NamesItsFinish<V>(cs: seq<Choice<V>>) {
    exists k :: 0 <= k < |cs| && cs[k].finish != ""
  }

  /** A reply comes exactly from a stream that reached its end marker or named a reason it finished. */
  lemma AnswersIff<V>(lines: seq<Line<V>>)
    ensures Assembled(lines).Some? <==> EndMarked(lines) || NamesItsFinish(Choices(Chunks(lines)))
  {
    var cs := Choices(Chunks(lines));
    var finishes := Finishes(cs);
    StateIsHeld(Chunks(lines));
    LastOfIsSome(finishes);
    if NamesItsFinish(cs) {
      var k :| 0 <= k < |cs| && cs[k].finish != "";
      assert finishes[k] != "";
    }
    if k :| 0 <= k < |finishes| && finishes[k] != "" { assert cs[k].finish != ""; }
  }
}
