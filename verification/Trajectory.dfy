/** The neutral in-turn trajectory: call/result pairing, eviction units, shrinking an oversized
    group, and call ids made unique (arslan/llm/trajectory.py). */
module Trajectory {
  import opened Wrappers
  import Text

  datatype Role = User | Assistant | Tool | System

  datatype Block = Block(kind: string, body: string)

  datatype Content = Text(text: string) | Blocks(blocks: seq<Block>)

  datatype Call = Call(id: string, name: string, arguments: string)

  datatype Message = Message(
    role: Role,
    content: Content,
    calls: seq<Call>,
    callId: Option<string>,
    name: string,
    synthetic: bool,
    legacyRaw: bool,
    legacySuffix: string,
    images: seq<string>,
    imageLabel: string)

  predicate IsHead(m: Message) {
    m.role == Assistant && m.calls != []
  }

  /** A tool message that answers a call; a synthetic (host-run) one stands alone. */
  predicate IsResult(m: Message) {
    m.role == Tool && !m.synthetic
  }

  function Ids(calls: seq<Call>): (ids: seq<string>)
    ensures |ids| == |calls|
    ensures forall k :: 0 <= k < |ids| ==> ids[k] == calls[k].id
  {
    seq(|calls|, k requires 0 <= k < |calls| => calls[k].id)
  }

  // ---------------------------------------------------------------------------
  // Pairing, stated without reference to any scan
  // ---------------------------------------------------------------------------

  /** The messages right after the call message at `i` answer its calls, one each, in order. */
  ghost predicate AnsweredAt(ms: seq<Message>, i: nat)
    requires i < |ms|
  {
    var calls := ms[i].calls;
    && Distinct(Ids(calls))
    && i + |calls| < |ms|
    && forall k :: i < k <= i + |calls| ==> IsResult(ms[k]) && ms[k].callId == Some(calls[k - i - 1].id)
  }

  /** Some call message reaches far enough to be answered by position `j`. */
  ghost predicate ClaimedBy(ms: seq<Message>, i: nat, j: nat) {
    i < j < |ms| && IsHead(ms[i]) && j <= i + |ms[i].calls|
  }

  ghost predicate Paired(ms: seq<Message>) {
    && (forall i :: 0 <= i < |ms| && IsHead(ms[i]) ==> AnsweredAt(ms, i))
    && (forall j :: 0 <= j < |ms| && IsResult(ms[j]) ==> exists i: nat :: ClaimedBy(ms, i, j))
  }

  // ---------------------------------------------------------------------------
  // The scan
  // ---------------------------------------------------------------------------

  datatype TrajectoryError = OrphanResult(at: nat) | DuplicateIds(at: nat) | WrongAnswers(at: nat)

  /** The first violation, scanning from the front; `at` is the position of `ms[0]` in the history. */
  ghost function Violation(ms: seq<Message>, at: nat): Option<TrajectoryError> {
    if ms == [] then None
    else if IsResult(ms[0]) then Some(OrphanResult(at))
    else if !IsHead(ms[0]) then Violation(ms[1..], at + 1)
    else if !Distinct(Ids(ms[0].calls)) then Some(DuplicateIds(at))
    else if !AnsweredAt(ms, 0) then Some(WrongAnswers(at))
    else Violation(ms[1 + |ms[0].calls|..], at + 1 + |ms[0].calls|)
  }

  ghost predicate Accepts(ms: seq<Message>) {
    Violation(ms, 0) == None
  }

  lemma {:induction false} ViolationShift(ms: seq<Message>, at: nat, at': nat)
    ensures Violation(ms, at) == None <==> Violation(ms, at') == None
    decreases |ms|
  {
    if ms != [] && !IsResult(ms[0]) {
      if !IsHead(ms[0]) {
        ViolationShift(ms[1..], at + 1, at' + 1);
      } else if AnsweredAt(ms, 0) {
        var n := 1 + |ms[0].calls|;
        ViolationShift(ms[n..], at + n, at' + n);
      }
    }
  }

  /** `Accepts`, one step at a time. */
  lemma AcceptsStep(ms: seq<Message>)
    requires ms != []
    ensures IsResult(ms[0]) ==> !Accepts(ms)
    ensures !IsResult(ms[0]) && !IsHead(ms[0]) ==> (Accepts(ms) <==> Accepts(ms[1..]))
    ensures IsHead(ms[0]) ==> (Accepts(ms) <==> AnsweredAt(ms, 0) && Accepts(ms[1 + |ms[0].calls|..]))
  {
    ViolationShift(ms[1..], 1, 0);
    if IsHead(ms[0]) && AnsweredAt(ms, 0) {
      ViolationShift(ms[1 + |ms[0].calls|..], 1 + |ms[0].calls|, 0);
    }
  }

  lemma {:induction false} AcceptsConcat(a: seq<Message>, b: seq<Message>)
    requires Accepts(a)
    ensures Accepts(a + b) <==> Accepts(b)
    decreases |a|
  {
    if a == [] {
      assert a + b == b;
    } else {
      AcceptsStep(a);
      AcceptsStep(a + b);
      var n := if IsHead(a[0]) then 1 + |a[0].calls| else 1;
      assert (a + b)[n..] == a[n..] + b;
      AcceptsConcat(a[n..], b);
    }
  }

  /** The scan accepts exactly the histories in which calls and results are paired. */
  lemma {:induction false} AcceptsIffPaired(ms: seq<Message>)
    ensures Accepts(ms) <==> Paired(ms)
    decreases |ms|
  {
    if ms != [] {
      AcceptsStep(ms);
      if IsResult(ms[0]) {
        assert !exists i: nat :: ClaimedBy(ms, i, 0);
      } else if !IsHead(ms[0]) {
        AcceptsIffPaired(ms[1..]);
        PairedRest(ms, 1);
      } else if AnsweredAt(ms, 0) {
        AcceptsIffPaired(ms[1 + |ms[0].calls|..]);
        PairedRest(ms, 1 + |ms[0].calls|);
      }
    }
  }

  /** Whether a call message is answered depends only on what follows it. */
  lemma AnsweredShift(ms: seq<Message>, n: nat, i: nat)
    requires n + i < |ms|
    ensures AnsweredAt(ms[n..], i) <==> AnsweredAt(ms, n + i)
  {
    var rest, c := ms[n..], |ms[n + i].calls|;
    assert rest[i] == ms[n + i];
    if AnsweredAt(ms, n + i) {
      forall k | i < k <= i + c ensures IsResult(rest[k]) && rest[k].callId == Some(rest[i].calls[k - i - 1].id) {
        assert rest[k] == ms[n + k];
      }
    }
    if AnsweredAt(rest, i) {
      forall k | n + i < k <= n + i + c
        ensures IsResult(ms[k]) && ms[k].callId == Some(ms[n + i].calls[k - n - i - 1].id)
      {
        assert rest[k - n] == ms[k];
      }
    }
  }

  /** The first `n` messages: one that is no call or result, or a call with all of its answers. */
  ghost predicate CompleteUnit(ms: seq<Message>, n: nat) {
    && 0 < n <= |ms| && !IsResult(ms[0])
    && (if IsHead(ms[0]) then AnsweredAt(ms, 0) && n == 1 + |ms[0].calls| else n == 1)
  }

  /** A complete first unit neither lends to nor borrows from what follows it. */
  lemma PairedRest(ms: seq<Message>, n: nat)
    requires CompleteUnit(ms, n)
    ensures Paired(ms) <==> Paired(ms[n..])
  {
    if Paired(ms[n..]) { PairedPrepend(ms, n); }
    if Paired(ms) { PairedDrop(ms, n); }
  }

  lemma PairedPrepend(ms: seq<Message>, n: nat)
    requires CompleteUnit(ms, n) && Paired(ms[n..])
    ensures Paired(ms)
  {
    var rest := ms[n..];
    forall i | 0 <= i < |ms| && IsHead(ms[i]) ensures AnsweredAt(ms, i) {
      if i >= n {
        assert rest[i - n] == ms[i];
        AnsweredShift(ms, n, i - n);
      }
    }
    forall j | 0 <= j < |ms| && IsResult(ms[j]) ensures exists i: nat :: ClaimedBy(ms, i, j) {
      ClaimPrepend(ms, n, j);
    }
  }

  lemma ClaimPrepend(ms: seq<Message>, n: nat, j: nat)
    requires CompleteUnit(ms, n) && Paired(ms[n..]) && j < |ms| && IsResult(ms[j])
    ensures exists i: nat :: ClaimedBy(ms, i, j)
  {
    var rest := ms[n..];
    if j < n {
      assert ClaimedBy(ms, 0, j);
    } else {
      assert rest[j - n] == ms[j];
      var i: nat :| ClaimedBy(rest, i, j - n);
      assert ClaimedBy(ms, n + i, j);
    }
  }

  lemma PairedDrop(ms: seq<Message>, n: nat)
    requires CompleteUnit(ms, n) && Paired(ms)
    ensures Paired(ms[n..])
  {
    var rest := ms[n..];
    forall i | 0 <= i < |rest| && IsHead(rest[i]) ensures AnsweredAt(rest, i) {
      AnsweredShift(ms, n, i);
    }
    forall j | 0 <= j < |rest| && IsResult(rest[j]) ensures exists i: nat :: ClaimedBy(rest, i, j) {
      ClaimDrop(ms, n, j);
    }
  }

  lemma ClaimDrop(ms: seq<Message>, n: nat, j: nat)
    requires CompleteUnit(ms, n) && Paired(ms) && j < |ms| - n && IsResult(ms[n + j])
    ensures exists i: nat :: ClaimedBy(ms[n..], i, j)
  {
    var rest := ms[n..];
    var i: nat :| ClaimedBy(ms, i, n + j);
    if i < n {
      assert false;
    }
    assert rest[i - n] == ms[i];
    assert ClaimedBy(rest, i - n, j);
  }

  /** The scan's look at a call message and what follows it. */
  method CheckCall(ms: seq<Message>, index: nat) returns (error: Option<TrajectoryError>)
    requires index < |ms| && IsHead(ms[index])
    ensures error == if !Distinct(Ids(ms[index].calls)) then Some(DuplicateIds(index))
                     else if !AnsweredAt(ms, index) then Some(WrongAnswers(index)) else None
  {
    var ids, n := Ids(ms[index].calls), |ms[index].calls|;
    if exists i, j :: 0 <= i < j < |ids| && ids[i] == ids[j] {
      return Some(DuplicateIds(index));
    }
    var answers := ms[index + 1..if index + 1 + n <= |ms| then index + 1 + n else |ms|];
    var got := seq(|answers|, k requires 0 <= k < |answers| =>
      if IsResult(answers[k]) then answers[k].callId else None);
    var expected := seq(n, k requires 0 <= k < n => Some(ids[k]));
    error := if got != expected then Some(WrongAnswers(index)) else None;
    if got == expected {
      forall k | index < k <= index + n
        ensures IsResult(ms[k]) && ms[k].callId == Some(ms[index].calls[k - index - 1].id)
      {
        assert ms[k] == answers[k - index - 1];
        assert got[k - index - 1] == expected[k - index - 1];
      }
    }
  }

  /** The scan itself. */
  method Validate(ms: seq<Message>) returns (error: Option<TrajectoryError>)
    ensures error == Violation(ms, 0)
    ensures error == None <==> Paired(ms)
  {
    AcceptsIffPaired(ms);
    var index := 0;
    while index < |ms|
      invariant 0 <= index <= |ms|
      invariant Violation(ms, 0) == Violation(ms[index..], index)
    {
      ViolationNext(ms, index);
      if IsResult(ms[index]) {
        return Some(OrphanResult(index));
      }
      if IsHead(ms[index]) {
        var wrong := CheckCall(ms, index);
        if wrong.Some? { return wrong; }
        index := index + 1 + |ms[index].calls|;
      } else {
        index := index + 1;
      }
    }
    return None;
  }

  /** The violation from `index` on, by what stands there. */
  lemma ViolationNext(ms: seq<Message>, index: nat)
    requires index < |ms|
    ensures var m, v := ms[index], Violation(ms[index..], index);
      if IsResult(m) then v == Some(OrphanResult(index))
      else if !IsHead(m) then v == Violation(ms[index + 1..], index + 1)
      else if !Distinct(Ids(m.calls)) then v == Some(DuplicateIds(index))
      else if !AnsweredAt(ms, index) then v == Some(WrongAnswers(index))
      else v == Violation(ms[index + 1 + |m.calls|..], index + 1 + |m.calls|)
  {
    var rest, n := ms[index..], |ms[index].calls|;
    assert rest[0] == ms[index] && rest[1..] == ms[index + 1..];
    AnsweredShift(ms, index, 0);
    if 1 + n <= |rest| { assert rest[1 + n..] == ms[index + 1 + n..]; }
  }

  // ---------------------------------------------------------------------------
  // Eviction units
  // ---------------------------------------------------------------------------

  /** How many results stand at the front of `ms`. */
  ghost function ResultRun(ms: seq<Message>): (n: nat)
    ensures n <= |ms|
    ensures forall i :: 0 <= i < n ==> IsResult(ms[i])
    ensures n < |ms| ==> !IsResult(ms[n])
  {
    if ms == [] || !IsResult(ms[0]) then 0 else 1 + ResultRun(ms[1..])
  }

  /** A call message with all the results after it, or a single message. */
  ghost function GroupLength(ms: seq<Message>): nat
    requires ms != []
  {
    if IsHead(ms[0]) then 1 + ResultRun(ms[1..]) else 1
  }

  ghost function Groups(ms: seq<Message>): seq<seq<Message>>
    decreases |ms|
  {
    if ms == [] then [] else [ms[..GroupLength(ms)]] + Groups(ms[GroupLength(ms)..])
  }

  /** The end of the group that starts at `index`. */
  method GroupEnd(ms: seq<Message>, index: nat) returns (end: nat)
    requires index < |ms|
    ensures end == index + GroupLength(ms[index..])
  {
    end := index + 1;
    if IsHead(ms[index]) {
      while end < |ms| && IsResult(ms[end])
        invariant index < end <= |ms|
        invariant ResultRun(ms[index + 1..]) == end - index - 1 + ResultRun(ms[end..])
      {
        assert ms[end..][1..] == ms[end + 1..];
        end := end + 1;
      }
      assert ms[index..][1..] == ms[index + 1..];
    }
  }

  lemma GroupsUnfold(ms: seq<Message>, index: nat, end: nat)
    requires index < |ms| && end == index + GroupLength(ms[index..])
    ensures end <= |ms| && Groups(ms[index..]) == [ms[index..end]] + Groups(ms[end..])
  {
    var rest := ms[index..];
    assert rest[..end - index] == ms[index..end];
    assert rest[end - index..] == ms[end..];
  }

  method GroupAll(ms: seq<Message>) returns (out: seq<seq<Message>>)
    ensures out == Groups(ms)
  {
    out := [];
    var index := 0;
    while index < |ms|
      invariant index <= |ms|
      invariant Groups(ms) == out + Groups(ms[index..])
    {
      var end := GroupEnd(ms, index);
      GroupsUnfold(ms, index, end);
      out := out + [ms[index..end]];
      index := end;
    }
  }

  /** `ms` opens with `g`, a call message with all the results right after it, or one other message. */
  ghost predicate OpensWith(ms: seq<Message>, g: seq<Message>) {
    && 0 < |g| <= |ms| && g == ms[..|g|]
    && if IsHead(ms[0]) then (forall i :: 1 <= i < |g| ==> IsResult(ms[i])) && (|g| < |ms| ==> !IsResult(ms[|g|]))
       else |g| == 1
  }

  /** Such groups, one after the other, are all of `ms`. */
  ghost predicate WholeGroups(ms: seq<Message>, gs: seq<seq<Message>>)
    decreases |gs|
  {
    if gs == [] then ms == [] else OpensWith(ms, gs[0]) && WholeGroups(ms[|gs[0]|..], gs[1..])
  }

  lemma FirstGroupIsWhole(ms: seq<Message>)
    requires ms != []
    ensures OpensWith(ms, ms[..GroupLength(ms)])
  {
    if IsHead(ms[0]) {
      assert forall i :: 0 <= i < |ms| - 1 ==> ms[1..][i] == ms[i + 1];
      assert forall i :: 1 <= i < |ms| ==> ms[i] == ms[1..][i - 1];
    }
  }

  lemma {:induction false} GroupsAreWhole(ms: seq<Message>)
    ensures WholeGroups(ms, Groups(ms))
    decreases |ms|
  {
    if ms != [] {
      var n := GroupLength(ms);
      FirstGroupIsWhole(ms);
      assert Groups(ms)[1..] == Groups(ms[n..]);
      GroupsAreWhole(ms[n..]);
    }
  }

  // ---------------------------------------------------------------------------
  // Shrinking an oversized group
  // ---------------------------------------------------------------------------

  const OMITTED_RESULT :=
    "[Result omitted before delivery: this tool-result batch exceeded the context window."
    + " Nothing here was seen. Re-request it in smaller parts if it is still needed.]"

  function Omit(m: Message): Message {
    m.(content := Text(OMITTED_RESULT), legacyRaw := false, legacySuffix := "", images := [], imageLabel := "")
  }

  /** `group` with the bodies of its first `n` results (the oldest) omitted. */
  function OmitFirst(group: seq<Message>, n: nat): (r: seq<Message>)
    requires 0 < |group| && n < |group|
    ensures |r| == |group|
  {
    seq(|group|, i requires 0 <= i < |group| => if 1 <= i <= n then Omit(group[i]) else group[i])
  }

  predicate Oversized(group: seq<Message>, maxChars: int, size: seq<Message> -> nat)
    requires group != []
  {
    IsHead(group[0]) && size(group) > maxChars
  }

  /** `n` results are omitted, no more than it takes to fit, or all of them when nothing fits. */
  ghost predicate FewestOmitted(group: seq<Message>, maxChars: int, size: seq<Message> -> nat, n: nat)
    requires group != []
  {
    && n < |group|
    && (n == 0 ==> |group| == 1)
    && (forall q :: 1 <= q < n ==> size(OmitFirst(group, q)) > maxChars)
    && (n < |group| - 1 ==> size(OmitFirst(group, n)) <= maxChars)
  }

  ghost predicate ShrunkTo(group: seq<Message>, maxChars: int, size: seq<Message> -> nat, out: seq<Message>)
    requires group != []
  {
    if !Oversized(group, maxChars, size) then out == group
    else exists n: nat :: FewestOmitted(group, maxChars, size, n) && out == OmitFirst(group, n)
  }

  /** The least `n >= from` at which the group fits, or its number of results. */
  function Omissions(group: seq<Message>, maxChars: int, size: seq<Message> -> nat, from: nat): (n: nat)
    requires from < |group|
    ensures from <= n < |group|
    ensures forall q :: from <= q < n ==> size(OmitFirst(group, q)) > maxChars
    ensures n < |group| - 1 ==> size(OmitFirst(group, n)) <= maxChars
    decreases |group| - from
  {
    if from == |group| - 1 || size(OmitFirst(group, from)) <= maxChars then from
    else Omissions(group, maxChars, size, from + 1)
  }

  function Shrink(group: seq<Message>, maxChars: int, size: seq<Message> -> nat): (out: seq<Message>)
    requires group != []
    ensures ShrunkTo(group, maxChars, size, out)
  {
    if !Oversized(group, maxChars, size) then group
    else if |group| == 1 then OmitFirst(group, 0)
    else OmitFirst(group, Omissions(group, maxChars, size, 1))
  }

  lemma ShrunkToIsUnique(group: seq<Message>, maxChars: int, size: seq<Message> -> nat,
                         a: seq<Message>, b: seq<Message>)
    requires group != [] && ShrunkTo(group, maxChars, size, a) && ShrunkTo(group, maxChars, size, b)
    ensures a == b
  {
    if Oversized(group, maxChars, size) {
      var m: nat :| FewestOmitted(group, maxChars, size, m) && a == OmitFirst(group, m);
      var n: nat :| FewestOmitted(group, maxChars, size, n) && b == OmitFirst(group, n);
      assert m == n;
    }
  }

  /** The loop: one more result omitted at a time, oldest first, until the group fits. */
  method ShrinkGroup(group: seq<Message>, maxChars: int, size: seq<Message> -> nat)
    returns (out: seq<Message>, shrunk: bool)
    requires group != []
    ensures out == Shrink(group, maxChars, size)
    ensures shrunk == Oversized(group, maxChars, size)
  {
    if !IsHead(group[0]) || size(group) <= maxChars {
      return group, false;
    }
    shrunk := true;
    out := group;
    assert out == OmitFirst(group, 0);
    var index := 1;
    while index < |group|
      invariant 1 <= index <= |group|
      invariant out == OmitFirst(group, index - 1)
      invariant forall q :: 1 <= q < index ==> size(OmitFirst(group, q)) > maxChars
    {
      out := out[index := Omit(out[index])];
      assert out == OmitFirst(group, index);
      if size(out) <= maxChars {
        assert FewestOmitted(group, maxChars, size, index);
        break;
      }
      index := index + 1;
    }
    if index == |group| {
      assert FewestOmitted(group, maxChars, size, index - 1);
    }
    ShrunkToIsUnique(group, maxChars, size, out, Shrink(group, maxChars, size));
  }

  /** Everything but what a result says: what pairing looks at, and the tool's name. */
  ghost predicate SameRecord(a: Message, b: Message) {
    a.role == b.role && a.calls == b.calls && a.callId == b.callId && a.name == b.name && a.synthetic == b.synthetic
  }

  ghost predicate SameRecords(a: seq<Message>, b: seq<Message>) {
    |a| == |b| && forall i :: 0 <= i < |a| ==> SameRecord(a[i], b[i])
  }

  lemma {:induction false} AcceptsSameRecords(a: seq<Message>, b: seq<Message>)
    requires SameRecords(a, b)
    ensures Accepts(a) <==> Accepts(b)
    decreases |a|
  {
    if a != [] {
      AcceptsStep(a);
      AcceptsStep(b);
      assert SameRecord(a[0], b[0]);
      if !IsHead(a[0]) {
        AcceptsSameRecords(a[1..], b[1..]);
      } else {
        assert AnsweredAt(a, 0) <==> AnsweredAt(b, 0) by {
          assert forall k :: 0 < k < |a| ==> SameRecord(a[k], b[k]);
        }
        if AnsweredAt(a, 0) {
          var n := 1 + |a[0].calls|;
          AcceptsSameRecords(a[n..], b[n..]);
        }
      }
    }
  }

  /** Shrinking keeps the call message, every result's record, and hence the pairing. */
  lemma ShrinkKeepsRecords(group: seq<Message>, maxChars: int, size: seq<Message> -> nat)
    requires group != []
    ensures var out := Shrink(group, maxChars, size);
            && SameRecords(group, out) && out[0] == group[0]
            && (Accepts(group) <==> Accepts(out))
            && forall i :: 0 <= i < |group| ==> out[i] == group[i] || out[i] == Omit(group[i])
  {
    AcceptsSameRecords(group, Shrink(group, maxChars, size));
  }

  /** A result that says only that it was omitted, images gone, for what `was`. */
  ghost predicate SaysOmitted(m: Message, was: Message) {
    && SameRecord(m, was) && m.content == Text(OMITTED_RESULT)
    && !m.legacyRaw && m.legacySuffix == "" && m.images == [] && m.imageLabel == ""
  }

  /** `out` is `group` with its `n` oldest results omitted, and every other message verbatim. */
  ghost predicate OldestOmitted(group: seq<Message>, n: nat, out: seq<Message>) {
    && |out| == |group| && n < |group|
    && (forall j :: 1 <= j <= n ==> SaysOmitted(out[j], group[j]))
    && (forall j :: 0 <= j < |group| && !(1 <= j <= n) ==> out[j] == group[j])
  }

  /** Shrinking omits the oldest results, and the fewest of them: none if the group fits or is no call, and else at
      least one, until it fits or no result is left. */
  lemma ShrinkOmitsOldest(group: seq<Message>, maxChars: int, size: seq<Message> -> nat) returns (n: nat)
    requires group != []
    ensures var out := Shrink(group, maxChars, size);
      && OldestOmitted(group, n, out)
      && (n == 0 <==> !IsHead(group[0]) || size(group) <= maxChars || |group| == 1)
      && (n > 0 ==> size(out) <= maxChars || n == |group| - 1)
      && (forall q: nat, fewer :: 1 <= q < n && OldestOmitted(group, q, fewer) ==> size(fewer) > maxChars)
  {
    var out := Shrink(group, maxChars, size);
    n := 0;
    if Oversized(group, maxChars, size) {
      n :| FewestOmitted(group, maxChars, size, n) && out == OmitFirst(group, n);
    }
    forall q: nat, fewer | 1 <= q < n && OldestOmitted(group, q, fewer) ensures size(fewer) > maxChars {
      OmittedOnce(group, q, fewer);
    }
  }

  lemma OmittedOnce(group: seq<Message>, n: nat, out: seq<Message>)
    requires OldestOmitted(group, n, out)
    ensures out == OmitFirst(group, n)
  {
    forall j | 0 <= j < |group| ensures out[j] == OmitFirst(group, n)[j] {
      if 1 <= j <= n { assert SaysOmitted(out[j], group[j]); }
    }
  }

  /** So when shrinking changed a result, every result before it is omitted too. */
  lemma NewestResultsStay(group: seq<Message>, maxChars: int, size: seq<Message> -> nat, i: nat, j: nat)
    requires group != [] && 1 <= i <= j < |group|
    requires Shrink(group, maxChars, size)[j] != group[j]
    ensures SaysOmitted(Shrink(group, maxChars, size)[i], group[i])
  {
    var n := ShrinkOmitsOldest(group, maxChars, size);
  }

  // ---------------------------------------------------------------------------
  // Call ids made unique within a turn
  // ---------------------------------------------------------------------------

  function FallbackId(step: nat, index: nat): string {
    "call_" + Text.Digits(step) + "_" + Text.Digits(index)
  }

  function Underscores(n: nat): string {
    seq(n, _ => '_')
  }

  /** The ids in `seen` that padding could still run into. */
  ghost function AtLeastAsLong(seen: set<string>, n: nat): set<string> {
    set s | s in seen && |s| >= n
  }

  /** `cid` is the fallback id with as few underscores as keep it out of `taken`. */
  ghost predicate IsFresh(cid: string, fallback: string, taken: set<string>) {
    && cid !in taken
    && exists n: nat :: cid == fallback + Underscores(n) && forall k: nat :: k < n ==>
        fallback + Underscores(k) in taken
  }

  method FreshId(fallback: string, taken: set<string>) returns (cid: string)
    ensures IsFresh(cid, fallback, taken)
  {
    cid := fallback;
    ghost var n := 0;
    assert cid == fallback + Underscores(0);
    while cid in taken
      invariant cid == fallback + Underscores(n)
      invariant forall k: nat :: k < n ==> fallback + Underscores(k) in taken
      decreases AtLeastAsLong(taken, |cid|)
    {
      assert cid in AtLeastAsLong(taken, |cid|) && cid !in AtLeastAsLong(taken, |cid| + 1);
      cid := cid + "_";
      n := n + 1;
      assert cid == fallback + Underscores(n);
    }
  }

  function IdSet(calls: seq<Call>): set<string> {
    set c | c in calls :: c.id
  }

  /** A call keeps its id unless that id is empty or already taken. */
  ghost predicate KeptOrFresh(id: string, newId: string, taken: set<string>, fallback: string) {
    if id != "" && id !in taken then newId == id else IsFresh(newId, fallback, taken)
  }

  ghost predicate MadeUnique(calls: seq<Call>, seen: set<string>, step: nat, out: seq<Call>) {
    && |out| == |calls|
    && forall i :: 0 <= i < |out| ==>
      && out[i] == calls[i].(id := out[i].id)
      && KeptOrFresh(calls[i].id, out[i].id, seen + IdSet(out[..i]), FallbackId(step, i))
  }

  method UniqueIds(calls: seq<Call>, seen: set<string>, step: nat) returns (out: seq<Call>, seen': set<string>)
    ensures MadeUnique(calls, seen, step, out)
    ensures seen' == seen + IdSet(out)
  {
    out, seen' := [], seen;
    for index := 0 to |calls|
      invariant MadeUnique(calls[..index], seen, step, out)
      invariant seen' == seen + IdSet(out)
    {
      var cid := calls[index].id;
      if cid == "" || cid in seen' {
        cid := FreshId(FallbackId(step, index), seen');
      }
      var renamed := calls[index].(id := cid);
      MadeUniqueSnoc(calls, index, seen, step, out, renamed);
      IdSetSnoc(out, renamed);
      seen' := seen' + {cid};
      out := out + [renamed];
    }
    assert calls[..|calls|] == calls;
  }

  lemma IdSetSnoc(calls: seq<Call>, call: Call)
    ensures IdSet(calls + [call]) == IdSet(calls) + {call.id}
  {
    assert call in calls + [call];
    assert forall c :: c in calls ==> c in calls + [call];
    assert forall c :: c in calls + [call] ==> c in calls || c == call;
  }

  lemma MadeUniqueSnoc(calls: seq<Call>, n: nat, seen: set<string>, step: nat, out: seq<Call>, renamed: Call)
    requires n < |calls| && MadeUnique(calls[..n], seen, step, out)
    requires renamed == calls[n].(id := renamed.id)
    requires KeptOrFresh(calls[n].id, renamed.id, seen + IdSet(out), FallbackId(step, n))
    ensures MadeUnique(calls[..n + 1], seen, step, out + [renamed])
  {
    var longer := out + [renamed];
    forall i | 0 <= i < |longer|
      ensures longer[i] == calls[i].(id := longer[i].id)
      ensures KeptOrFresh(calls[i].id, longer[i].id, seen + IdSet(longer[..i]), FallbackId(step, i))
    {
      assert longer[..i] == out[..i];
      if i < n {
        assert calls[..n][i] == calls[i];
      } else {
        assert out[..n] == out;
      }
    }
  }

  /** Made unique, the ids differ from each other and from every id seen before. */
  lemma MadeUniqueIsUnique(calls: seq<Call>, seen: set<string>, step: nat, out: seq<Call>)
    requires MadeUnique(calls, seen, step, out)
    ensures Distinct(Ids(out)) && IdSet(out) !! seen
  {
    forall i, j | 0 <= i < j < |out| ensures Ids(out)[i] != Ids(out)[j] {
      assert out[..j][i] == out[i];
      assert out[i].id in IdSet(out[..j]);
    }
  }

  /** One step of the loop: a call message with unique ids, then one result per call in order,
      keeps any paired history paired. */
  lemma CallStepKeepsPairing(ms: seq<Message>, head: Message, results: seq<Message>)
    requires Paired(ms)
    requires IsHead(head) && Distinct(Ids(head.calls)) && |results| == |head.calls|
    requires forall k :: 0 <= k < |results| ==> IsResult(results[k]) && results[k].callId == Some(head.calls[k].id)
    ensures Paired(ms + ([head] + results))
  {
    var unit := [head] + results;
    assert forall k :: 0 < k <= |results| ==> unit[k] == results[k - 1];
    AcceptsStep(unit);
    assert unit[1 + |head.calls|..] == [];
    AcceptsIffPaired(ms);
    AcceptsConcat(ms, unit);
    AcceptsIffPaired(ms + unit);
  }
}
