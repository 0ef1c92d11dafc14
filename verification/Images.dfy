/** Old screenshots turned into stubs (arslan/llm/trajectory.py, `keep_latest_images`). */
module Images {
  import opened Trajectory

  /** How an f-string shows a message's content. */
  type Render = Content -> string

  function Label(m: Message): string {
    if m.imageLabel != "" then m.imageLabel else if m.name != "" then m.name else "screenshot"
  }

  function Stub(m: Message, render: Render): Message {
    m.(images := [], content := Content.Text(render(m.content) + "\n[screenshot of " + Label(m) + ": no longer shown]"))
  }

  /** How many images the messages from `i` on carry. */
  function Carried(ms: seq<Message>, i: nat): nat
    requires i <= |ms|
    decreases |ms| - i
  {
    if i == |ms| then 0 else |ms[i].images| + Carried(ms, i + 1)
  }

  /** How many of them stay: from the newest message back, a message keeps its images while they fit beside those
      already kept. */
  function Seen(ms: seq<Message>, i: nat, keep: int): nat
    requires i <= |ms|
    decreases |ms| - i
  {
    if i == |ms| then 0
    else if Stays(ms, i, keep) then Seen(ms, i + 1, keep) + |ms[i].images|
    else Seen(ms, i + 1, keep)
  }

  predicate Stays(ms: seq<Message>, i: nat, keep: int)
    requires i < |ms|
    decreases |ms| - i, 0
  {
    ms[i].images == [] || Seen(ms, i + 1, keep) + |ms[i].images| <= keep
  }

  function Latest(ms: seq<Message>, keep: int, render: Render): (out: seq<Message>)
    ensures |out| == |ms|
  {
    seq(|ms|, i requires 0 <= i < |ms| => if Stays(ms, i, keep) then ms[i] else Stub(ms[i], render))
  }

  method KeepLatestImages(messages: array<Message>, keep: int, render: Render) returns (dropped: nat)
    modifies messages
    ensures messages[..] == Latest(old(messages[..]), keep, render)
    ensures dropped + Seen(old(messages[..]), 0, keep) == Carried(old(messages[..]), 0)
  {
    ghost var was := messages[..];
    var i: nat, seen: nat := messages.Length, 0;
    dropped := 0;
    while i > 0
      invariant i <= messages.Length && seen == Seen(was, i, keep) && dropped + seen == Carried(was, i)
      invariant forall k :: 0 <= k < i ==> messages[k] == was[k]
      invariant forall k :: i <= k < messages.Length ==> messages[k] == Latest(was, keep, render)[k]
    {
      i := i - 1;
      var m := messages[i];
      if m.images != [] {
        if seen + |m.images| <= keep {
          seen := seen + |m.images|;
        } else {
          messages[i] := Stub(m, render);
          dropped := dropped + |m.images|;
        }
      }
    }
  }

  // ---------------------------------------------------------------------------
  // What is kept
  // ---------------------------------------------------------------------------

  lemma {:induction false} SeenIsWhatIsLeft(ms: seq<Message>, i: nat, keep: int, render: Render)
    requires i <= |ms|
    ensures Carried(Latest(ms, keep, render), i) == Seen(ms, i, keep)
    ensures Seen(ms, i, keep) <= if keep >= 0 then keep else 0
    decreases |ms| - i
  {
    if i < |ms| { SeenIsWhatIsLeft(ms, i + 1, keep, render); }
  }

  /** Only images and their results' texts change: calls and results stay paired, and no more than `keep` images
      stay. */
  lemma StubsKeepPairing(ms: seq<Message>, keep: int, render: Render)
    ensures Paired(ms) <==> Paired(Latest(ms, keep, render))
    ensures Carried(Latest(ms, keep, render), 0) <= if keep >= 0 then keep else 0
  {
    var out := Latest(ms, keep, render);
    SeenIsWhatIsLeft(ms, 0, keep, render);
    assert SameRecords(ms, out);
    AcceptsSameRecords(ms, out);
    AcceptsIffPaired(ms);
    AcceptsIffPaired(out);
  }

  /** A message that loses its images says so after its own text, by its label, its name, or as a screenshot; any other
      is as it was. */
  lemma StubsKeepText(ms: seq<Message>, keep: int, render: Render, i: nat)
    requires i < |ms|
    ensures var m, out := ms[i], Latest(ms, keep, render)[i];
      || out == m
      || (&& m.images != [] && out.images == [] && SameRecord(m, out) && out.imageLabel == m.imageLabel
          && out.content == Content.Text(
               render(m.content) + "\n[screenshot of "
               + (if m.imageLabel != "" then m.imageLabel else if m.name != "" then m.name else "screenshot")
               + ": no longer shown]"))
  {
  }

  /** No message keeps its images when a newer one loses its own. */
  ghost predicate NewestFirst(ms: seq<Message>, keep: int) {
    forall i, j :: 0 <= i < j < |ms| && ms[i].images != [] && Stays(ms, i, keep) ==> Stays(ms, j, keep)
  }

  /** Of two messages with images the older carries at least as many. */
  ghost predicate OlderCarryNoFewer(ms: seq<Message>) {
    forall i, j :: 0 <= i < j < |ms| && ms[i].images != [] ==> |ms[i].images| >= |ms[j].images|
  }

  lemma {:induction false} SeenGrows(ms: seq<Message>, i: nat, j: nat, keep: int)
    requires i <= j <= |ms|
    ensures Seen(ms, i, keep) >= Seen(ms, j, keep)
    decreases j - i
  {
    if i < j { SeenGrows(ms, i + 1, j, keep); }
  }

  lemma {:induction false} AllSeen(ms: seq<Message>, i: nat, keep: int)
    requires i <= |ms| && Carried(ms, i) <= keep
    ensures Seen(ms, i, keep) == Carried(ms, i)
    decreases |ms| - i
  {
    if i < |ms| { AllSeen(ms, i + 1, keep); }
  }

  /** Between `i` and `j` nothing fits. */
  lemma {:induction false} NoneSeen(ms: seq<Message>, i: nat, j: nat, keep: int)
    requires i <= j <= |ms|
    requires forall k :: i <= k < j && ms[k].images != [] ==> Seen(ms, j, keep) + |ms[k].images| > keep
    ensures Seen(ms, i, keep) == Seen(ms, j, keep)
    decreases j - i
  {
    if i < j { NoneSeen(ms, i + 1, j, keep); }
  }

  /** The nearest older message with fewer images. */
  lemma {:induction false} NearestFewer(ms: seq<Message>, i: nat, j: nat) returns (near: nat)
    requires i < j < |ms| && ms[i].images != [] && |ms[i].images| < |ms[j].images|
    ensures near < j && ms[near].images != [] && |ms[near].images| < |ms[j].images|
    ensures forall k :: near < k < j && ms[k].images != [] ==> |ms[k].images| >= |ms[j].images|
  {
    near := j - 1;
    while ms[near].images == [] || |ms[near].images| >= |ms[j].images|
      invariant i <= near < j
      invariant forall k :: near < k < j && ms[k].images != [] ==> |ms[k].images| >= |ms[j].images|
      decreases near
    {
      near := near - 1;
    }
  }

  /** With room for all images newer than `j` and for one fewer than `j` has, `j` loses its images. */
  lemma LargeGoes(ms: seq<Message>, j: nat, keep: int)
    requires j < |ms| && ms[j].images != [] && keep == Carried(ms, j + 1) + |ms[j].images| - 1
    ensures !Stays(ms, j, keep) && Seen(ms, j, keep) == Carried(ms, j + 1)
  {
    AllSeen(ms, j + 1, keep);
  }

  /** The nearest older message with fewer keeps them. */
  lemma SmallStays(ms: seq<Message>, i: nat, j: nat, keep: int)
    requires i < j < |ms| && ms[i].images != [] && Seen(ms, j, keep) + |ms[j].images| - 1 == keep
    requires |ms[i].images| < |ms[j].images|
    requires forall k :: i < k < j && ms[k].images != [] ==> |ms[k].images| >= |ms[j].images|
    ensures Stays(ms, i, keep)
  {
    NoneSeen(ms, i + 1, j, keep);
  }

  /** No message keeps its images while a newer one loses its own, whatever the limit, exactly when no older message
      carries fewer images than a newer one. This is only the order between messages: how many images stay is
      `NewestStayIff`. */
  lemma NewestFirstIff(ms: seq<Message>)
    ensures (forall keep: int :: NewestFirst(ms, keep)) <==> OlderCarryNoFewer(ms)
  {
    if OlderCarryNoFewer(ms) {
      forall keep: int ensures NewestFirst(ms, keep) {
        forall i, j | 0 <= i < j < |ms| && ms[i].images != [] && Stays(ms, i, keep) ensures Stays(ms, j, keep) {
          SeenGrows(ms, i + 1, j + 1, keep);
        }
      }
    } else {
      var i, j :| 0 <= i < j < |ms| && ms[i].images != [] && |ms[i].images| < |ms[j].images|;
      var near := NearestFewer(ms, i, j);
      var keep := Carried(ms, j + 1) + |ms[j].images| - 1;
      LargeGoes(ms, j, keep);
      SmallStays(ms, near, j, keep);
      assert !NewestFirst(ms, keep);
    }
  }

  // ---------------------------------------------------------------------------
  // The newest images
  // ---------------------------------------------------------------------------

  /** How many of message `i`'s images are among the newest `keep` of all. */
  function Share(ms: seq<Message>, i: nat, keep: nat): (n: nat)
    requires i < |ms|
    ensures n <= |ms[i].images|
  {
    var newer := Carried(ms, i + 1);
    if newer >= keep then 0 else if newer + |ms[i].images| <= keep then |ms[i].images| else keep - newer
  }

  function Shares(ms: seq<Message>, i: nat, keep: nat): nat
    requires i <= |ms|
    decreases |ms| - i
  {
    if i == |ms| then 0 else Share(ms, i, keep) + Shares(ms, i + 1, keep)
  }

  /** The shares are the newest `keep` images, or all there are. */
  lemma {:induction false} SharesAddUp(ms: seq<Message>, i: nat, keep: nat)
    requires i <= |ms|
    ensures Shares(ms, i, keep) == if Carried(ms, i) <= keep then Carried(ms, i) else keep
    decreases |ms| - i
  {
    if i < |ms| { SharesAddUp(ms, i + 1, keep); }
  }

  /** Of every message exactly its images among the newest `keep` are left. */
  ghost predicate NewestStay(ms: seq<Message>, out: seq<Message>, keep: nat)
    requires |ms| == |out|
  {
    forall i :: 0 <= i < |ms| ==> out[i].images == ms[i].images[|ms[i].images| - Share(ms, i, keep)..]
  }

  ghost predicate AtMostOneEach(ms: seq<Message>) {
    forall i :: 0 <= i < |ms| ==> |ms[i].images| <= 1
  }

  lemma {:induction false} SeenOneByOne(ms: seq<Message>, i: nat, keep: nat)
    requires i <= |ms| && AtMostOneEach(ms)
    ensures Seen(ms, i, keep) == if Carried(ms, i) <= keep then Carried(ms, i) else keep
    decreases |ms| - i
  {
    if i < |ms| { SeenOneByOne(ms, i + 1, keep); }
  }

  /** Every image but the newest `keep` goes and those stay, for every limit, exactly when no message carries more
      than one: a message loses all its images or none. */
  lemma NewestStayIff(ms: seq<Message>, render: Render)
    ensures (forall keep: nat :: NewestStay(ms, Latest(ms, keep, render), keep)) <==> AtMostOneEach(ms)
  {
    if AtMostOneEach(ms) {
      forall keep: nat ensures NewestStay(ms, Latest(ms, keep, render), keep) {
        forall i | 0 <= i < |ms|
          ensures Latest(ms, keep, render)[i].images == ms[i].images[|ms[i].images| - Share(ms, i, keep)..]
        {
          SeenOneByOne(ms, i + 1, keep);
        }
      }
    } else {
      var i :| 0 <= i < |ms| && |ms[i].images| > 1;
      var keep := Carried(ms, i + 1) + 1;
      assert Share(ms, i, keep) == 1;
      assert !NewestStay(ms, Latest(ms, keep, render), keep);
    }
  }
}
