/** Waiting for work under a limit without losing a stop (arslan/aio.py, `within`), as a transition system:
    the work, the caller at its await sites, the limit's timer, stops of the caller, and the callback that
    settles what stopped work still ends with. */
module Within {
  import opened Wrappers

  type Value = int

  datatype End = Gave(value: Value) | Failed(error: int) | Cancelled

  datatype Work = Running | Ended(end: End)

  /** No limit awaits the awaitable as it is, a coroutine inside the caller's task or a future beside it; a
      limit of 0 or less is past from the start. */
  datatype Limit = NoLimit(future: bool) | AtOnce | Later

  datatype Outcome = Returned(value: Value) | Raised(error: int) | StopError | LimitError

  /** The caller's await sites: the awaitable itself, the shielded work under the timeout, the work after a
      stop, and the work after the limit. */
  datatype Caller = Direct | AtShield | AtStopWait | AtLimitWait | Done(outcome: Outcome)

  datatype State = State(
    limit: Limit,
    dispose: bool,           // whether the caller gave a way to close a value it never gets
    work: Work,
    caller: Caller,
    stopPending: bool,       // a stop was requested and the caller has not run since
    limitFired: bool,
    cancels: nat,            // how often `within` cancelled the work
    settling: bool,          // the callback is registered and has not run
    disposed: seq<Value>)

  datatype Event = WorkEnds(end: End) | LimitFires | Stop | CallerRuns | Settles

  // ---------------------------------------------------------------------------
  // Steps
  // ---------------------------------------------------------------------------

  function Finish(s: State, outcome: Outcome): State {
    s.(caller := Done(outcome))
  }

  /** The caller goes on with what the work ended with; a cancellation reads as `cancelled`. */
  function Conclude(s: State, cancelled: Outcome): State
    requires s.work.Ended?
  {
    match s.work.end
    case Gave(v) => Finish(s, Returned(v))
    case Failed(e) => Finish(s, Raised(e))
    case Cancelled => Finish(s, cancelled)
  }

  function CancelWork(s: State): State {
    if s.work.Running? then s.(cancels := s.cancels + 1) else s
  }

  /** `_stopped`: from here on whatever the work ends with is settled, not returned. */
  function Stopped(s: State, cancel: bool): State {
    (if cancel then CancelWork(s) else s).(settling := true)
  }

  /** `_past_the_limit`: cancel running work once and wait for it; ended work is taken as it is. */
  function PastTheLimit(s: State): State {
    if s.work.Running? then CancelWork(s).(caller := AtLimitWait) else Conclude(s, LimitError)
  }

  function Begin(limit: Limit, dispose: bool, work: Work): State {
    var s := State(limit, dispose, work, AtShield, false, false, 0, false, []);
    match limit
    case NoLimit(_) => s.(caller := Direct)
    case AtOnce => PastTheLimit(s)
    case Later => s
  }

  predicate Enabled(s: State, e: Event) {
    match e
    case WorkEnds(_) => s.work.Running?
    case LimitFires => s.caller.AtShield? && !s.limitFired
    case Stop => !s.caller.Done? && !(s.limit == NoLimit(false) && s.work.Ended?)
    case CallerRuns =>
      (match s.caller
       case Direct => s.work.Ended?
       case AtShield => s.work.Ended? || s.stopPending || s.limitFired
       case AtStopWait => s.work.Ended? || s.stopPending
       case AtLimitWait => s.work.Ended? || s.stopPending
       case Done(_) => false)
    case Settles => s.settling && s.work.Ended?
  }

  /** A pending stop beats the limit, and both beat what the work ended with meanwhile. */
  function RunCaller(s: State): State
    requires Enabled(s, CallerRuns)
  {
    var awake := s.(stopPending := false);
    match s.caller
    case Direct =>
      if s.stopPending then Finish(awake, StopError) else Conclude(awake, StopError)
    case AtShield =>
      if s.stopPending || (!s.limitFired && s.work.end.Cancelled?)
      then Stopped(awake, true).(caller := AtStopWait)
      else if s.limitFired then PastTheLimit(awake)
      else Conclude(awake, StopError)
    case AtStopWait => Finish(awake, StopError)
    case AtLimitWait =>
      if s.stopPending then Finish(Stopped(awake, false), StopError) else Conclude(awake, LimitError)
  }

  function Next(s: State, e: Event): State
    requires Enabled(s, e)
  {
    match e
    case WorkEnds(end) => s.(work := Ended(end))
    case LimitFires => s.(limitFired := true)
    case Stop =>
      // with no limit, a stop while the work runs goes into the work itself
      if s.caller.Direct? && s.work.Running? then s else s.(stopPending := true)
    case CallerRuns => RunCaller(s)
    case Settles =>
      s.(settling := false,
         disposed := if s.work.end.Gave? && s.dispose then s.disposed + [s.work.end.value] else s.disposed)
  }

  // ---------------------------------------------------------------------------
  // Runs
  // ---------------------------------------------------------------------------

  /** The state after `events`, if they can happen in that order. */
  ghost function After(first: State, events: seq<Event>): Option<State> {
    if events == [] then Some(first)
    else
      var before := After(first, events[..|events| - 1]);
      if before.Some? && Enabled(before.value, events[|events| - 1])
      then Some(Next(before.value, events[|events| - 1])) else None
  }

  /** How often the value the work gave was returned or disposed of. */
  function Deliveries(s: State): nat {
    (if s.caller.Done? && s.caller.outcome.Returned? then 1 else 0) + |s.disposed|
  }

  /** The caller is past a stop, or past work that ended cancelled on its own. */
  ghost predicate GivenUp(s: State) {
    s.caller.AtStopWait? || (s.caller.Done? && s.caller.outcome.StopError?)
  }

  /** What holds after every run under a limit. */
  ghost predicate Keeps(s: State, stopped: bool, expired: bool) {
    && !s.limit.NoLimit? && !s.caller.Direct?
    && (expired <==> s.limitFired)
    && s.cancels <= 1
    // a stop is pending, or the caller is past it
    && (stopped ==> s.stopPending || GivenUp(s))
    && (s.stopPending ==> stopped && !s.caller.Done?)
    && (GivenUp(s) ==> stopped || s.work == Ended(Cancelled))
    && (s.caller.AtShield? ==> s.limit.Later? && s.cancels == 0)
    && (s.caller.AtLimitWait? ==> s.cancels == 1 && (s.limit.AtOnce? || expired))
    // what the caller ends with is what the work ended with
    && (s.caller.Done? ==>
        match s.caller.outcome
        case Returned(v) => s.work == Ended(Gave(v))
        case Raised(e) => s.work == Ended(Failed(e))
        case LimitError => s.work == Ended(Cancelled) && (s.limit.AtOnce? || expired)
        case StopError => true)
    // the callback is registered exactly when the caller has given up, and runs once
    && (s.settling ==> GivenUp(s) && s.disposed == [])
    && (GivenUp(s) && !s.settling ==>
        && s.work.Ended?
        && s.disposed == if s.work.end.Gave? && s.dispose then [s.work.end.value] else [])
    && (!GivenUp(s) ==> !s.settling && s.disposed == [])
  }

  lemma BeginKeeps(limit: Limit, dispose: bool, work: Work)
    requires !limit.NoLimit?
    ensures Keeps(Begin(limit, dispose, work), false, false)
  {
  }

  lemma NextKeeps(s: State, e: Event, stopped: bool, expired: bool)
    requires Keeps(s, stopped, expired) && Enabled(s, e)
    ensures Keeps(Next(s, e), stopped || e.Stop?, expired || e.LimitFires?)
  {
  }

  lemma {:induction false} RunKeeps(limit: Limit, dispose: bool, work: Work, events: seq<Event>)
    requires !limit.NoLimit? && After(Begin(limit, dispose, work), events).Some?
    ensures Keeps(After(Begin(limit, dispose, work), events).value, Stop in events, LimitFires in events)
  {
    if events == [] {
      BeginKeeps(limit, dispose, work);
    } else {
      var before, last := events[..|events| - 1], events[|events| - 1];
      RunKeeps(limit, dispose, work, before);
      NextKeeps(After(Begin(limit, dispose, work), before).value, last, Stop in before, LimitFires in before);
      assert events == before + [last];
    }
  }

  /** Nothing more can happen but a further stop. */
  predicate Quiet(s: State) {
    !Enabled(s, WorkEnds(Cancelled)) && !Enabled(s, CallerRuns) && !Enabled(s, Settles)
  }

  /** In every interleaving under a limit the work is cancelled at most once; a stop that reaches the caller
      ends in its CancelledError; and a value the work gave is returned or disposed of at most once, never
      both, and when a way to dispose of it was given, exactly once by the time everything is quiet. */
  ghost predicate NothingLost(s: State, stopped: bool) {
    && s.cancels <= 1
    && (stopped && s.caller.Done? ==> s.caller.outcome == StopError)
    && Deliveries(s) <= 1
    && (Deliveries(s) > 0 ==> s.work.Ended? && s.work.end.Gave?)
    && (forall v :: v in s.disposed ==> s.work == Ended(Gave(v)))
    && (Quiet(s) ==>
        && s.caller.Done? && s.work.Ended?
        && (s.work.end.Gave? && s.dispose ==> Deliveries(s) == 1)
        && (s.work.end.Gave? && !stopped ==> s.caller.outcome == Returned(s.work.end.value)))
  }

  lemma KeepsLosesNothing(s: State, stopped: bool, expired: bool)
    requires Keeps(s, stopped, expired)
    ensures NothingLost(s, stopped)
  {
  }

  lemma NothingIsLost(limit: Limit, dispose: bool, work: Work, events: seq<Event>)
    requires !limit.NoLimit? && After(Begin(limit, dispose, work), events).Some?
    ensures NothingLost(After(Begin(limit, dispose, work), events).value, Stop in events)
    ensures After(Begin(limit, dispose, work), events).value.dispose == dispose
  {
    RunKeeps(limit, dispose, work, events);
    BeginsAs(limit, dispose, work, events);
    KeepsLosesNothing(After(Begin(limit, dispose, work), events).value, Stop in events, LimitFires in events);
  }

  lemma {:induction false} BeginsAs(limit: Limit, dispose: bool, work: Work, events: seq<Event>)
    requires After(Begin(limit, dispose, work), events).Some?
    ensures var s := After(Begin(limit, dispose, work), events).value; s.limit == limit && s.dispose == dispose
  {
    if events != [] { BeginsAs(limit, dispose, work, events[..|events| - 1]); }
  }

  /** The caller ran while the work was still running. */
  ghost predicate RanEarly(work: Work, events: seq<Event>) {
    work.Running? && exists k :: RanAt(events, k)
  }

  ghost predicate RanAt(events: seq<Event>, k: int) {
    0 <= k < |events| && events[k] == CallerRuns && forall j :: 0 <= j < k ==> !events[j].WorkEnds?
  }

  /** Whether `within` has a reason to cancel: a limit that is past from the start, or a run of the caller while the
      work is running. */
  ghost predicate Interrupted(limit: Limit, work: Work, events: seq<Event>) {
    work.Running? && (limit.AtOnce? || RanEarly(work, events))
  }

  /** In every interleaving under a limit the work is cancelled, once, exactly when the caller runs while it is running
      or the limit is past from the start; and the caller runs then only for a stop or for the limit. So running work
      that the caller no longer waits for under the limit is always cancelled, and ended work never. */
  lemma CancelledExactly(limit: Limit, dispose: bool, work: Work, events: seq<Event>)
    requires !limit.NoLimit? && After(Begin(limit, dispose, work), events).Some?
    ensures var s := After(Begin(limit, dispose, work), events).value;
      && s.cancels == (if Interrupted(limit, work, events) then 1 else 0)
      && (s.work.Running? && !s.caller.AtShield? ==> s.cancels == 1)
    ensures forall k :: work.Running? && RanAt(events, k) ==>
      Stop in events[..k] || LimitFires in events[..k]
  {
    RunCancels(limit, dispose, work, events);
    forall k | work.Running? && RanAt(events, k) ensures Stop in events[..k] || LimitFires in events[..k] {
      RunsForAReason(limit, dispose, work, events, k);
    }
  }

  /** Whether the work is running is told by the events alone. */
  ghost predicate StillRuns(work: Work, events: seq<Event>) {
    work.Running? && forall j :: 0 <= j < |events| ==> !events[j].WorkEnds?
  }

  /** Running work is cancelled exactly when the caller no longer waits for it under the limit. */
  ghost predicate CancelledIfLeft(s: State) {
    s.work.Running? ==> (s.cancels == 0 <==> s.caller.AtShield?)
  }

  lemma {:induction false} RunCancels(limit: Limit, dispose: bool, work: Work, events: seq<Event>)
    requires !limit.NoLimit? && After(Begin(limit, dispose, work), events).Some?
    ensures var s := After(Begin(limit, dispose, work), events).value;
      && (s.work.Running? <==> StillRuns(work, events))
      && s.cancels == (if Interrupted(limit, work, events) then 1 else 0)
      && CancelledIfLeft(s)
  {
    if events != [] {
      var before, last := events[..|events| - 1], events[|events| - 1];
      RunCancels(limit, dispose, work, before);
      RunKeeps(limit, dispose, work, before);
      assert events == before + [last];
      NextCancels(After(Begin(limit, dispose, work), before).value, last, Stop in before, LimitFires in before);
      InterruptedMore(limit, work, before, last);
    }
  }

  lemma NextCancels(s: State, e: Event, stopped: bool, expired: bool)
    requires Keeps(s, stopped, expired) && Enabled(s, e) && CancelledIfLeft(s)
    ensures CancelledIfLeft(Next(s, e))
    ensures Next(s, e).work.Running? <==> s.work.Running? && !e.WorkEnds?
    ensures Next(s, e).cancels == if s.work.Running? && e == CallerRuns then 1 else s.cancels
  {
  }

  lemma InterruptedMore(limit: Limit, work: Work, before: seq<Event>, last: Event)
    ensures StillRuns(work, before + [last]) <==> StillRuns(work, before) && !last.WorkEnds?
    ensures Interrupted(limit, work, before + [last])
      <==> Interrupted(limit, work, before) || (StillRuns(work, before) && last == CallerRuns)
  {
    var events := before + [last];
    assert events[|before|] == last && forall j :: 0 <= j < |before| ==> events[j] == before[j];
    forall k | 0 <= k < |before| ensures RanAt(events, k) <==> RanAt(before, k) {
      assert forall j :: 0 <= j <= k ==> events[j] == before[j];
    }
    if work.Running? {
      assert RanAt(events, |before|) <==> last == CallerRuns && StillRuns(work, before);
      if RanEarly(work, before) {
        var k :| RanAt(before, k);
        assert RanAt(events, k);
      }
    }
  }

  lemma RunsForAReason(limit: Limit, dispose: bool, work: Work, events: seq<Event>, k: nat)
    requires !limit.NoLimit? && After(Begin(limit, dispose, work), events).Some?
    requires work.Running? && RanAt(events, k)
    ensures Stop in events[..k] || LimitFires in events[..k]
  {
    AfterPrefix(Begin(limit, dispose, work), events, k + 1);
    assert events[..k + 1][..k] == events[..k];
    RunCancels(limit, dispose, work, events[..k]);
    RunKeeps(limit, dispose, work, events[..k]);
  }

  lemma {:induction false} AfterPrefix(first: State, events: seq<Event>, n: nat)
    requires After(first, events).Some? && n <= |events|
    ensures After(first, events[..n]).Some?
  {
    if n == |events| {
      assert events[..n] == events;
    } else {
      AfterPrefix(first, events[..|events| - 1], n);
      assert events[..|events| - 1][..n] == events[..n];
    }
  }

  /** What the caller can end with, and when: the limit's error only past the limit and only if the work then
      ended cancelled; its CancelledError only after a stop, or if the work was cancelled by someone else. */
  lemma OutcomesAreEarned(limit: Limit, dispose: bool, work: Work, events: seq<Event>)
    requires !limit.NoLimit? && After(Begin(limit, dispose, work), events).Some?
    requires After(Begin(limit, dispose, work), events).value.caller.Done?
    ensures var s := After(Begin(limit, dispose, work), events).value;
            match s.caller.outcome
            case Returned(v) => s.work == Ended(Gave(v)) && Stop !in events
            case Raised(e) => s.work == Ended(Failed(e)) && Stop !in events
            case LimitError => s.work == Ended(Cancelled) && Stop !in events && (limit.AtOnce? || LimitFires in events)
            case StopError => Stop in events || s.work == Ended(Cancelled)
  {
    RunKeeps(limit, dispose, work, events);
    BeginsAs(limit, dispose, work, events);
  }

  ghost function Told(end: End, past: bool): Outcome {
    match end
    case Gave(v) => Returned(v)
    case Failed(e) => Raised(e)
    case Cancelled => if past then LimitError else StopError
  }

  /** How the wait ends, told by the events and what the work ended with: a stop always ends in the caller's
      CancelledError; otherwise a value is returned, an error raised, and work that ended cancelled is the limit's
      doing once the limit is past, and else reads as a stop. */
  lemma OutcomeIsTold(limit: Limit, dispose: bool, work: Work, events: seq<Event>)
    requires !limit.NoLimit? && After(Begin(limit, dispose, work), events).Some?
    requires After(Begin(limit, dispose, work), events).value.caller.Done?
    ensures var s := After(Begin(limit, dispose, work), events).value;
      && (Stop in events ==> s.caller.outcome == StopError)
      && (Stop !in events ==>
            s.work.Ended? && s.caller.outcome == Told(s.work.end, limit.AtOnce? || LimitFires in events))
  {
    RunKeeps(limit, dispose, work, events);
    BeginsAs(limit, dispose, work, events);
    GivesUpInTime(limit, dispose, work, events);
  }

  /** Without a stop the caller gives up only while the limit is not past. */
  ghost predicate InTime(s: State, stopped: bool) {
    GivenUp(s) && !stopped ==> s.limit.Later? && !s.limitFired
  }

  lemma {:induction false} GivesUpInTime(limit: Limit, dispose: bool, work: Work, events: seq<Event>)
    requires !limit.NoLimit? && After(Begin(limit, dispose, work), events).Some?
    ensures InTime(After(Begin(limit, dispose, work), events).value, Stop in events)
  {
    if events != [] {
      var before, last := events[..|events| - 1], events[|events| - 1];
      GivesUpInTime(limit, dispose, work, before);
      RunKeeps(limit, dispose, work, before);
      NextInTime(After(Begin(limit, dispose, work), before).value, last, Stop in before, LimitFires in before);
      assert events == before + [last];
    }
  }

  lemma NextInTime(s: State, e: Event, stopped: bool, expired: bool)
    requires Keeps(s, stopped, expired) && Enabled(s, e) && InTime(s, stopped)
    ensures InTime(Next(s, e), stopped || e.Stop?)
  {
  }

  /** The caller is never stuck: until it is done it can run, or the work is still running. A run of the caller
      that does not end the wait moves it on, so it runs at most twice. */
  ghost function Left(s: State): nat {
    match s.caller
    case Direct => 1
    case AtShield => 2
    case AtStopWait => 1
    case AtLimitWait => 1
    case Done(_) => 0
  }

  lemma CallerMovesOn(s: State)
    ensures !s.caller.Done? ==> Enabled(s, CallerRuns) || s.work.Running?
    ensures Enabled(s, CallerRuns) ==> Left(Next(s, CallerRuns)) < Left(s)
    ensures s.caller.AtStopWait? && s.stopPending ==>
      Enabled(s, CallerRuns) && Next(s, CallerRuns).caller == Done(StopError)
          && Next(s, CallerRuns).cancels == s.cancels
  {
  }

  /** However it is run, the caller ends in its CancelledError once a stop reached it. */
  ghost predicate StopsWin(limit: Limit) {
    forall dispose: bool, work: Work, events: seq<Event> ::
      After(Begin(limit, dispose, work), events).Some? ==>
        var s := After(Begin(limit, dispose, work), events).value;
        Stop in events && s.caller.Done? ==> s.caller.outcome == StopError
  }

  /** However it is run, a value the work gave is returned or disposed of once everything is quiet, when there
      is a way to dispose of it. */
  ghost predicate ValuesKept(limit: Limit) {
    forall dispose: bool, work: Work, events: seq<Event> ::
      After(Begin(limit, dispose, work), events).Some? ==>
        var s := After(Begin(limit, dispose, work), events).value;
        dispose && Quiet(s) && s.work.end.Gave? ==> Deliveries(s) == 1
  }

  /** A limit is what it takes for stops to win; values are also kept without one, unless the awaitable is a
      future beside the caller: then one that completes as a stop lands is dropped. */
  lemma WhatALimitBuys(limit: Limit)
    ensures StopsWin(limit) <==> !limit.NoLimit?
    ensures ValuesKept(limit) <==> limit != NoLimit(true)
  {
    if !limit.NoLimit? {
      forall dispose: bool, work: Work, events: seq<Event> | After(Begin(limit, dispose, work), events).Some?
        ensures var s := After(Begin(limit, dispose, work), events).value;
          NothingLost(s, Stop in events) && s.dispose == dispose
      {
        NothingIsLost(limit, dispose, work, events);
      }
      assert StopsWin(limit);
      forall dispose: bool, work: Work, events: seq<Event> | After(Begin(limit, dispose, work), events).Some?
        ensures var s := After(Begin(limit, dispose, work), events).value;
                dispose && Quiet(s) && s.work.end.Gave? ==> Deliveries(s) == 1
      {
        NothingIsLost(limit, dispose, work, events);
      }
    } else {
      var swallowed := [Stop, WorkEnds(Gave(0)), CallerRuns];
      AfterThree(Begin(limit, true, Running), Stop, WorkEnds(Gave(0)), CallerRuns);
      assert swallowed[0] == Stop && Stop in swallowed;
      assert After(Begin(limit, true, Running), swallowed).value.caller == Done(Returned(0));
      assert !StopsWin(limit);
      if limit.future {
        var dropped := [WorkEnds(Gave(0)), Stop, CallerRuns];
        AfterThree(Begin(limit, true, Running), WorkEnds(Gave(0)), Stop, CallerRuns);
        assert Deliveries(After(Begin(limit, true, Running), dropped).value) == 0;
        assert !ValuesKept(limit);
      } else {
        forall dispose: bool, work: Work, events: seq<Event> | After(Begin(limit, dispose, work), events).Some?
          ensures InlineKeeps(After(Begin(limit, dispose, work), events).value)
        {
          InlineRunKeeps(dispose, work, events);
        }
        assert ValuesKept(limit);
      }
    }
  }

  /** A coroutine awaited inside the caller's own task ends the caller with it. */
  ghost predicate InlineKeeps(s: State) {
    && s.limit == NoLimit(false) && !s.stopPending && !s.settling && s.disposed == []
    && (s.caller.Direct? || (s.caller.Done? && s.work.Ended?))
    && (s.caller.Done? && s.work.end.Gave? ==> s.caller.outcome == Returned(s.work.end.value))
  }

  lemma {:induction false} InlineRunKeeps(dispose: bool, work: Work, events: seq<Event>)
    requires After(Begin(NoLimit(false), dispose, work), events).Some?
    ensures InlineKeeps(After(Begin(NoLimit(false), dispose, work), events).value)
  {
    if events != [] { InlineRunKeeps(dispose, work, events[..|events| - 1]); }
  }

  lemma AfterThree(s: State, a: Event, b: Event, c: Event)
    requires Enabled(s, a) && Enabled(Next(s, a), b) && Enabled(Next(Next(s, a), b), c)
    ensures After(s, [a, b, c]) == Some(Next(Next(Next(s, a), b), c))
  {
    var abc, ab := [a, b, c], [a, b];
    assert abc[..2] == ab && ab[..1] == [a] && [a][..0] == [];
    assert After(s, [a]) == Some(Next(s, a));
    assert After(s, ab) == Some(Next(Next(s, a), b));
  }
}
