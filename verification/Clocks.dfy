/** Wall clocks that several tasks may pause in overlapping ways (arslan/execution_budget.py, `_WallClock`,
    `running_clock` and `paused`). Time is an input that only grows. */
module Clocks {
  import opened Wrappers
  import opened Budget

  /** An entered timeout; it expires at most once and cannot be moved after it expired or was left. */
  datatype TimeoutState = Entered | Expired | Exited

  /** A clock at one moment: its budget's start, the clock's own fields, and its timeout. */
  datatype Clock = Clock(
    started: real,
    pauses: int,
    pausedAt: real,
    deadline: Option<real>,
    when: Option<real>,
    state: TimeoutState)

  // ---------------------------------------------------------------------------
  // One clock
  // ---------------------------------------------------------------------------

  function PauseClock(c: Clock, now: real): Clock {
    if c.pauses > 0 then c.(pauses := c.pauses + 1)
    else
      var moved := c.state != Expired && c.when.Some?;
      c.(pauses := c.pauses + 1, pausedAt := now,
         deadline := if moved then c.when else None,
         when := if moved && c.state == Entered then None else c.when)
  }

  function ResumeClock(c: Clock, now: real): Clock {
    if c.pauses > 1 then c.(pauses := c.pauses - 1)
    else
      var waited := if now - c.pausedAt > 0.0 then now - c.pausedAt else 0.0;
      c.(pauses := c.pauses - 1, started := c.started + waited, deadline := None,
         when := if c.deadline.Some? && c.state == Entered then Some(c.deadline.value + waited) else c.when)
  }

  class Timeout {
    var when: Option<real>
    var state: TimeoutState

    constructor (when: real)
      ensures this.when == Some(when) && state == Entered
    {
      this.when, state := Some(when), Entered;
    }

    /** False when the timeout is no longer running. */
    method Reschedule(when: Option<real>) returns (ok: bool)
      modifies this`when
      ensures ok <==> state == Entered
      ensures this.when == if ok then when else old(this.when)
    {
      ok := state == Entered;
      if ok {
        this.when := when;
      }
    }
  }

  class WallClock {
    const budget: Budget
    const timeout: Timeout
    var pauses: int
    var pausedAt: real
    var deadline: Option<real>

    ghost function Contents(): Clock
      reads this, budget, timeout
    {
      Clock(budget.started, pauses, pausedAt, deadline, timeout.when, timeout.state)
    }

    constructor (budget: Budget, timeout: Timeout)
      ensures this.budget == budget && this.timeout == timeout
      ensures Contents() == Clock(budget.started, 0, 0.0, None, timeout.when, timeout.state)
    {
      this.budget, this.timeout := budget, timeout;
      pauses, pausedAt, deadline := 0, 0.0, None;
    }

    method Pause(now: real)
      requires pauses >= 0
      modifies this, timeout`when
      ensures Contents() == PauseClock(old(Contents()), now)
    {
      pauses := pauses + 1;
      if pauses > 1 {
        return;
      }
      pausedAt, deadline := now, None;
      if timeout.state != Expired && timeout.when.Some? {
        deadline := timeout.when;
        var _ := timeout.Reschedule(None);
      }
    }

    method Resume(now: real)
      requires pauses >= 1
      modifies this, budget`started, timeout`when
      ensures Contents() == ResumeClock(old(Contents()), now)
    {
      pauses := pauses - 1;
      if pauses > 0 {
        return;
      }
      var waited := now - pausedAt;
      if waited < 0.0 {
        waited := 0.0;
      }
      budget.started := budget.started + waited;
      var due := deadline;
      deadline := None;
      if due.Some? {
        var _ := timeout.Reschedule(Some(due.value + waited));
      }
    }
  }

  /** Each clock has a timeout of its own, as every running clock is made with. */
  ghost predicate Separate(clocks: seq<WallClock>) {
    forall i, j :: 0 <= i < j < |clocks| ==> clocks[i] != clocks[j] && clocks[i].timeout != clocks[j].timeout
  }

  ghost predicate OneClockEach(clocks: seq<WallClock>) {
    forall i, j :: 0 <= i < j < |clocks| ==> clocks[i].budget != clocks[j].budget
  }

  /** Entering a wait: every clock the code runs under, outermost first. */
  method PauseAll(clocks: seq<WallClock>, now: real)
    requires Separate(clocks) && forall i :: 0 <= i < |clocks| ==> clocks[i].pauses >= 0
    modifies clocks, set c | c in clocks :: c.timeout
    ensures forall i :: 0 <= i < |clocks| ==> clocks[i].Contents() == PauseClock(old(clocks[i].Contents()), now)
  {
    for k := 0 to |clocks|
      invariant forall i :: 0 <= i < k ==> clocks[i].Contents() == PauseClock(old(clocks[i].Contents()), now)
      invariant forall i :: k <= i < |clocks| ==> clocks[i].Contents() == old(clocks[i].Contents())
    {
      assert clocks[k] in clocks;
      clocks[k].Pause(now);
    }
  }

  /** What the end of a wait credits a clock's budget with. */
  ghost function Credit(c: Clock, now: real): real {
    ResumeClock(c, now).started - c.started
  }

  /** What the clocks from `k` on credit `budget` with, together. */
  ghost function Credits(budgets: seq<Budget>, was: seq<Clock>, budget: Budget, k: nat, now: real): real
    requires |budgets| == |was| && k <= |was|
    decreases |was| - k
  {
    if k == |was| then 0.0
    else Credits(budgets, was, budget, k + 1, now) + if budgets[k] == budget then Credit(was[k], now) else 0.0
  }

  lemma {:induction false} SoleCredit(budgets: seq<Budget>, was: seq<Clock>, i: nat, k: nat, now: real)
    requires |budgets| == |was| && i < |was| && k <= |was|
    requires forall a, b :: 0 <= a < b < |budgets| ==> budgets[a] != budgets[b]
    ensures Credits(budgets, was, budgets[i], k, now) == if k <= i then Credit(was[i], now) else 0.0
    decreases |was| - k
  {
    if k < |was| { SoleCredit(budgets, was, i, k + 1, now); }
  }

  /** Clocks that share a budget credit it once each for a wait they were all paused by. */
  lemma {:induction false} SharedBudgetIsCreditedByEach(
    budgets: seq<Budget>, was: seq<Clock>, budget: Budget, k: nat, pausedAt: real, now: real)
    requires |budgets| == |was| && k <= |was| && pausedAt <= now
    requires forall i :: 0 <= i < |was| ==> budgets[i] == budget && was[i].pauses == 1 && was[i].pausedAt == pausedAt
    ensures Credits(budgets, was, budget, k, now) == (|was| - k) as real * (now - pausedAt)
    decreases |was| - k
  {
    if k < |was| {
      SharedBudgetIsCreditedByEach(budgets, was, budget, k + 1, pausedAt, now);
      var rest: nat := |was| - k - 1;
      OneMoreWait(rest, now - pausedAt);
      assert Credit(was[k], now) == now - pausedAt && |was| - k == rest + 1;
    }
  }

  lemma OneMoreWait(n: nat, waited: real)
    ensures (n + 1) as real * waited == n as real * waited + waited
  {
    assert (n + 1) as real == n as real + 1.0;
  }

  /** A clock but for its budget's start. */
  ghost function Own(c: Clock): Clock {
    c.(started := 0.0)
  }

  lemma OwnResumes(c: Clock, d: Clock, now: real)
    requires Own(c) == Own(d)
    ensures Own(ResumeClock(c, now)) == Own(ResumeClock(d, now)) && Credit(c, now) == Credit(d, now)
  {
    assert d == c.(started := d.started);
  }

  /** Of the clocks that were `was`, those from `k` on are resumed and have credited their budgets. */
  ghost predicate ResumedFrom(clocks: seq<WallClock>, was: seq<Clock>, budgets: seq<Budget>, k: nat, now: real)
    reads clocks, (set c | c in clocks :: c.timeout), (set c | c in clocks :: c.budget)
  {
    && |was| == |budgets| == |clocks| && k <= |clocks|
    && (forall i :: 0 <= i < |clocks| ==> budgets[i] == clocks[i].budget)
    && forall i :: 0 <= i < |clocks| ==>
        ResumedAt(clocks[i], was[i], Credits(budgets, was, budgets[i], k, now), i >= k, now)
  }

  ghost predicate ResumedAt(clock: WallClock, was: Clock, credit: real, resumed: bool, now: real)
    reads clock, clock.budget, clock.timeout
  {
    && clock.budget.started == was.started + credit
    && Own(clock.Contents()) == if resumed then Own(ResumeClock(was, now)) else Own(was)
  }

  method ResumeOne(clocks: seq<WallClock>, k: nat, now: real, ghost was: seq<Clock>, ghost budgets: seq<Budget>)
    requires Separate(clocks) && k < |clocks| && clocks[k].pauses >= 1
    requires ResumedFrom(clocks, was, budgets, k + 1, now)
    modifies clocks[k], clocks[k].timeout, clocks[k].budget
    ensures ResumedFrom(clocks, was, budgets, k, now)
    ensures forall i :: 0 <= i < k ==> clocks[i].pauses == old(clocks[i].pauses)
  {
    ghost var before := clocks[k].Contents();
    assert ResumedAt(clocks[k], was[k], Credits(budgets, was, budgets[k], k + 1, now), false, now);
    OwnResumes(before, was[k], now);
    clocks[k].Resume(now);
    forall i | 0 <= i < |clocks|
      ensures ResumedAt(clocks[i], was[i], Credits(budgets, was, budgets[i], k, now), i >= k, now)
    {
      assert old(ResumedAt(clocks[i], was[i], Credits(budgets, was, budgets[i], k + 1, now), i >= k + 1, now));
      if i != k {
        assert clocks[i] != clocks[k] && clocks[i].timeout != clocks[k].timeout;
      }
    }
  }

  lemma EachResumedAlone(clocks: seq<WallClock>, was: seq<Clock>, budgets: seq<Budget>, now: real)
    requires OneClockEach(clocks) && ResumedFrom(clocks, was, budgets, 0, now)
    ensures forall i :: 0 <= i < |clocks| ==> clocks[i].Contents() == ResumeClock(was[i], now)
  {
    forall i | 0 <= i < |clocks| ensures clocks[i].Contents() == ResumeClock(was[i], now) {
      SoleCredit(budgets, was, i, 0, now);
      assert ResumedAt(clocks[i], was[i], Credits(budgets, was, budgets[i], 0, now), true, now);
    }
  }

  /** Leaving it: the same clocks, innermost first. Every budget is credited by each of its clocks; with one clock
      for each budget, every clock is resumed as it is alone. */
  method ResumeAll(clocks: seq<WallClock>, now: real) returns (ghost was: seq<Clock>, ghost budgets: seq<Budget>)
    requires Separate(clocks) && forall i :: 0 <= i < |clocks| ==> clocks[i].pauses >= 1
    modifies clocks, (set c | c in clocks :: c.timeout), (set c | c in clocks :: c.budget)
    ensures |was| == |clocks| && forall i :: 0 <= i < |clocks| ==> was[i] == old(clocks[i].Contents())
    ensures ResumedFrom(clocks, was, budgets, 0, now)
    ensures OneClockEach(clocks) ==>
      forall i :: 0 <= i < |clocks| ==> clocks[i].Contents() == ResumeClock(old(clocks[i].Contents()), now)
  {
    was := seq(|clocks|, i requires 0 <= i < |clocks| => old(clocks[i].Contents()));
    budgets := seq(|clocks|, i requires 0 <= i < |clocks| => clocks[i].budget);
    var k := |clocks|;
    while k > 0
      invariant 0 <= k <= |clocks| && ResumedFrom(clocks, was, budgets, k, now)
      invariant forall i :: 0 <= i < k ==> clocks[i].pauses >= 1
    {
      k := k - 1;
      assert clocks[k] in clocks;
      ResumeOne(clocks, k, now, was, budgets);
    }
    if OneClockEach(clocks) { EachResumedAlone(clocks, was, budgets, now); }
  }

  // ---------------------------------------------------------------------------
  // Any number of clocks, tasks and waits
  // ---------------------------------------------------------------------------

  /** What a clock was when it began to run: its budget's start and wall limit, and when it is due. */
  datatype Begin = Begin(started: real, due: real, limit: real, entered: real)

  /** Open waits hold sets of clocks; a wait holds every clock its task runs under. */
  datatype World = World(now: real, clocks: seq<Clock>, begins: seq<Begin>, waits: map<nat, set<nat>>)

  datatype Event =
    | Pass(seconds: real)
    | Run(started: real, limit: real)   // a budget's timeout is entered and made a running clock
    | Open(wait: nat, stack: set<nat>)
    | Close(wait: nat)
    | Fire(clock: nat)                  // the timer's callback
    | Leave(clock: nat)                 // the timeout's block is left

  ghost predicate CanFire(w: World, c: nat) {
    c < |w.clocks| && w.clocks[c].state == Entered && w.clocks[c].when.Some? && w.clocks[c].when.value <= w.now
  }

  ghost predicate Possible(w: World, e: Event) {
    match e
    case Pass(seconds) => seconds >= 0.0
    case Run(started, limit) => started <= w.now && limit > 0.0
    case Open(wait, stack) => wait !in w.waits && forall c :: c in stack ==> c < |w.clocks|
    case Close(wait) => wait in w.waits
    case Fire(c) => CanFire(w, c)
    case Leave(c) => c < |w.clocks| && w.clocks[c].state == Entered
  }

  function Remaining(started: real, limit: real, now: real): real {
    if limit - (now - started) > 0.0 then limit - (now - started) else 0.0
  }

  ghost function Next(w: World, e: Event): World
    requires Possible(w, e)
  {
    match e
    case Pass(seconds) => w.(now := w.now + seconds)
    case Run(started, limit) =>
      var due := w.now + Remaining(started, limit, w.now);
      w.(clocks := w.clocks + [Clock(started, 0, 0.0, None, Some(due), Entered)],
         begins := w.begins + [Begin(started, due, limit, w.now)])
    case Open(wait, stack) =>
      w.(waits := w.waits[wait := stack],
         clocks := seq(|w.clocks|, i requires 0 <= i < |w.clocks| =>
           if i in stack then PauseClock(w.clocks[i], w.now) else w.clocks[i]))
    case Close(wait) =>
      w.(waits := w.waits - {wait},
         clocks := seq(|w.clocks|, i requires 0 <= i < |w.clocks| =>
           if i in w.waits[wait] then ResumeClock(w.clocks[i], w.now) else w.clocks[i]))
    case Fire(c) => w.(clocks := w.clocks[c := w.clocks[c].(state := Expired)])
    case Leave(c) => w.(clocks := w.clocks[c := w.clocks[c].(state := Exited)])
  }

  const EMPTY := World(0.0, [], [], map[])

  /** The world after `events`, if they can happen in that order. */
  ghost function After(events: seq<Event>): Option<World> {
    if events == [] then Some(EMPTY)
    else
      var before := After(events[..|events| - 1]);
      if before.Some? && Possible(before.value, events[|events| - 1])
      then Some(Next(before.value, events[|events| - 1])) else None
  }

  /** The open waits that hold clock `c`. */
  ghost function Holders(w: World, c: nat): set<nat> {
    set wait | wait in w.waits && c in w.waits[wait]
  }

  /** How long at least one open wait held clock `c`: the length of the union of its waits. */
  ghost function HeldFor(events: seq<Event>, c: nat): real {
    if events == [] then 0.0
    else
      var before, last := events[..|events| - 1], events[|events| - 1];
      HeldFor(before, c)
      + if last.Pass? && After(before).Some? && Holders(After(before).value, c) != {} then last.seconds else 0.0
  }

  /** What holds of clock `c`, of which `held` was spent waiting. */
  ghost predicate Keeps(w: World, c: nat, held: real)
    requires c < |w.clocks| && c < |w.begins|
  {
    var clock, begin := w.clocks[c], w.begins[c];
    && clock.pauses == |Holders(w, c)|
    && (if clock.pauses == 0
        then clock.started == begin.started + held
        else clock.pausedAt <= w.now && clock.started + (w.now - clock.pausedAt) == begin.started + held)
    && (clock.state == Entered ==>
        var due := begin.due + (clock.started - begin.started);
        if clock.pauses == 0 then clock.when == Some(due) && clock.deadline == None
        else clock.when == None && clock.deadline == Some(due))
    && begin.due >= begin.started + begin.limit
  }

  ghost predicate WellFormed(w: World) {
    && |w.begins| == |w.clocks|
    && forall wait, c :: wait in w.waits && c in w.waits[wait] ==> c < |w.clocks|
  }

  ghost predicate AllKeep(events: seq<Event>)
    requires After(events).Some?
  {
    var w := After(events).value;
    && WellFormed(w)
    && (forall c: nat :: c < |w.clocks| ==> Keeps(w, c, HeldFor(events, c)))
    && (forall c: nat :: c >= |w.clocks| ==> HeldFor(events, c) == 0.0)
  }

  lemma HoldersAfterOpen(w: World, wait: nat, stack: set<nat>, c: nat)
    requires wait !in w.waits
    ensures var w' := w.(waits := w.waits[wait := stack]);
            && Holders(w', c) == (if c in stack then Holders(w, c) + {wait} else Holders(w, c))
            && |Holders(w', c)| == |Holders(w, c)| + if c in stack then 1 else 0
  {
    var w' := w.(waits := w.waits[wait := stack]);
    assert Holders(w', c) == if c in stack then Holders(w, c) + {wait} else Holders(w, c);
  }

  lemma HoldersAfterClose(w: World, wait: nat, c: nat)
    requires wait in w.waits
    ensures var w' := w.(waits := w.waits - {wait});
            && Holders(w', c) == Holders(w, c) - {wait}
            && |Holders(w', c)| == |Holders(w, c)| - if c in w.waits[wait] then 1 else 0
  {
    var w' := w.(waits := w.waits - {wait});
    assert Holders(w', c) == Holders(w, c) - {wait};
    assert wait in Holders(w, c) <==> c in w.waits[wait];
  }

  lemma OpenKeeps(w: World, wait: nat, stack: set<nat>, c: nat, held: real)
    requires WellFormed(w) && Possible(w, Open(wait, stack)) && c < |w.clocks| && Keeps(w, c, held)
    ensures Keeps(Next(w, Open(wait, stack)), c, held)
  {
    HoldersAfterOpen(w, wait, stack, c);
    assert Holders(Next(w, Open(wait, stack)), c) == Holders(w.(waits := w.waits[wait := stack]), c);
  }

  lemma CloseKeeps(w: World, wait: nat, c: nat, held: real)
    requires WellFormed(w) && Possible(w, Close(wait)) && c < |w.clocks| && Keeps(w, c, held)
    ensures Keeps(Next(w, Close(wait)), c, held)
  {
    HoldersAfterClose(w, wait, c);
    assert Holders(Next(w, Close(wait)), c) == Holders(w.(waits := w.waits - {wait}), c);
  }

  lemma PassKeeps(w: World, seconds: real, c: nat, held: real)
    requires WellFormed(w) && seconds >= 0.0 && c < |w.clocks| && Keeps(w, c, held)
    ensures Keeps(Next(w, Pass(seconds)), c, held + if Holders(w, c) != {} then seconds else 0.0)
  {
    assert Holders(Next(w, Pass(seconds)), c) == Holders(w, c);
    assert Holders(w, c) == {} <==> |Holders(w, c)| == 0;
  }

  lemma RunKeeps(w: World, started: real, limit: real, c: nat, held: real)
    requires WellFormed(w) && Possible(w, Run(started, limit)) && c <= |w.clocks|
    requires if c == |w.clocks| then held == 0.0 else Keeps(w, c, held)
    ensures Keeps(Next(w, Run(started, limit)), c, held)
  {
    assert Holders(Next(w, Run(started, limit)), c) == Holders(w, c);
    if c == |w.clocks| { assert Holders(w, c) == {}; }
  }

  lemma TimerKeeps(w: World, e: Event, c: nat, held: real)
    requires WellFormed(w) && (e.Fire? || e.Leave?) && Possible(w, e) && c < |w.clocks| && Keeps(w, c, held)
    ensures Keeps(Next(w, e), c, held)
  {
    assert Holders(Next(w, e), c) == Holders(w, c);
  }

  /** In every order of events, over any clocks, tasks and waits, each clock's pause count is the number of open
      waits that hold it, its budget's start has moved on by the length of the union of those waits, and its
      timeout is due exactly that much later than when it was entered. */
  lemma {:induction false} ClocksKeepTime(events: seq<Event>)
    requires After(events).Some?
    ensures AllKeep(events)
  {
    if events != [] {
      var before, last := events[..|events| - 1], events[|events| - 1];
      ClocksKeepTime(before);
      var w, w' := After(before).value, After(events).value;
      WellFormedNext(w, last);
      forall c: nat | c < |w'.clocks| ensures Keeps(w', c, HeldFor(events, c)) {
        match last
        case Pass(seconds) => PassKeeps(w, seconds, c, HeldFor(before, c));
        case Run(started, limit) => RunKeeps(w, started, limit, c, HeldFor(before, c));
        case Open(wait, stack) => OpenKeeps(w, wait, stack, c, HeldFor(before, c));
        case Close(wait) => CloseKeeps(w, wait, c, HeldFor(before, c));
        case Fire(_) => TimerKeeps(w, last, c, HeldFor(before, c));
        case Leave(_) => TimerKeeps(w, last, c, HeldFor(before, c));
      }
      forall c: nat | c >= |w'.clocks| ensures HeldFor(events, c) == 0.0 {
        assert HeldFor(before, c) == 0.0;
        assert Holders(w, c) == {};
      }
    }
  }

  lemma WellFormedNext(w: World, e: Event)
    requires WellFormed(w) && Possible(w, e)
    ensures WellFormed(Next(w, e)) && |Next(w, e).clocks| >= |w.clocks|
  {
  }

  /** A clock is due when its time is up, or when it was entered if its time was up by then. */
  lemma {:induction false} DueWhenTimeIsUp(events: seq<Event>, c: nat)
    requires After(events).Some? && c < |After(events).value.begins|
    ensures var begin := After(events).value.begins[c];
      && begin.due >= begin.started + begin.limit && begin.due >= begin.entered
      && (begin.due == begin.started + begin.limit || begin.due == begin.entered)
  {
    if events != [] {
      var before := After(events[..|events| - 1]).value;
      if c < |before.begins| { DueWhenTimeIsUp(events[..|events| - 1], c); }
    }
  }

  /** While nobody waits under it, a clock is due at its start plus its wall limit, its start moved on by the waits; or,
      if its time was up when it was entered, as long after it was entered as the waits took. */
  lemma DeadlineIsStartPlusLimit(events: seq<Event>, c: nat)
    requires After(events).Some? && c < |After(events).value.clocks|
    ensures var w := After(events).value;
            && c < |w.begins|
            && (w.clocks[c].state == Entered && Holders(w, c) == {} ==>
                  var begin := w.begins[c];
                  w.clocks[c].when == Some(
                    if begin.started + begin.limit >= begin.entered then w.clocks[c].started + begin.limit
                    else begin.entered + HeldFor(events, c)))
  {
    ClocksKeepTime(events);
    DueWhenTimeIsUp(events, c);
    assert Keeps(After(events).value, c, HeldFor(events, c));
  }

  /** The timer fires only while nobody waits under it, and only once the run's own time, waits taken off, is
      spent. */
  lemma FiresOnlyOnceSpent(events: seq<Event>, c: nat)
    requires After(events).Some? && CanFire(After(events).value, c)
    ensures var w := After(events).value;
            && Holders(w, c) == {} && c < |w.begins|
            && w.now - w.begins[c].started - HeldFor(events, c) >= w.begins[c].limit
            && w.now - w.clocks[c].started >= w.begins[c].limit
  {
    ClocksKeepTime(events);
    var w := After(events).value;
    assert Keeps(w, c, HeldFor(events, c));
    assert Holders(w, c) == {} <==> |Holders(w, c)| == 0;
  }
}
