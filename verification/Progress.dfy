/** The stop for a loop that makes no progress (arslan/runtime_policy.py, `ProgressPolicy`). */
module Progress {
  import opened Wrappers

  datatype FailureKind = Retryable | InputRequired | Denied | Permanent | Uncertain

  /** One observed tool result: a failure with the digest of its call and error, or the digest of what the
      call returned. */
  datatype Observation = Failed(kind: FailureKind, call: string) | Returned(digest: string)

  // ---------------------------------------------------------------------------
  // What a run of observations says
  // ---------------------------------------------------------------------------

  ghost function Results(run: seq<Observation>): set<string> {
    set o | o in run && o.Returned? :: o.digest
  }

  ghost function FailedCalls(run: seq<Observation>): set<string> {
    set o | o in run && o.Failed? :: o.call
  }

  ghost function FailureCount(run: seq<Observation>, call: string): nat {
    if run == [] then 0
    else FailureCount(run[..|run| - 1], call) + if run[|run| - 1].Failed? && run[|run| - 1].call == call then 1 else 0
  }

  ghost function ReturnedCount(run: seq<Observation>): nat {
    if run == [] then 0
    else ReturnedCount(run[..|run| - 1]) + if run[|run| - 1].Returned? then 1 else 0
  }

  /** How many results in a row were nothing new; failures in between neither count nor break the row. */
  ghost function StalledFor(run: seq<Observation>): nat {
    if run == [] then 0
    else
      var before, last := run[..|run| - 1], run[|run| - 1];
      if last.Failed? then StalledFor(before)
      else if last.digest in Results(before) then StalledFor(before) + 1
      else 0
  }

  ghost predicate StoppedAfter(run: seq<Observation>, maxStalled: int, maxSameFailure: int) {
    || StalledFor(run) >= maxStalled
    || exists call :: call in FailedCalls(run) && FailureCount(run, call) >= maxSameFailure
  }

  lemma Snoc(run: seq<Observation>, o: Observation)
    ensures Results(run + [o]) == Results(run) + if o.Returned? then {o.digest} else {}
    ensures FailedCalls(run + [o]) == FailedCalls(run) + if o.Failed? then {o.call} else {}
    ensures (run + [o])[..|run|] == run
  {
    var longer := run + [o];
    assert longer[|run|] == o;
    assert forall p :: p in longer <==> p in run || p == o;
  }

  // ---------------------------------------------------------------------------
  // The policy
  // ---------------------------------------------------------------------------

  /** The counters, the set and the map, as the run says. */
  ghost predicate Tallies(
    run: seq<Observation>, observations: nat, stalled: nat, seen: set<string>, failures: map<string, nat>)
  {
    && observations == |run| && stalled == StalledFor(run) && seen == Results(run)
    && failures.Keys == FailedCalls(run)
    && forall call :: call in failures ==> failures[call] == FailureCount(run, call)
  }

  ghost function LastFailure(run: seq<Observation>): Option<FailureKind> {
    if run != [] && run[|run| - 1].Failed? then Some(run[|run| - 1].kind) else None
  }

  ghost function LastFailedCall(run: seq<Observation>): Option<string> {
    if run != [] && run[|run| - 1].Failed? then Some(run[|run| - 1].call) else None
  }

  lemma TalliesFailed(run: seq<Observation>, observations: nat, stalled: nat, seen: set<string>,
                      failures: map<string, nat>, kind: FailureKind, call: string)
    requires Tallies(run, observations, stalled, seen, failures)
    ensures Tallies(run + [Failed(kind, call)], observations + 1, stalled, seen,
                    failures[call := (if call in failures then failures[call] else 0) + 1])
  {
    CountsNext(run, kind, call, failures);
    CountsStep(run, Failed(kind, call));
  }

  lemma TalliesReturned(run: seq<Observation>, observations: nat, stalled: nat, seen: set<string>,
                        failures: map<string, nat>, digest: string)
    requires Tallies(run, observations, stalled, seen, failures)
    ensures Tallies(run + [Returned(digest)], observations + 1, if digest in seen then stalled + 1 else 0,
                    seen + {digest}, failures)
  {
    CountsStep(run, Returned(digest));
    FailuresStay(run, digest);
  }

  lemma FailuresStay(run: seq<Observation>, digest: string)
    ensures FailedCalls(run + [Returned(digest)]) == FailedCalls(run)
    ensures forall call :: FailureCount(run + [Returned(digest)], call) == FailureCount(run, call)
  {
    Snoc(run, Returned(digest));
    assert (run + [Returned(digest)])[|run|] == Returned(digest);
  }

  class ProgressPolicy {
    const maxStalled: int
    const maxSameFailure: int
    var stalled: nat
    var observations: nat
    var seen: set<string>
    var failures: map<string, nat>
    var lastFailure: Option<FailureKind>
    var failedCall: Option<string>
    ghost var run: seq<Observation>

    ghost predicate Valid()
      reads this
    {
      && Tallies(run, observations, stalled, seen, failures)
      && lastFailure == LastFailure(run) && failedCall == LastFailedCall(run)
    }

    constructor (maxStalled: int := 4, maxSameFailure: int := 3)
      ensures Valid() && run == []
      ensures this.maxStalled == maxStalled && this.maxSameFailure == maxSameFailure
    {
      this.maxStalled, this.maxSameFailure := maxStalled, maxSameFailure;
      stalled, observations, seen, failures := 0, 0, {}, map[];
      lastFailure, failedCall := None, None;
      run := [];
    }

    method Observe(o: Observation) returns (novel: bool)
      requires Valid()
      modifies this
      ensures Valid() && run == old(run) + [o]
      ensures novel <==> o.Returned? && o.digest !in Results(old(run))
    {
      match o {
        case Failed(kind, call) =>
          TalliesFailed(run, observations, stalled, seen, failures, kind, call);
          lastFailure, failedCall := Some(kind), Some(call);
          failures := failures[call := (if call in failures then failures[call] else 0) + 1];
          novel := false;
        case Returned(digest) =>
          TalliesReturned(run, observations, stalled, seen, failures, digest);
          lastFailure, failedCall := None, None;
          novel := digest !in seen;
          seen := seen + {digest};
          stalled := if novel then 0 else stalled + 1;
      }
      observations := observations + 1;
      run := run + [o];
    }

    method Stopped() returns (stopped: bool)
      requires Valid()
      ensures stopped <==> StoppedAfter(run, maxStalled, maxSameFailure)
    {
      stopped := stalled >= maxStalled || exists call :: call in failures && failures[call] >= maxSameFailure;
    }

    /** How far the last observation is toward its stop, and that stop's limit. */
    method CountAndLimit() returns (count: nat, limit: int)
      requires Valid()
      ensures if run != [] && run[|run| - 1].Failed?
              then count == FailureCount(run, run[|run| - 1].call) && limit == maxSameFailure
              else count == StalledFor(run) && limit == maxStalled
    {
      match failedCall
      case Some(call) => assert run[|run| - 1] in run; return failures[call], maxSameFailure;
      case None => return stalled, maxStalled;
    }
  }

  /** The map of counts, with one more failure of `call`. */
  lemma CountsNext(run: seq<Observation>, kind: FailureKind, call: string, failures: map<string, nat>)
    requires failures.Keys == FailedCalls(run)
    requires forall c :: c in failures ==> failures[c] == FailureCount(run, c)
    ensures var next := failures[call := (if call in failures then failures[call] else 0) + 1];
      next.Keys == FailedCalls(run + [Failed(kind, call)])
      && forall c :: c in next ==> next[c] == FailureCount(run + [Failed(kind, call)], c)
  {
    Snoc(run, Failed(kind, call));
    NeverFailed(run, call);
  }

  lemma {:induction false} NeverFailed(run: seq<Observation>, call: string)
    ensures FailureCount(run, call) == 0 <==> call !in FailedCalls(run)
  {
    if run != [] {
      var before := run[..|run| - 1];
      NeverFailed(before, call);
      assert run == before + [run[|run| - 1]];
      Snoc(before, run[|run| - 1]);
    }
  }

  // ---------------------------------------------------------------------------
  // The bound
  // ---------------------------------------------------------------------------

  /** How many observations are failures of a call in `calls`. */
  ghost function FailuresIn(run: seq<Observation>, calls: set<string>): nat {
    if run == [] then 0
    else FailuresIn(run[..|run| - 1], calls) + if run[|run| - 1].Failed? && run[|run| - 1].call in calls then 1 else 0
  }

  lemma {:induction false} FailuresSplit(run: seq<Observation>, calls: set<string>, call: string)
    requires call in calls
    ensures FailuresIn(run, calls) == FailuresIn(run, calls - {call}) + FailureCount(run, call)
  {
    if run != [] { FailuresSplit(run[..|run| - 1], calls, call); }
  }

  lemma {:induction false} NoCallsNoFailures(run: seq<Observation>)
    ensures FailuresIn(run, {}) == 0
  {
    if run != [] { NoCallsNoFailures(run[..|run| - 1]); }
  }

  lemma {:induction false} FailuresBounded(run: seq<Observation>, calls: set<string>, most: nat)
    requires forall call :: call in calls ==> FailureCount(run, call) <= most
    ensures FailuresIn(run, calls) <= most * |calls|
    decreases |calls|
  {
    if calls == {} {
      NoCallsNoFailures(run);
    } else {
      var call :| call in calls;
      FailuresSplit(run, calls, call);
      FailuresBounded(run, calls - {call}, most);
      assert most * |calls| == most * |calls - {call}| + most;
    }
  }

  lemma {:induction false} EveryFailureCounts(run: seq<Observation>, calls: set<string>)
    requires FailedCalls(run) <= calls
    ensures |run| == ReturnedCount(run) + FailuresIn(run, calls)
  {
    if run != [] {
      var before := run[..|run| - 1];
      assert run == before + [run[|run| - 1]];
      Snoc(before, run[|run| - 1]);
      EveryFailureCounts(before, calls);
    }
  }

  ghost predicate NeverStopped(run: seq<Observation>, maxStalled: int, maxSameFailure: int) {
    forall k :: 0 <= k <= |run| ==> !StoppedAfter(run[..k], maxStalled, maxSameFailure)
  }

  /** Each new result buys at most `maxStalled` results, itself included. */
  ghost predicate ResultsPaid(run: seq<Observation>, maxStalled: int) {
    if Results(run) == {} then ReturnedCount(run) == 0
    else ReturnedCount(run) <= maxStalled * (|Results(run)| - 1) + 1 + StalledFor(run)
  }

  lemma NewResultPaid(returned: nat, n: nat, maxStalled: int, stalled: nat)
    requires stalled < maxStalled
    requires if n == 0 then returned == 0 else returned <= maxStalled * (n - 1) + 1 + stalled
    ensures returned + 1 <= maxStalled * n + 1
  {
    Distribute(maxStalled, n - 1);
  }

  /** What one more observation does to the three counts. */
  lemma CountsStep(before: seq<Observation>, last: Observation)
    ensures var run := before + [last];
      && ReturnedCount(run) == ReturnedCount(before) + (if last.Returned? then 1 else 0)
      && StalledFor(run) == (if last.Failed? then StalledFor(before)
                             else if last.digest in Results(before) then StalledFor(before) + 1 else 0)
      && Results(run) == Results(before) + (if last.Returned? then {last.digest} else {})
  {
    Snoc(before, last);
    assert (before + [last])[|before|] == last;
  }

  lemma ResultsPaidStep(before: seq<Observation>, last: Observation, maxStalled: int)
    requires ResultsPaid(before, maxStalled) && StalledFor(before) < maxStalled
    ensures ResultsPaid(before + [last], maxStalled)
  {
    var run, n := before + [last], |Results(before)|;
    CountsStep(before, last);
    if last.Failed? || last.digest in Results(before) {
      assert Results(run) == Results(before);
    } else {
      assert |Results(run)| == n + 1;
      NewResultPaid(ReturnedCount(before), n, maxStalled, StalledFor(before));
    }
  }

  lemma {:induction false} ResultsBounded(run: seq<Observation>, maxStalled: int, maxSameFailure: int)
    requires NeverStopped(run, maxStalled, maxSameFailure)
    ensures ResultsPaid(run, maxStalled) && StalledFor(run) < maxStalled
  {
    assert run[..|run|] == run;
    if run != [] {
      var before, last := run[..|run| - 1], run[|run| - 1];
      assert forall k :: 0 <= k <= |before| ==> before[..k] == run[..k];
      ResultsBounded(before, maxStalled, maxSameFailure);
      assert run == before + [last];
      ResultsPaidStep(before, last, maxStalled);
    }
  }

  lemma Distribute(a: int, b: int)
    ensures a * (b + 1) == a * b + a
  {
  }

  /** A run no prefix of which is stopped is short. */
  lemma NeverStoppedIsShort(run: seq<Observation>, maxStalled: int, maxSameFailure: int)
    requires NeverStopped(run, maxStalled, maxSameFailure)
    ensures |run| <= Allowance(run, maxStalled, maxSameFailure)
  {
    assert run[..|run|] == run;
    ResultsBounded(run, maxStalled, maxSameFailure);
    Distribute(maxStalled, |Results(run)| - 1);
    var most := if maxSameFailure >= 1 then maxSameFailure - 1 else 0;
    forall call | call in FailedCalls(run) ensures FailureCount(run, call) <= most {
      NeverFailed(run, call);
    }
    FailuresBounded(run, FailedCalls(run), most);
    EveryFailureCounts(run, FailedCalls(run));
  }

  /** What `N` distinct results and `M` distinct failing calls allow. */
  ghost function Allowance(run: seq<Observation>, maxStalled: int, maxSameFailure: int): nat {
    (if maxStalled >= 1 then maxStalled else 0) * |Results(run)|
    + (if maxSameFailure >= 1 then maxSameFailure - 1 else 0) * |FailedCalls(run)|
  }

  /** The stop bounds the loop: however results and failures interleave, a run with N distinct results and M
      distinct failing calls is stopped by observation `maxStalled * N + (maxSameFailure - 1) * M + 1`. */
  lemma StopBoundsTheLoop(run: seq<Observation>, maxStalled: int, maxSameFailure: int)
    requires |run| > Allowance(run, maxStalled, maxSameFailure)
    ensures exists k :: 0 <= k <= Allowance(run, maxStalled, maxSameFailure) + 1
                     && StoppedAfter(run[..k], maxStalled, maxSameFailure)
  {
    var bound := Allowance(run, maxStalled, maxSameFailure);
    var first := run[..bound + 1];
    if NeverStopped(first, maxStalled, maxSameFailure) {
      NeverStoppedIsShort(first, maxStalled, maxSameFailure);
      SubsetSize(Results(first), Results(run));
      SubsetSize(FailedCalls(first), FailedCalls(run));
      LargerFactor(if maxStalled >= 1 then maxStalled else 0, |Results(first)|, |Results(run)|);
      LargerFactor(if maxSameFailure >= 1 then maxSameFailure - 1 else 0, |FailedCalls(first)|, |FailedCalls(run)|);
    } else {
      var k :| 0 <= k <= |first| && StoppedAfter(first[..k], maxStalled, maxSameFailure);
      assert first[..k] == run[..k];
    }
  }

  lemma LargerFactor(a: nat, b: nat, c: nat)
    requires b <= c
    ensures a * b <= a * c
  {
  }

  lemma SubsetSize(a: set<string>, b: set<string>)
    requires a <= b
    ensures |a| <= |b|
  {
    assert b == a + (b - a);
  }
}
