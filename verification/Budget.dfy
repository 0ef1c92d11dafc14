/** One run's shared budget: admission, charges, and the sticky stop (arslan/execution_budget.py). */
module Budget {
  import opened Wrappers

  const MIN_OUTPUT_TOKENS := 16384

  datatype Limits = Limits(
    modelRequests: int,
    toolCalls: int,
    tokens: int,
    wallSeconds: real,
    outputTokens: int,
    artifactBytes: int)
  {
    predicate Positive() {
      modelRequests > 0 && toolCalls > 0 && tokens > 0 && wallSeconds > 0.0 && outputTokens > 0 && artifactBytes > 0
    }

    predicate Within(wider: Limits) {
      && modelRequests <= wider.modelRequests && toolCalls <= wider.toolCalls && tokens <= wider.tokens
      && wallSeconds <= wider.wallSeconds && outputTokens <= wider.outputTokens && artifactBytes <= wider.artifactBytes
    }
  }

  /** Where a run wraps up. Restored from a snapshot, any of them may be a fraction. */
  datatype SoftLimits = SoftLimits(
    modelRequests: real,
    toolCalls: real,
    tokens: real,
    wallSeconds: real,
    outputTokens: real,
    artifactBytes: real)
  {
    predicate Positive() {
      && modelRequests > 0.0 && toolCalls > 0.0 && tokens > 0.0
      && wallSeconds > 0.0 && outputTokens > 0.0 && artifactBytes > 0.0
    }
  }

  function Softened(l: Limits): SoftLimits {
    SoftLimits(l.modelRequests as real, l.toolCalls as real, l.tokens as real, l.wallSeconds,
               l.outputTokens as real, l.artifactBytes as real)
  }

  datatype Reason = ModelRequests | ToolCalls | Tokens | ArtifactBytes | WallSeconds | Usd

  /** What a budget holds at one moment. */
  datatype Ledger = Ledger(
    limits: Limits,
    soft: Option<SoftLimits>,
    usdCap: Option<real>,
    usd: real,
    shared: Option<(real, real)>,
    unpriced: int,
    started: real,
    modelRequests: int,
    toolCalls: int,
    tokens: int,
    artifactBytes: int,
    stopReason: Option<Reason>)

  datatype Admission = Request(requestedOutput: int) | ToolCall | Reserve(count: int)

  function Max(a: int, b: int): int { if a >= b then a else b }

  function Min(a: int, b: int): int { if a <= b then a else b }

  // ---------------------------------------------------------------------------
  // Admission on values
  // ---------------------------------------------------------------------------

  /** Why `op` cannot go now; a stop that already happened comes before everything else. */
  function Refusal(l: Ledger, op: Admission, now: real): Option<Reason> {
    if l.stopReason.Some? then l.stopReason
    else if now - l.started >= l.limits.wallSeconds then Some(WallSeconds)
    else match op
      case Request(_) =>
        if l.modelRequests >= l.limits.modelRequests then Some(ModelRequests)
        else if l.tokens >= l.limits.tokens then Some(Tokens)
        else if l.usdCap.Some? && l.usd >= l.usdCap.value then Some(Usd)
        else None
      case ToolCall =>
        if l.toolCalls >= l.limits.toolCalls then Some(ToolCalls) else None
      case Reserve(count) =>
        if l.artifactBytes + count > l.limits.artifactBytes then Some(ArtifactBytes) else None
  }

  function Admit(l: Ledger, op: Admission, now: real): Ledger {
    match Refusal(l, op, now)
    case Some(reason) => l.(stopReason := Some(reason))
    case None =>
      match op
      case Request(_) => l.(modelRequests := l.modelRequests + 1)
      case ToolCall => l.(toolCalls := l.toolCalls + 1)
      case Reserve(count) => l.(artifactBytes := l.artifactBytes + count)
  }

  /** The output tokens an admitted request gets. */
  function Grant(l: Ledger, requested: int): int {
    Min(Min(requested, l.limits.outputTokens), Max(MIN_OUTPUT_TOKENS, l.limits.tokens - l.tokens))
  }

  function ChargeTokens(l: Ledger, tokens: int): Ledger {
    l.(tokens := l.tokens + Max(0, tokens))
  }

  function ChargeUsd(l: Ledger, usd: Option<real>): Ledger {
    match usd
    case None => l.(unpriced := l.unpriced + 1)
    case Some(price) => l.(usd := l.usd + if price > 0.0 then price else 0.0)
  }

  predicate SoftReached(l: Ledger, now: real) {
    || (l.soft.Some? && (
          || l.modelRequests as real >= l.soft.value.modelRequests
          || l.toolCalls as real >= l.soft.value.toolCalls
          || l.tokens as real >= l.soft.value.tokens
          || now - l.started >= l.soft.value.wallSeconds))
    || (l.usdCap.Some? && l.usd >= l.usdCap.value / 1.5)
    || (l.shared.Some? && l.usd + l.shared.value.0 >= l.shared.value.1 / 1.5)
  }

  // ---------------------------------------------------------------------------
  // The object
  // ---------------------------------------------------------------------------

  class Budget {
    const limits: Limits
    const soft: Option<SoftLimits>
    var usdCap: Option<real>
    var usd: real
    var sharedUsd: Option<(real, real)>
    var unpricedRequests: int
    var started: real
    var modelRequests: int
    var toolCalls: int
    var tokens: int
    var artifactBytes: int
    var stopReason: Option<Reason>
    var lastOutputClamped: bool

    ghost function Contents(): Ledger
      reads this
    {
      Ledger(limits, soft, usdCap, usd, sharedUsd, unpricedRequests, started,
             modelRequests, toolCalls, tokens, artifactBytes, stopReason)
    }

    constructor (limits: Limits, soft: Option<SoftLimits>, usdCap: Option<real>, now: real)
      ensures Contents() == Fresh(limits, soft, usdCap, now)
    {
      this.limits, this.soft, this.usdCap := limits, soft, usdCap;
      usd, sharedUsd, unpricedRequests, started := 0.0, None, 0, now;
      modelRequests, toolCalls, tokens, artifactBytes := 0, 0, 0, 0;
      stopReason, lastOutputClamped := None, false;
    }

    /** Records the first reason; later ones do not replace it. */
    method Stop(reason: Reason)
      modifies this`stopReason
      ensures stopReason == if old(stopReason).Some? then old(stopReason) else Some(reason)
    {
      if stopReason.None? {
        stopReason := Some(reason);
      }
    }

    method RemainingSeconds(now: real) returns (seconds: real)
      ensures seconds == if now - started >= limits.wallSeconds then 0.0 else limits.wallSeconds - (now - started)
    {
      seconds := limits.wallSeconds - (now - started);
      if seconds < 0.0 {
        seconds := 0.0;
      }
    }

    method Check(now: real) returns (ok: bool)
      modifies this`stopReason
      ensures ok <==> old(stopReason).None? && now - started < limits.wallSeconds
      ensures ok ==> stopReason == None
      ensures !ok ==> stopReason == if old(stopReason).Some? then old(stopReason) else Some(WallSeconds)
    {
      if stopReason.Some? {
        Stop(stopReason.value);
        return false;
      }
      var remaining := RemainingSeconds(now);
      if remaining <= 0.0 {
        Stop(WallSeconds);
        return false;
      }
      return true;
    }

    method CheckRequest(now: real) returns (ok: bool)
      modifies this`stopReason
      ensures var refusal := Refusal(old(Contents()), Request(0), now);
              ok == refusal.None? && stopReason == refusal
    {
      ok := Check(now);
      if !ok {
        return;
      }
      if modelRequests >= limits.modelRequests {
        Stop(ModelRequests);
        return false;
      }
      if tokens >= limits.tokens {
        Stop(Tokens);
        return false;
      }
      if usdCap.Some? && usd >= usdCap.value {
        Stop(Usd);
        return false;
      }
    }

    method ModelRequest(requestedOutput: int, now: real) returns (granted: Result<int, Reason>)
      modifies this`stopReason, this`modelRequests, this`lastOutputClamped
      ensures Contents() == Admit(old(Contents()), Request(requestedOutput), now)
      ensures match Refusal(old(Contents()), Request(requestedOutput), now)
              case Some(reason) => granted == Err(reason) && lastOutputClamped == old(lastOutputClamped)
              case None => && granted == Ok(Grant(old(Contents()), requestedOutput))
                           && (lastOutputClamped <==> granted.value < requestedOutput)
    {
      var ok := CheckRequest(now);
      if !ok {
        return Err(stopReason.value);
      }
      modelRequests := modelRequests + 1;
      var most := Min(requestedOutput, limits.outputTokens);
      var left := Max(MIN_OUTPUT_TOKENS, limits.tokens - tokens);
      var output := Min(most, left);
      lastOutputClamped := output < requestedOutput;
      return Ok(output);
    }

    method Tool(now: real) returns (ok: bool)
      modifies this`stopReason, this`toolCalls
      ensures Contents() == Admit(old(Contents()), ToolCall, now)
      ensures ok <==> Refusal(old(Contents()), ToolCall, now) == None
    {
      ok := Check(now);
      if ok {
        if toolCalls >= limits.toolCalls {
          Stop(ToolCalls);
          return false;
        }
        toolCalls := toolCalls + 1;
      }
    }

    method ReserveArtifact(count: int, now: real) returns (ok: bool)
      modifies this`stopReason, this`artifactBytes
      ensures Contents() == Admit(old(Contents()), Reserve(count), now)
      ensures ok <==> Refusal(old(Contents()), Reserve(count), now) == None
    {
      ok := Check(now);
      if ok {
        if artifactBytes + count > limits.artifactBytes {
          Stop(ArtifactBytes);
          return false;
        }
        artifactBytes := artifactBytes + count;
      }
    }

    method Charge(amount: int)
      modifies this`tokens
      ensures Contents() == ChargeTokens(old(Contents()), amount)
    {
      tokens := tokens + Max(0, amount);
    }

    method ChargePrice(price: Option<real>)
      modifies this`usd, this`unpricedRequests
      ensures Contents() == ChargeUsd(old(Contents()), price)
    {
      if price.None? {
        unpricedRequests := unpricedRequests + 1;
      } else if price.value > 0.0 {
        usd := usd + price.value;
      }
    }
  }

  function Fresh(limits: Limits, soft: Option<SoftLimits>, usdCap: Option<real>, now: real): Ledger {
    Ledger(limits, soft, usdCap, 0.0, None, 0, now, 0, 0, 0, 0, None)
  }

  // ---------------------------------------------------------------------------
  // What admission and charging promise
  // ---------------------------------------------------------------------------

  /** There is nothing left of what `reason` guards, for an operation of that kind. */
  ghost predicate UsedUp(l: Ledger, op: Admission, reason: Reason, now: real) {
    match reason
    case WallSeconds => now >= l.started + l.limits.wallSeconds
    case ModelRequests => op.Request? && l.modelRequests >= l.limits.modelRequests
    case Tokens => op.Request? && l.tokens >= l.limits.tokens
    case Usd => op.Request? && exists cap :: l.usdCap == Some(cap) && cap <= l.usd
    case ToolCalls => op.ToolCall? && l.toolCalls >= l.limits.toolCalls
    case ArtifactBytes => op.Reserve? && l.artifactBytes + op.count > l.limits.artifactBytes
  }

  const CHECKED := [WallSeconds, ModelRequests, Tokens, Usd, ToolCalls, ArtifactBytes]

  /** A running budget grants exactly what nothing stands against, and otherwise names the first that does; a stopped
      one repeats its reason. */
  lemma RefusedForTheFirst(l: Ledger, op: Admission, now: real)
    ensures l.stopReason.Some? ==> Refusal(l, op, now) == l.stopReason
    ensures l.stopReason.None? ==>
      match Refusal(l, op, now)
      case None => forall reason :: !UsedUp(l, op, reason, now)
      case Some(reason) => exists k :: 0 <= k < |CHECKED| && CHECKED[k] == reason && UsedUp(l, op, reason, now)
                                       && forall j :: 0 <= j < k ==> !UsedUp(l, op, CHECKED[j], now)
  {
    if l.stopReason.None? && Refusal(l, op, now).Some? {
      var reason := Refusal(l, op, now).value;
      var k := match reason
        case WallSeconds => 0
        case ModelRequests => 1
        case Tokens => 2
        case Usd => 3
        case ToolCalls => 4
        case ArtifactBytes => 5;
      assert CHECKED[k] == reason && UsedUp(l, op, reason, now);
      assert forall j :: 0 <= j < k ==> !UsedUp(l, op, CHECKED[j], now);
    }
  }

  /** A request is granted the most that is within what it asked, the cap for one answer, and what is left of the
      tokens or else the floor. */
  lemma GrantIsTheMost(l: Ledger, requested: int, output: int)
    ensures output <= Grant(l, requested) <==>
      && output <= requested && output <= l.limits.outputTokens
      && (output <= MIN_OUTPUT_TOKENS || output + l.tokens <= l.limits.tokens)
  {
  }

  // ---------------------------------------------------------------------------
  // Soft before hard
  // ---------------------------------------------------------------------------

  /** ceil(n * 1.5) */
  function HardOver(soft: Limits): Limits {
    soft.(modelRequests := (3 * soft.modelRequests + 1) / 2,
          toolCalls := (3 * soft.toolCalls + 1) / 2,
          tokens := (3 * soft.tokens + 1) / 2,
          wallSeconds := soft.wallSeconds * 1.5)
  }

  /** The least whole ceilings that are one and a half times the soft ones, and time to the second; an answer's output
      and artifact space are as they were. */
  lemma HardIsLeastOver(soft: Limits, limits: Limits)
    ensures HardOver(soft).Within(limits) <==>
      && 3 * soft.modelRequests <= 2 * limits.modelRequests && 3 * soft.toolCalls <= 2 * limits.toolCalls
      && 3 * soft.tokens <= 2 * limits.tokens && 3.0 * soft.wallSeconds <= 2.0 * limits.wallSeconds
      && soft.outputTokens <= limits.outputTokens && soft.artifactBytes <= limits.artifactBytes
  {
  }

  function RunBudget(tier: Limits, usdCap: Option<real>, now: real): Ledger {
    Fresh(HardOver(tier), Some(Softened(tier)), usdCap, now)
  }

  /** The ledger as it would be if its wrap-up point were its ceiling. */
  ghost function AsCeiling(l: Ledger, tier: Limits): Ledger {
    l.(limits := tier, stopReason := None, usdCap := if l.usdCap.Some? then Some(l.usdCap.value / 1.5) else None)
  }

  /** It is time to wrap up exactly when the wrap-up point, taken as the ceiling, would refuse a request or a tool call,
      or when two thirds of a shared sum are spent. */
  lemma SoftReachedIff(l: Ledger, tier: Limits, now: real)
    requires l.soft == Some(Softened(tier))
    ensures SoftReached(l, now) <==>
      || Refusal(AsCeiling(l, tier), Request(0), now).Some?
      || Refusal(AsCeiling(l, tier), ToolCall, now).Some?
      || (exists spent, limit :: l.shared == Some((spent, limit)) && 3.0 * (l.usd + spent) >= 2.0 * limit)
  {
    if l.shared.Some? {
      var (spent, limit) := l.shared.value;
      assert l.shared == Some((spent, limit));
      assert l.usd + spent >= limit / 1.5 <==> 3.0 * (l.usd + spent) >= 2.0 * limit;
    }
  }

  /** No hard ceiling is under its wrap-up point. */
  ghost predicate HardCoversSoft(limits: Limits, soft: SoftLimits) {
    && soft.modelRequests <= limits.modelRequests as real
    && soft.toolCalls <= limits.toolCalls as real
    && soft.tokens <= limits.tokens as real
    && soft.wallSeconds <= limits.wallSeconds
  }

  /** A ledger with these ceilings and nothing negative on it. */
  ghost predicate LedgerUnder(l: Ledger, limits: Limits, soft: SoftLimits) {
    && l.limits == limits && l.soft == Some(soft) && l.usd >= 0.0
    && l.modelRequests >= 0 && l.toolCalls >= 0 && l.tokens >= 0 && l.artifactBytes >= 0
  }

  /** Refused now, for the first time, for anything but artifact space: then it was already time to wrap up. */
  ghost predicate WrapsUpFirst(l: Ledger, op: Admission, now: real) {
    l.stopReason == None && Refusal(l, op, now).Some? && Refusal(l, op, now) != Some(ArtifactBytes)
    ==> SoftReached(l, now)
  }

  ghost predicate AlwaysWrapsUpFirst(limits: Limits, soft: SoftLimits) {
    forall l: Ledger, op: Admission, now: real :: LedgerUnder(l, limits, soft) ==> WrapsUpFirst(l, op, now)
  }

  /** Every stop for requests, tools, tokens, wall time or dollars finds the soft limit reached, exactly when
      the hard ceilings are no lower than the soft ones. */
  lemma WrapsUpFirstIff(limits: Limits, soft: SoftLimits)
    requires limits.Positive() && soft.Positive()
    ensures AlwaysWrapsUpFirst(limits, soft) <==> HardCoversSoft(limits, soft)
  {
    if HardCoversSoft(limits, soft) {
      forall l: Ledger, op: Admission, now: real | LedgerUnder(l, limits, soft) ensures WrapsUpFirst(l, op, now) {
      }
    } else {
      var idle := Fresh(limits, Some(soft), None, 0.0);
      if soft.modelRequests > limits.modelRequests as real {
        NotFirst(idle.(modelRequests := limits.modelRequests), Request(0), 0.0, soft);
      } else if soft.tokens > limits.tokens as real {
        NotFirst(idle.(tokens := limits.tokens), Request(0), 0.0, soft);
      } else if soft.toolCalls > limits.toolCalls as real {
        NotFirst(idle.(toolCalls := limits.toolCalls), ToolCall, 0.0, soft);
      } else {
        NotFirst(idle, ToolCall, limits.wallSeconds, soft);
      }
    }
  }

  lemma NotFirst(l: Ledger, op: Admission, now: real, soft: SoftLimits)
    requires LedgerUnder(l, l.limits, soft) && !WrapsUpFirst(l, op, now)
    ensures !AlwaysWrapsUpFirst(l.limits, soft)
  {
  }

  /** A budget from a tier is one of those. */
  lemma RunBudgetWrapsUpFirst(tier: Limits, usdCap: Option<real>, now: real)
    requires tier.Positive()
    ensures var l := RunBudget(tier, usdCap, now);
            && l.limits.Positive() && tier.Within(l.limits)
            && AlwaysWrapsUpFirst(l.limits, l.soft.value)
            && l.soft == Some(Softened(tier)) && l.usdCap == usdCap && l.started == now && l.stopReason == None
            && l.modelRequests == l.toolCalls == l.tokens == l.artifactBytes == l.unpriced == 0 && l.usd == 0.0
  {
    var l := RunBudget(tier, usdCap, now);
    WrapsUpFirstIff(l.limits, l.soft.value);
  }

  // ---------------------------------------------------------------------------
  // How far tokens overshoot
  // ---------------------------------------------------------------------------

  /** One thing that happens in a run whose answers come one at a time: an answer is a request and the tokens
      charged for it once it is admitted. */
  datatype Step = Answer(requested: int, charged: int) | Other(op: Admission) | Priced(price: Option<real>)

  ghost function Take(l: Ledger, step: Step, now: real): Ledger {
    match step
    case Answer(requested, charged) =>
      if Refusal(l, Request(requested), now).Some? then Admit(l, Request(requested), now)
      else ChargeTokens(Admit(l, Request(requested), now), charged)
    case Other(op) => Admit(l, op, now)
    case Priced(price) => ChargeUsd(l, price)
  }

  /** Steps with the times they happen at. */
  ghost function TakeAll(l: Ledger, steps: seq<(Step, real)>): Ledger {
    if steps == [] then l
    else Take(TakeAll(l, steps[..|steps| - 1]), steps[|steps| - 1].0, steps[|steps| - 1].1)
  }

  /** Every admitted request charges at most what it was granted. */
  ghost predicate ChargesWithinGrants(l: Ledger, steps: seq<(Step, real)>) {
    forall i {:trigger steps[i]} :: 0 <= i < |steps| && steps[i].0.Answer? ==>
      steps[i].0.charged <= Max(0, Grant(TakeAll(l, steps[..i]), steps[i].0.requested))
  }

  /** The token limit is overshot by less than the floor every request is granted. */
  lemma {:induction false} TokensOvershootByLessThanFloor(l: Ledger, steps: seq<(Step, real)>)
    requires ChargesWithinGrants(l, steps)
    requires l.tokens < l.limits.tokens + MIN_OUTPUT_TOKENS
    ensures TakeAll(l, steps).tokens <= l.limits.tokens + MIN_OUTPUT_TOKENS - 1
    ensures TakeAll(l, steps).limits == l.limits
  {
    if steps != [] {
      var before := steps[..|steps| - 1];
      forall i {:trigger before[i]} | 0 <= i < |before| && before[i].0.Answer?
        ensures before[i].0.charged <= Max(0, Grant(TakeAll(l, before[..i]), before[i].0.requested))
      {
        assert steps[i] == before[i] && before[..i] == steps[..i];
      }
      TokensOvershootByLessThanFloor(l, before);
    }
  }
}
