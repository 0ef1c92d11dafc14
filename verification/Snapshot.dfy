/** Saving and restoring a budget (arslan/execution_budget.py, `snapshot` and `from_snapshot`), and what
    every run of admissions, charges, waits and restarts keeps. */
module Snapshot {
  import opened Wrappers
  import opened Budget

  /** The keys the program writes and reads; any other is told apart by its name. */
  datatype Key =
    | KId | KLimits | KUsed | KStopReason | KTokenLimitMode | KMonetaryLimit | KSoftLimits | KSpend
    | KModelRequests | KToolCalls | KTokens | KWallSeconds | KOutputTokens | KArtifactBytes
    | KUsd | KUsdCap | KUnpriced
    | KOther(name: string)

  /** A decoded JSON value, as far as a snapshot's checks can tell values apart. */
  datatype Json =
    | JNull
    | JBool(b: bool)
    | JInt(n: int)
    | JFloat(r: real)
    | JNonFinite
    | JString(s: string)
    | JList(items: seq<Json>)
    | JObject(fields: map<Key, Json>)

  function Get(fields: map<Key, Json>, key: Key): Json {
    if key in fields then fields[key] else JNull
  }

  // ---------------------------------------------------------------------------
  // Rounding
  // ---------------------------------------------------------------------------

  /** The nearest integer, ties to even. */
  function RoundHalfEven(x: real): (n: int)
    ensures n as real - 0.5 <= x <= n as real + 0.5
    ensures x >= 0.0 ==> n >= 0
  {
    var floor := x.Floor;
    var rest := x - floor as real;
    if rest < 0.5 || (rest == 0.5 && floor % 2 == 0) then floor else floor + 1
  }

  function Round3(x: real): (r: real)
    ensures r - 0.0005 <= x <= r + 0.0005
    ensures x >= 0.0 ==> r >= 0.0
  {
    RoundHalfEven(x * 1000.0) as real / 1000.0
  }

  function Round6(x: real): (r: real)
    ensures r - 0.0000005 <= x <= r + 0.0000005
    ensures x >= 0.0 ==> r >= 0.0
  {
    RoundHalfEven(x * 1000000.0) as real / 1000000.0
  }

  // ---------------------------------------------------------------------------
  // Saving
  // ---------------------------------------------------------------------------

  const LIMIT_KEYS := {KModelRequests, KToolCalls, KTokens, KWallSeconds, KOutputTokens,
                       KArtifactBytes}

  function SaveLimits(l: Limits): Json {
    JObject(map[
      KModelRequests := JInt(l.modelRequests), KToolCalls := JInt(l.toolCalls), KTokens := JInt(l.tokens),
      KWallSeconds := JFloat(l.wallSeconds), KOutputTokens := JInt(l.outputTokens),
      KArtifactBytes := JInt(l.artifactBytes)])
  }

  function SaveSoft(l: SoftLimits): Json {
    JObject(map[
      KModelRequests := JFloat(l.modelRequests), KToolCalls := JFloat(l.toolCalls), KTokens := JFloat(l.tokens),
      KWallSeconds := JFloat(l.wallSeconds), KOutputTokens := JFloat(l.outputTokens),
      KArtifactBytes := JFloat(l.artifactBytes)])
  }

  function ReasonName(reason: Reason): string {
    match reason
    case ModelRequests => "model_requests"
    case ToolCalls => "tool_calls"
    case Tokens => "tokens"
    case ArtifactBytes => "artifact_bytes"
    case WallSeconds => "wall_seconds"
    case Usd => "usd"
  }

  function SaveUsed(l: Ledger, now: real): Json {
    JObject(map[
      KModelRequests := JInt(l.modelRequests), KToolCalls := JInt(l.toolCalls), KTokens := JInt(l.tokens),
      KArtifactBytes := JInt(l.artifactBytes), KWallSeconds := JFloat(Round3(now - l.started))])
  }

  function SaveSpend(l: Ledger): Json {
    JObject(map[
      KUsd := JFloat(Round6(l.usd)),
      KUsdCap := (match l.usdCap case None => JNull case Some(cap) => JFloat(cap)),
      KUnpriced := JInt(l.unpriced)])
  }

  function Save(l: Ledger, id: string, now: real): Json {
    var fields := map[
      KId := JString(id), KLimits := SaveLimits(l.limits), KUsed := SaveUsed(l, now),
      KStopReason := (match l.stopReason case None => JNull case Some(r) => JString(ReasonName(r))),
      KTokenLimitMode := JString("post_response_admission"),
      KMonetaryLimit := JBool(l.usdCap.Some?), KSpend := SaveSpend(l)];
    JObject(if l.soft.Some? then fields[KSoftLimits := SaveSoft(l.soft.value)] else fields)
  }

  // ---------------------------------------------------------------------------
  // Restoring
  // ---------------------------------------------------------------------------

  datatype SnapshotError =
    | BadSnapshot | BadLimits | BadLimit | NotInteger | NotPositive | BadSoftLimits
    | BadIdentity | BadUsage | BadStopReason | BadSpend

  /** A finite number; a bool counts as one only where the check does not rule it out. */
  function Number(j: Json): Option<real> {
    match j
    case JInt(n) => Some(n as real)
    case JFloat(r) => Some(r)
    case _ => None
  }

  function LooseNumber(j: Json): Option<real> {
    if j.JBool? then Some(if j.b then 1.0 else 0.0) else Number(j)
  }

  function ReadLimits(j: Json): Result<Limits, SnapshotError> {
    if !j.JObject? || j.fields.Keys != LIMIT_KEYS then Err(BadLimits)
    else
      var f := j.fields;
      var requests, tools, tokens := f[KModelRequests], f[KToolCalls], f[KTokens];
      var wall, output, bytes := f[KWallSeconds], f[KOutputTokens], f[KArtifactBytes];
      if Number(requests).None? || Number(tools).None? || Number(tokens).None? || Number(wall).None?
         || Number(output).None? || Number(bytes).None?
      then Err(BadLimit)
      else if !(requests.JInt? && tools.JInt? && tokens.JInt? && output.JInt? && bytes.JInt?)
      then Err(NotInteger)
      else
        var l := Limits(requests.n, tools.n, tokens.n, Number(wall).value, output.n, bytes.n);
        if l.Positive() then Ok(l) else Err(NotPositive)
  }

  function Narrowed(saved: Limits, ceiling: Option<Limits>): Limits {
    match ceiling
    case None => saved
    case Some(c) => Limits(
      Min(saved.modelRequests, c.modelRequests), Min(saved.toolCalls, c.toolCalls), Min(saved.tokens, c.tokens),
      if saved.wallSeconds <= c.wallSeconds then saved.wallSeconds else c.wallSeconds,
      Min(saved.outputTokens, c.outputTokens), Min(saved.artifactBytes, c.artifactBytes))
  }

  /** The ceilings are the widest that are within both. */
  lemma NarrowedIsWidest(saved: Limits, ceiling: Limits, limits: Limits)
    ensures limits.Within(Narrowed(saved, Some(ceiling))) <==> limits.Within(saved) && limits.Within(ceiling)
    ensures Narrowed(saved, None) == saved
  {
  }

  function ReadSoft(j: Json): Result<Option<SoftLimits>, SnapshotError> {
    if j.JNull? then Ok(None)
    else if !j.JObject? || j.fields.Keys != LIMIT_KEYS then Err(BadSoftLimits)
    else
      var f := j.fields;
      var requests, tools, tokens := LooseNumber(f[KModelRequests]), LooseNumber(f[KToolCalls]),
          LooseNumber(f[KTokens]);
      var wall, output := LooseNumber(f[KWallSeconds]), LooseNumber(f[KOutputTokens]);
      var bytes := LooseNumber(f[KArtifactBytes]);
      if requests.None? || tools.None? || tokens.None? || wall.None? || output.None? || bytes.None?
      then Err(BadSoftLimits)
      else
        var l := SoftLimits(requests.value, tools.value, tokens.value, wall.value, output.value, bytes.value);
        if l.Positive() then Ok(Some(l)) else Err(NotPositive)
  }

  function ReadReason(j: Json): Result<Option<Reason>, SnapshotError> {
    match j
    case JNull => Ok(None)
    case JString("model_requests") => Ok(Some(ModelRequests))
    case JString("tool_calls") => Ok(Some(ToolCalls))
    case JString("tokens") => Ok(Some(Tokens))
    case JString("artifact_bytes") => Ok(Some(ArtifactBytes))
    case JString("wall_seconds") => Ok(Some(WallSeconds))
    case JString("usd") => Ok(Some(Usd))
    case _ => Err(BadStopReason)
  }

  datatype Usage = Usage(modelRequests: int, toolCalls: int, tokens: int, artifactBytes: int, wallSeconds: real)

  predicate Count(j: Json) {
    j.JInt? && j.n >= 0
  }

  function ReadUsage(used: map<Key, Json>): Result<Usage, SnapshotError> {
    var requests, tools, tokens := Get(used, KModelRequests), Get(used, KToolCalls), Get(used, KTokens);
    var bytes, wall := Get(used, KArtifactBytes), Get(used, KWallSeconds);
    if !(Count(requests) && Count(tools) && Count(tokens) && Count(bytes))
       || Number(wall).None? || Number(wall).value < 0.0
    then Err(BadUsage)
    else Ok(Usage(requests.n, tools.n, tokens.n, bytes.n, Number(wall).value))
  }

  datatype Spend = Spend(usd: real, cap: Option<real>, unpriced: int)

  /** A snapshot without a spend is from before there was a dollar cap: it gets the default. */
  function ReadSpend(j: Json, defaultCap: Option<real>): Result<Spend, SnapshotError> {
    if j.JNull? then Ok(Spend(0.0, defaultCap, 0))
    else if !j.JObject? then Err(BadSpend)
    else
      var usd, cap, unpriced := Get(j.fields, KUsd), Get(j.fields, KUsdCap), Get(j.fields, KUnpriced);
      if Number(usd).None? || Number(usd).value < 0.0
         || (!cap.JNull? && (Number(cap).None? || Number(cap).value <= 0.0))
         || !unpriced.JInt? || unpriced.n < 0
      then Err(BadSpend)
      else Ok(Spend(Number(usd).value, if cap.JNull? then None else Number(cap), unpriced.n))
  }

  function Restore(j: Json, ceiling: Option<Limits>, defaultCap: Option<real>, now: real)
    : Result<(string, Ledger), SnapshotError>
  {
    if !j.JObject? || !Get(j.fields, KUsed).JObject? then Err(BadSnapshot)
    else
      var f := j.fields;
      Assemble(ReadLimits(Get(f, KLimits)), ceiling, ReadSoft(Get(f, KSoftLimits)), Get(f, KId),
               ReadUsage(Get(f, KUsed).fields), ReadReason(Get(f, KStopReason)),
               ReadSpend(Get(f, KSpend), defaultCap), now)
  }

  /** The first part that cannot be read, or the budget they make up. */
  function Assemble(limits: Result<Limits, SnapshotError>, ceiling: Option<Limits>,
                    soft: Result<Option<SoftLimits>, SnapshotError>,
                    id: Json, usage: Result<Usage, SnapshotError>, reason: Result<Option<Reason>, SnapshotError>,
                    spend: Result<Spend, SnapshotError>, now: real): Result<(string, Ledger), SnapshotError>
  {
    if limits.Err? then Err(limits.error)
    else if ceiling.Some? && !Narrowed(limits.value, ceiling).Positive() then
      Err(NotPositive)
    else if soft.Err? then Err(soft.error)
    else if !id.JString? || !ValidId(id.s) then Err(BadIdentity)
    else if usage.Err? then Err(usage.error)
    else if reason.Err? then Err(reason.error)
    else if spend.Err? then Err(spend.error)
    else
      var u, d := usage.value, spend.value;
      Ok((id.s, Ledger(Narrowed(limits.value, ceiling), soft.value, d.cap, d.usd, None, d.unpriced, now - u.wallSeconds,
                       u.modelRequests, u.toolCalls, u.tokens, u.artifactBytes, reason.value)))
  }

  predicate ValidId(id: string) {
    0 < |id| <= 200
  }

  // ---------------------------------------------------------------------------
  // Saving, then restoring
  // ---------------------------------------------------------------------------

  /** What holds of every budget the program can reach (`RunKeepsBooks`). */
  ghost predicate Sound(l: Ledger) {
    && l.limits.Positive() && (l.soft.Some? ==> l.soft.value.Positive())
    && l.usd >= 0.0 && l.unpriced >= 0
    && l.modelRequests >= 0 && l.toolCalls >= 0 && l.tokens >= 0 && l.artifactBytes >= 0
  }

  ghost predicate UsableCap(cap: Option<real>) {
    cap.Some? ==> cap.value > 0.0
  }

  /** The ledger as it comes back: counters, caps and stop reason as they were, ceilings no wider, the time
      spent so far still charged and downtime not, dollars and seconds rounded. */
  ghost function Restored(l: Ledger, ceiling: Option<Limits>, savedAt: real, now: real): Ledger {
    l.(limits := Narrowed(l.limits, ceiling), usd := Round6(l.usd), shared := None,
       started := now - Round3(savedAt - l.started))
  }

  /** `r` is the budget restored, exactly when its dollar cap is none or positive and it has not been credited with
      more time than has passed. */
  ghost predicate ComesBack(r: Result<(string, Ledger), SnapshotError>, l: Ledger, id: string, savedAt: real,
                            ceiling: Option<Limits>, now: real) {
    && (r.Ok? <==> UsableCap(l.usdCap) && Round3(savedAt - l.started) >= 0.0)
    && (r.Ok? ==> r.value == (id, Restored(l, ceiling, savedAt, now)))
  }

  /** What is saved comes back. */
  lemma SavedIsRestored(l: Ledger, id: string, savedAt: real, ceiling: Option<Limits>, defaultCap: Option<real>,
                        now: real)
    requires Sound(l) && ValidId(id) && (ceiling.Some? ==> ceiling.value.Positive())
    ensures ComesBack(Restore(Save(l, id, savedAt), ceiling, defaultCap, now), l, id, savedAt, ceiling, now)
  {
    SavedReadsAs(l, id, savedAt, ceiling, defaultCap, now);
    UsageReadsBack(l, savedAt);
    ReadsBackSpend(l, defaultCap);
    AssembledComesBack(l, id, savedAt, ceiling, now);
  }

  /** `back` is `l` after a stop of the program: counters, wrap-up point, cap and reason as they were, dollars and the
      time spent so far to the snapshot's rounding, and the shared sum forgotten. */
  ghost predicate SameBooks(l: Ledger, savedAt: real, back: Ledger, now: real) {
    && back.modelRequests == l.modelRequests && back.toolCalls == l.toolCalls && back.tokens == l.tokens
    && back.artifactBytes == l.artifactBytes && back.unpriced == l.unpriced
    && back.soft == l.soft && back.usdCap == l.usdCap && back.stopReason == l.stopReason && back.shared == None
    && -0.0000005 <= back.usd - l.usd <= 0.0000005
    && -0.0005 <= (now - back.started) - (savedAt - l.started) <= 0.0005
  }

  /** What comes back has all that was charged: nothing is reset, and downtime is not charged. */
  lemma NothingIsReset(l: Ledger, id: string, savedAt: real, ceiling: Option<Limits>, defaultCap: Option<real>,
                       now: real, r: Result<(string, Ledger), SnapshotError>)
    requires Sound(l) && ValidId(id) && (ceiling.Some? ==> ceiling.value.Positive())
    requires r == Restore(Save(l, id, savedAt), ceiling, defaultCap, now)
    ensures r.Ok? ==> r.value.0 == id && SameBooks(l, savedAt, r.value.1, now)
    ensures r.Ok? ==> r.value.1.limits == Narrowed(l.limits, ceiling)
  {
    assert ComesBack(r, l, id, savedAt, ceiling, now) by {
      SavedIsRestored(l, id, savedAt, ceiling, defaultCap, now);
    }
  }

  /** A snapshot from before there was a dollar cap has no spend: it is given the default cap, and none spent. */
  lemma OldSnapshotGetsTheDefault(l: Ledger, id: string, savedAt: real, ceiling: Option<Limits>,
                                  defaultCap: Option<real>, now: real, fields: map<Key, Json>)
    requires Sound(l) && ValidId(id) && (ceiling.Some? ==> ceiling.value.Positive()) && savedAt >= l.started
    requires fields == Save(l, id, savedAt).fields - {KSpend}
    ensures var r := Restore(JObject(fields), ceiling, defaultCap, now);
      r.Ok? && r.value.1.usdCap == defaultCap && r.value.1.usd == 0.0 && r.value.1.unpriced == 0
  {
    OldReadsAs(l, id, savedAt, ceiling, defaultCap, now, fields);
    UsageReadsBack(l, savedAt);
  }

  lemma OldReadsAs(l: Ledger, id: string, savedAt: real, ceiling: Option<Limits>, defaultCap: Option<real>, now: real,
                   fields: map<Key, Json>)
    requires Sound(l) && fields == Save(l, id, savedAt).fields - {KSpend}
    ensures Restore(JObject(fields), ceiling, defaultCap, now)
            == Assemble(Ok(l.limits), ceiling, Ok(l.soft), JString(id), ReadUsage(SaveUsed(l, savedAt).fields),
                        Ok(l.stopReason), Ok(Spend(0.0, defaultCap, 0)), now)
  {
    OldFields(l, id, savedAt, fields);
    FieldsReadAs(l, id, savedAt, ceiling, defaultCap, now, fields);
  }

  /** What a snapshot without a spend holds. */
  ghost predicate HoldsAllButSpend(l: Ledger, id: string, savedAt: real, fields: map<Key, Json>) {
    && Get(fields, KId) == JString(id) && Get(fields, KLimits) == SaveLimits(l.limits)
    && Get(fields, KUsed) == SaveUsed(l, savedAt) && Get(fields, KSpend) == JNull
    && Get(fields, KSoftLimits) == (if l.soft.Some? then SaveSoft(l.soft.value) else JNull)
    && Get(fields, KStopReason) == (if l.stopReason.Some? then JString(ReasonName(l.stopReason.value)) else JNull)
  }

  lemma OldFields(l: Ledger, id: string, savedAt: real, fields: map<Key, Json>)
    requires fields == Save(l, id, savedAt).fields - {KSpend}
    ensures HoldsAllButSpend(l, id, savedAt, fields)
  {
    var was := Save(l, id, savedAt).fields;
    SavedFields(l, id, savedAt);
    forall key | key != KSpend ensures Get(fields, key) == Get(was, key) {}
  }

  lemma FieldsReadAs(l: Ledger, id: string, savedAt: real, ceiling: Option<Limits>, defaultCap: Option<real>, now: real,
                     fields: map<Key, Json>)
    requires Sound(l) && HoldsAllButSpend(l, id, savedAt, fields)
    ensures Restore(JObject(fields), ceiling, defaultCap, now)
            == Assemble(Ok(l.limits), ceiling, Ok(l.soft), JString(id), ReadUsage(SaveUsed(l, savedAt).fields),
                        Ok(l.stopReason), Ok(Spend(0.0, defaultCap, 0)), now)
  {
    ReadsBackLimits(l.limits);
    if l.soft.Some? { ReadsBackSoft(l.soft.value); }
    ReadsBackReason(l);
  }

  ghost function UsageBack(l: Ledger, spent: real): Result<Usage, SnapshotError> {
    if spent >= 0.0 then Ok(Usage(l.modelRequests, l.toolCalls, l.tokens, l.artifactBytes, spent)) else Err(BadUsage)
  }

  ghost function SpendBack(l: Ledger, usd: real): Result<Spend, SnapshotError> {
    if UsableCap(l.usdCap) then Ok(Spend(usd, l.usdCap, l.unpriced)) else Err(BadSpend)
  }

  lemma AssembledComesBack(l: Ledger, id: string, savedAt: real, ceiling: Option<Limits>, now: real)
    requires Sound(l) && ValidId(id) && (ceiling.Some? ==> ceiling.value.Positive())
    ensures ComesBack(Assemble(Ok(l.limits), ceiling, Ok(l.soft), JString(id),
                               UsageBack(l, Round3(savedAt - l.started)), Ok(l.stopReason),
                               SpendBack(l, Round6(l.usd)), now), l, id, savedAt, ceiling, now)
  {
  }

  lemma UsageReadsBack(l: Ledger, savedAt: real)
    requires Sound(l)
    ensures ReadUsage(SaveUsed(l, savedAt).fields) == UsageBack(l, Round3(savedAt - l.started))
  {
  }

  lemma SavedReadsAs(l: Ledger, id: string, savedAt: real, ceiling: Option<Limits>, defaultCap: Option<real>, now: real)
    requires Sound(l)
    ensures Restore(Save(l, id, savedAt), ceiling, defaultCap, now)
            == Assemble(Ok(l.limits), ceiling, Ok(l.soft), JString(id), ReadUsage(SaveUsed(l, savedAt).fields),
                        Ok(l.stopReason), ReadSpend(SaveSpend(l), defaultCap), now)
  {
    SavedFields(l, id, savedAt);
    ReadsBackLimits(l.limits);
    if l.soft.Some? { ReadsBackSoft(l.soft.value); }
    ReadsBackReason(l);
  }

  lemma ReadsBackReason(l: Ledger)
    ensures ReadReason(if l.stopReason.Some? then JString(ReasonName(l.stopReason.value)) else JNull)
        == Ok(l.stopReason)
  {
  }

  lemma SavedFields(l: Ledger, id: string, savedAt: real)
    ensures var fields := Save(l, id, savedAt).fields;
            && Get(fields, KId) == JString(id)
            && Get(fields, KLimits) == SaveLimits(l.limits)
            && Get(fields, KUsed) == SaveUsed(l, savedAt)
            && Get(fields, KSoftLimits) == (if l.soft.Some? then SaveSoft(l.soft.value) else JNull)
            && Get(fields, KStopReason)
              == (if l.stopReason.Some? then JString(ReasonName(l.stopReason.value)) else JNull)
            && Get(fields, KSpend) == SaveSpend(l)
  {
  }

  lemma ReadsBackSpend(l: Ledger, defaultCap: Option<real>)
    requires Sound(l)
    ensures ReadSpend(SaveSpend(l), defaultCap) == SpendBack(l, Round6(l.usd))
  {
  }

  lemma ReadsBackLimits(l: Limits)
    requires l.Positive()
    ensures ReadLimits(SaveLimits(l)) == Ok(l)
  {
    var f := SaveLimits(l).fields;
    assert f.Keys == LIMIT_KEYS;
  }

  lemma ReadsBackSoft(l: SoftLimits)
    requires l.Positive()
    ensures ReadSoft(SaveSoft(l)) == Ok(Some(l))
  {
    var f := SaveSoft(l).fields;
    assert f.Keys == LIMIT_KEYS;
  }

  /** Whatever was in the file, a restored budget is sound, has charged no negative time, and has no ceiling
      above the one the caller gives. */
  lemma RestoredIsSound(j: Json, ceiling: Option<Limits>, defaultCap: Option<real>, now: real)
    requires Restore(j, ceiling, defaultCap, now).Ok?
    ensures var (id, l) := Restore(j, ceiling, defaultCap, now).value;
            && ValidId(id) && Sound(l) && l.started <= now
            && (ceiling.Some? ==> l.limits.Within(ceiling.value))
            && (UsableCap(defaultCap) ==> UsableCap(l.usdCap))
  {
    var f := j.fields;
    ReadSoftIsPositive(Get(f, KSoftLimits));
    ReadLimitsIsPositive(Get(f, KLimits));
  }

  lemma ReadLimitsIsPositive(j: Json)
    ensures ReadLimits(j).Ok? ==> ReadLimits(j).value.Positive()
  {
  }

  lemma ReadSoftIsPositive(j: Json)
    ensures var r := ReadSoft(j); r.Ok? && r.value.Some? ==> r.value.value.Positive()
  {
  }

  // ---------------------------------------------------------------------------
  // Runs
  // ---------------------------------------------------------------------------

  /** A budget with the one wall clock that enforces it, and the time. */
  datatype Run = Run(ledger: Ledger, now: real, pauses: nat, pausedAt: real)

  datatype Event =
    | Pass(seconds: real)
    | Ask(op: Admission)
    | UsedTokens(tokens: int)
    | Paid(price: Option<real>)
    | Share(spent: real, limit: real)
    | StopFor(reason: Reason)
    | Pause
    | Resume
    | Restart(downtime: real, ceiling: Option<Limits>, defaultCap: Option<real>)

  ghost predicate Possible(e: Event) {
    match e
    case Pass(seconds) => seconds >= 0.0
    case Ask(op) => op.Reserve? ==> op.count >= 0
    case Restart(downtime, ceiling, _) => downtime >= 0.0 && (ceiling.Some? ==> ceiling.value.Positive())
    case _ => true
  }

  /** One event. A restart saves the budget and restores it, with the outcome `RestartIsARestore`
      proves; its clocks are gone. */
  ghost function Next(run: Run, e: Event): Run {
    var l := run.ledger;
    match e
    case Pass(seconds) => run.(now := run.now + seconds)
    case Ask(op) => run.(ledger := Admit(l, op, run.now))
    case UsedTokens(tokens) => run.(ledger := ChargeTokens(l, tokens))
    case Paid(price) => run.(ledger := ChargeUsd(l, price))
    case Share(spent, limit) => run.(ledger := l.(shared := Some((spent, limit))))
    case StopFor(reason) => run.(ledger := l.(stopReason := if l.stopReason.Some? then l.stopReason else Some(reason)))
    case Pause => run.(pauses := run.pauses + 1, pausedAt := if run.pauses == 0 then run.now else run.pausedAt)
    case Resume =>
      if run.pauses == 0 then run
      else if run.pauses > 1 then run.(pauses := run.pauses - 1)
      else run.(pauses := 0, ledger := l.(started := l.started + (run.now - run.pausedAt)))
    case Restart(downtime, ceiling, _) => Restarted(run, downtime, ceiling)
  }

  ghost function Restarted(run: Run, downtime: real, ceiling: Option<Limits>): Run {
    var l := run.ledger;
    if UsableCap(l.usdCap) && Round3(run.now - l.started) >= 0.0
    then Run(Restored(l, ceiling, run.now, run.now + downtime), run.now + downtime, 0, 0.0)
    else run
  }

  ghost function After(run: Run, events: seq<Event>): Run {
    if events == [] then run else Next(After(run, events[..|events| - 1]), events[|events| - 1])
  }

  ghost predicate InOrder(run: Run) {
    && Sound(run.ledger)
    && run.ledger.started <= run.now
    && (run.pauses > 0 ==> run.ledger.started <= run.pausedAt <= run.now)
  }

  ghost predicate AllPossible(events: seq<Event>) {
    forall i :: 0 <= i < |events| ==> Possible(events[i])
  }

  /** `next` goes on with what was restored, without clocks; when that was refused, with the run as it was. */
  ghost predicate Continues(run: Run, downtime: real, r: Result<(string, Ledger), SnapshotError>, next: Run) {
    next == match r case Ok((_, restored)) => Run(restored, run.now + downtime, 0, 0.0) case Err(_) => run
  }

  /** That outcome is the one of saving and restoring: a refused snapshot leaves the run as it is. */
  lemma RestartIsARestore(run: Run, id: string, downtime: real, ceiling: Option<Limits>, defaultCap: Option<real>,
                          r: Result<(string, Ledger), SnapshotError>)
    requires Sound(run.ledger) && ValidId(id) && (ceiling.Some? ==> ceiling.value.Positive())
    requires r == Restore(Save(run.ledger, id, run.now), ceiling, defaultCap, run.now + downtime)
    ensures Continues(run, downtime, r, Restarted(run, downtime, ceiling))
  {
    RestartGives(run, id, downtime, ceiling, r);
    assert ComesBack(r, run.ledger, id, run.now, ceiling, run.now + downtime) by {
      SavedIsRestored(run.ledger, id, run.now, ceiling, defaultCap, run.now + downtime);
    }
  }

  lemma RestartGives(run: Run, id: string, downtime: real, ceiling: Option<Limits>,
                     r: Result<(string, Ledger), SnapshotError>)
    ensures ComesBack(r, run.ledger, id, run.now, ceiling, run.now + downtime)
            ==> Continues(run, downtime, r, Restarted(run, downtime, ceiling))
  {
  }

  /** What only grows, only narrows or never changes from one moment of a run to a later one. */
  ghost predicate Onward(a: Ledger, b: Ledger) {
    && a.modelRequests <= b.modelRequests && a.toolCalls <= b.toolCalls && a.tokens <= b.tokens
    && a.artifactBytes <= b.artifactBytes && a.unpriced <= b.unpriced
    && b.limits.Within(a.limits) && b.soft == a.soft && b.usdCap == a.usdCap
    && (a.stopReason.Some? ==>
        && b.stopReason == a.stopReason
        && b.modelRequests == a.modelRequests && b.toolCalls == a.toolCalls && b.artifactBytes == a.artifactBytes)
  }

  lemma NextKeepsBooks(run: Run, e: Event)
    requires InOrder(run) && Possible(e)
    ensures InOrder(Next(run, e)) && Onward(run.ledger, Next(run, e).ledger)
  {
    if e.Restart? { RestoredOnward(run.ledger, e.ceiling, run.now, run.now + e.downtime); }
  }

  lemma RestoredOnward(l: Ledger, ceiling: Option<Limits>, savedAt: real, now: real)
    requires Sound(l) && l.started <= savedAt && (ceiling.Some? ==> ceiling.value.Positive())
    ensures var r := Restored(l, ceiling, savedAt, now); Sound(r) && Onward(l, r) && r.started <= now
  {
  }

  /** Over any run: no counter decreases, ceilings only narrow, the first stop reason stays and with it every
      count that needs an admission. */
  lemma {:induction false} RunKeepsBooks(run: Run, events: seq<Event>)
    requires InOrder(run) && AllPossible(events)
    ensures InOrder(After(run, events)) && Onward(run.ledger, After(run, events).ledger)
  {
    if events != [] {
      var before := events[..|events| - 1];
      RunKeepsBooks(run, before);
      NextKeepsBooks(After(run, before), events[|events| - 1]);
    }
  }

  /** An admission puts no counter past its ceiling, and after a stop it changes nothing. */
  lemma AdmissionStaysUnderCeilings(l: Ledger, op: Admission, now: real)
    ensures var after := Admit(l, op, now);
            && after.modelRequests <= Max(l.modelRequests, l.limits.modelRequests)
            && after.toolCalls <= Max(l.toolCalls, l.limits.toolCalls)
            && after.artifactBytes <= Max(l.artifactBytes, l.limits.artifactBytes)
            && (after != l ==> Refusal(l, op, now) == None || after == l.(stopReason := after.stopReason))
            && (l.stopReason.Some? ==> after == l)
            && (Refusal(l, op, now).Some? <==> after.stopReason.Some?)
  {
  }

  // ---------------------------------------------------------------------------
  // What a run is granted
  // ---------------------------------------------------------------------------

  /** What the budget counts against the ceiling that `reason` guards. */
  ghost function Counted(l: Ledger, reason: Reason): int {
    match reason
    case ModelRequests => l.modelRequests
    case ToolCalls => l.toolCalls
    case ArtifactBytes => l.artifactBytes
    case _ => 0
  }

  ghost function CeilingOf(limits: Limits, reason: Reason): int {
    match reason
    case ModelRequests => limits.modelRequests
    case ToolCalls => limits.toolCalls
    case ArtifactBytes => limits.artifactBytes
    case _ => 0
  }

  /** How much one operation asks of it. */
  ghost function Asked(op: Admission, reason: Reason): int {
    match (op, reason)
    case (Request(_), ModelRequests) => 1
    case (ToolCall, ToolCalls) => 1
    case (Reserve(count), ArtifactBytes) => count
    case _ => 0
  }

  /** The event asks for an operation and is granted it. */
  ghost predicate Granted(run: Run, e: Event) {
    e.Ask? && Refusal(run.ledger, e.op, run.now).None?
  }

  /** What the run's granted operations asked for, together. */
  ghost function GrantedIn(run: Run, events: seq<Event>, reason: Reason): int {
    if events == [] then 0
    else
      var before, last := events[..|events| - 1], events[|events| - 1];
      GrantedIn(run, before, reason) + if Granted(After(run, before), last) then Asked(last.op, reason) else 0
  }

  /** Over any run, restarts and waits included, the counters are what was granted. */
  lemma {:induction false} CountersAreGrants(run: Run, events: seq<Event>, reason: Reason)
    ensures Counted(After(run, events).ledger, reason) == Counted(run.ledger, reason) + GrantedIn(run, events, reason)
  {
    if events != [] { CountersAreGrants(run, events[..|events| - 1], reason); }
  }

  /** So no run is ever granted more requests, tool calls or bytes than its ceilings allow. */
  lemma {:induction false} NoMoreThanTheCeiling(run: Run, events: seq<Event>, reason: Reason)
    requires InOrder(run) && AllPossible(events) && reason in {ModelRequests, ToolCalls, ArtifactBytes}
    requires Counted(run.ledger, reason) <= CeilingOf(run.ledger.limits, reason)
    ensures Counted(run.ledger, reason) + GrantedIn(run, events, reason) <= CeilingOf(run.ledger.limits, reason)
  {
    if events != [] {
      var before := events[..|events| - 1];
      NoMoreThanTheCeiling(run, before, reason);
      CountersAreGrants(run, before, reason);
      RunKeepsBooks(run, before);
    }
  }

  ghost function TokensUsed(events: seq<Event>): int {
    if events == [] then 0
    else
      var last := events[|events| - 1];
      TokensUsed(events[..|events| - 1]) + if last.UsedTokens? && last.tokens > 0 then last.tokens else 0
  }

  ghost function UnknownPrices(events: seq<Event>): int {
    if events == [] then 0
    else UnknownPrices(events[..|events| - 1]) + if events[|events| - 1] == Paid(None) then 1 else 0
  }

  ghost function Price(e: Event): real {
    if e.Paid? && e.price.Some? && e.price.value > 0.0 then e.price.value else 0.0
  }

  ghost function DollarsPaid(events: seq<Event>): real {
    if events == [] then 0.0 else DollarsPaid(events[..|events| - 1]) + Price(events[|events| - 1])
  }

  ghost predicate Uninterrupted(events: seq<Event>) {
    forall i :: 0 <= i < |events| ==> !events[i].Restart?
  }

  /** Every charge of a run counts, whatever it was admitted for: tokens and unknown prices over restarts too, dollars
      exactly as long as there is none. */
  lemma {:induction false} ChargesAreSummed(run: Run, events: seq<Event>)
    ensures var l := After(run, events).ledger;
      && l.tokens == run.ledger.tokens + TokensUsed(events)
      && l.unpriced == run.ledger.unpriced + UnknownPrices(events)
      && (Uninterrupted(events) ==> l.usd == run.ledger.usd + DollarsPaid(events))
  {
    if events != [] {
      var before, last := events[..|events| - 1], events[|events| - 1];
      ChargesAreSummed(run, before);
      NextCharges(After(run, before), last);
      if Uninterrupted(events) { assert forall i :: 0 <= i < |before| ==> before[i] == events[i]; }
    }
  }

  lemma NextCharges(run: Run, e: Event)
    ensures var was, l := run.ledger, Next(run, e).ledger;
      && l.tokens == was.tokens + (if e.UsedTokens? && e.tokens > 0 then e.tokens else 0)
      && l.unpriced == was.unpriced + (if e == Paid(None) then 1 else 0)
      && (!e.Restart? ==> l.usd == was.usd + Price(e))
  {
  }

  /** Every budget a run reaches can be saved and restored, exactly when its dollar cap is none or positive. */
  lemma ReachableIsRestorable(limits: Limits, soft: Option<SoftLimits>, cap: Option<real>, start: real,
                              id: string, events: seq<Event>, ceiling: Option<Limits>, defaultCap: Option<real>,
                              later: real)
    requires limits.Positive() && (soft.Some? ==> soft.value.Positive()) && ValidId(id)
    requires AllPossible(events) && (ceiling.Some? ==> ceiling.value.Positive())
    ensures var run := After(Run(Fresh(limits, soft, cap, start), start, 0, 0.0), events);
            Restore(Save(run.ledger, id, run.now), ceiling, defaultCap, later).Ok? <==> UsableCap(cap)
  {
    var first := Run(Fresh(limits, soft, cap, start), start, 0, 0.0);
    RunKeepsBooks(first, events);
    var run := After(first, events);
    SavedIsRestored(run.ledger, id, run.now, ceiling, defaultCap, later);
  }
}
