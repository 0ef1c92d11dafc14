# Arslan's turn kernel, modelled and proved

Every model call and tool call of an Arslan turn passes through a small kernel: the neutral trajectory and its
trimming, the run's budget and its pausable wall clocks, `within`, the reshaping of MCP schemas, the reassembly of
streamed replies, the healing of refused parameters, provider-safe tool names, the stop for loops without progress, and
a few text algorithms. This project models that logic in Dafny and proves what it is for, over every input, every
stream, every interleaving and every run.

Check it with `dafny verify dfyconfig.toml`.

## How the model is laid out

Each module is a file. `Wrappers` and `Text` hold what several modules share.

- `Trajectory`, `History`, `Images`: messages, the scan for call/result pairing, eviction units, shrinking an oversized
  group, unique call ids, trimming (`bounded_history`), and the stubbing of old screenshots.
- `Progress`: the stop for a loop that makes no progress.
- `Budget`, `Snapshot`, `Clocks`: admission, charges and stops of a run's budget; saving and restoring it; the wall
  clocks that waits for the user pause. Time is an input that only grows, in seconds as a real number.
- `Within`: `aio.within` as a transition system. Its steps are the caller running to its next await, the work ending,
  the limit firing, and a stop of the caller; any number of stops may come at any point.
- `Json`, `SchemaInline`, `SchemaMeaning`, `SchemaSiblings`, `SchemaMerge`, `SchemaTop`, `SchemaMerged`: JSON with
  ordered objects and Python's equality beside JSON's, `$ref` inlining under its budget, what a schema accepts, which
  keywords are safe beside a reference, merging top-level combiners, and what the merged schema is. Acceptance follows
  JSON Schema Core draft 2020-12, section 8.2.3.1 for `$ref` and section 10.2.1 for the combiners.
- `AnthropicStream`, `AnthropicReplies`, `AnthropicCalls`, `ShownText`: the Claude assembler, what it makes of any
  stream, what arguments its calls come back with, and the text shown meanwhile against the answer.
- `OpenAiStream`, `OpenAiReplies`: the same for the OpenAI-compatible assembler.
- `ParamHeal`: dropping or renaming a parameter a vendor refuses, resending, and remembering what was learned.
- `ToolNames`: names all providers take, and the way back from a name to its tool.
- `DiffParse`, `DiffPrint`: reading `git diff -U0`, and printing it.
- `Clip`, `Chunking`: the largest prefix that fits a token budget, and cutting text into overlapping chunks.

Objects whose methods update their fields are classes here (`ProgressPolicy`, `Budget`, `WallClock`, `Assembler`,
`StreamAssembler`, `Payload`, `Heals`, `Memory`, `Names`), and loops are loops. Each method is proved against a function
on values; the lemmas are about those functions. Decoding JSON, sha256, UTF-8, what counts as white space, how an error
text names a parameter and how large a group of messages is are parameters, so the results hold for any of them.

## Where the code does something else than its documentation says

Each of these is proved, and of each it is proved when exactly the code does what it promises: by the theorem whose name
ends in `Iff`, by `ReachableIsRestorable` or by `WhatALimitBuys`.

- `History.TrimmingKeepsPairingIff`, `History.SplitHistoryBreaks`: a provider pair may take a call in as its second
  message (the test for a provider message comes first), and evicting that pair leaves an orphan result. Trimming keeps
  a history paired, for every measure, bound, tail and trim target, exactly when no provider pair splits a call.
- `Images.NewestStayIff`: "every image but the newest `keep`" becomes a stub, for every limit, exactly when no message
  carries more than one image, since a message loses all its images or none. `Images.NewestFirstIff` is about the order
  between messages alone: under some limit an older message keeps its images while a newer one loses its own, exactly
  when some older message carries fewer images than a newer one.
- `Snapshot.ReachableIsRestorable`: a budget whose dollar cap is zero or negative is saved but not restored.
- `Within.WhatALimitBuys`: without a limit a stop can be lost, and a future that completes as a stop lands is dropped.
- `SchemaInline.NoRefsIff`: a definition that is itself a string can be copied in as a property called `$ref`.
- `SchemaSiblings.SafeSiblingIff`, with `PlainSiblingIff` and `CombinerSiblingIff`: a keyword beside a reference replaces
  the definition's own. It is safe beside every definition only if it accepts nothing at all;
  `ClashingSiblingChangesMeaning` gives, for any other, a definition and an instance that tell.
- `SchemaMerge.ConstsSurviveIff`: Python finds `True` equal to 1, so of the two constants one is lost.
- `SchemaTop.DroppedBranchIff`: a branch that is `true` is dropped. The merged schema then asks for more exactly when
  such a branch can be the one that accepts and the branches left together require a name that the schema does not;
  `DroppedBranchTightens` gives the object that is refused.
- `AnthropicCalls.ArgumentsReturnedIff`: a call whose content_block_stop never comes is returned with the input it
  started with, whatever arguments were streamed for it; any other, with those arguments.
- `ShownText.ShownInOrderIff`, `ShownText.ShownIsTheAnswerIff`: the pieces shown join to the answer exactly when text
  comes index after index and no text block starts with text of its own.
- `OpenAiReplies.UnindexedJoinsIff`, `OpenAiReplies.GapsMergeCalls`: a call delta without an index is given the number
  of calls so far, which may be an index in use.
- `ParamHeal.NothingRefusedIsSentIff`: preparing takes out one copy of each learned parameter, so a refused one is still
  sent exactly when it stands in two containers.

## Model

| member | source | states |
|---|---|---|
| Trajectory.AcceptsIffPaired | arslan/llm/trajectory.py:140-161 | The scan accepts a history exactly when every call message is followed at once by one result per call, in order and with its id, and every result belongs to some call |
| Trajectory.Validate | arslan/llm/trajectory.py:140-161 | The loop reports the first violation and its position, and none exactly for a paired history |
| Trajectory.CheckCall | arslan/llm/trajectory.py:140-161 | A call message passes exactly when its ids differ and the next messages answer them in order; otherwise the error says which failed |
| Trajectory.GroupEnd | arslan/llm/trajectory.py:164-181 | The end of a call message's run of results, however long |
| Trajectory.GroupAll | arslan/llm/trajectory.py:164-181 | The loop's groups are the recursive grouping |
| Trajectory.GroupsAreWhole | arslan/llm/trajectory.py:164-181 | The groups, one after the other, are the history, and each is a call message with all the results right after it or one other message |
| Trajectory.ShrinkGroup | arslan/llm/trajectory.py:188-201 | The loop gives the shrunk group, and flags it exactly when the group was too large |
| Trajectory.ShrinkOmitsOldest | arslan/llm/trajectory.py:188-201 | Some oldest results say only that they were omitted, images gone, and every newer message is verbatim; they are the fewest that make the group fit, or all of them |
| Trajectory.NewestResultsStay | arslan/llm/trajectory.py:189-191 | When a result was changed, every older one is omitted too |
| Trajectory.ShrunkToIsUnique | arslan/llm/trajectory.py:188-201 | Fewest omitted results describes one outcome only |
| Trajectory.ShrinkKeepsRecords | arslan/llm/trajectory.py:188-201 | Shrinking keeps the call message, every result's id and hence the pairing; each message is as it was or has its body replaced |
| Trajectory.FreshId | arslan/llm/trajectory.py:72-84 | The while loop ends, with the first numbered id that is not taken |
| Trajectory.UniqueIds | arslan/llm/trajectory.py:72-84 | The loop gives each call its own id or else a fresh one, and adds all of them to those seen |
| Trajectory.MadeUniqueIsUnique | arslan/llm/trajectory.py:72-84 | The ids differ from each other and from every id seen before |
| Trajectory.CallStepKeepsPairing | arslan/llm/trajectory.py:72-98 | A call message with unique ids and one result per call keeps any paired history paired |
| Images.KeepLatestImages | arslan/llm/trajectory.py:114-129 | In place, from the newest message back, exactly the messages whose images no longer fit become stubs; the count of dropped images is exact |
| Images.StubsKeepPairing | arslan/llm/trajectory.py:114-129 | Calls and results stay paired, and no more images stay than the limit |
| Images.StubsKeepText | arslan/llm/trajectory.py:124-127 | A message that loses its images says so after its own text, by its label, its name or as a screenshot; nothing else of it changes |
| Images.NewestStayIff | arslan/llm/trajectory.py:114-129 | For every limit exactly the newest images up to it stay and all others go, if and only if no message carries more than one image |
| Images.SharesAddUp | arslan/llm/trajectory.py:114-116 | The images that are to stay are the limit's number, or all there are |
| Images.NewestFirstIff | arslan/llm/trajectory.py:114-129 | No message keeps its images while a newer one loses its own, for every limit, if and only if no older message carries fewer images than a newer one |
| History.UnitsFlat | arslan/runtime_policy.py:152-169 | The eviction units are non-empty and put together are the history |
| History.UnitsAreWhole | arslan/runtime_policy.py:152-169 | Each unit is a provider message with the next, if there is one, or else a call with all its results, or else one message |
| History.SplitUnits | arslan/runtime_policy.py:152-169 | The loop's units: a provider message with the next, a call with its results, or one message |
| History.ProtectTail | arslan/runtime_policy.py:170-176 | The loop merges the fewest newest units that hold the protected tail |
| History.Keep | arslan/runtime_policy.py:181-196 | The newest-first loop keeps what dropping the oldest units one by one leaves, with the newest unit shrunk if unprotected |
| History.TrimHistory | arslan/runtime_policy.py:130-202 | The whole function, its error for an impossible tail included, equals its specification |
| History.RefusedIffNoSuchTail | arslan/runtime_policy.py:150-151 | It fails exactly for a tail the history does not have |
| History.GreedyIsCut | arslan/runtime_policy.py:181-196 | Keeping from the newest end stops exactly where evicting from the oldest end stops |
| History.CutIsLongestFit | arslan/runtime_policy.py:181-196 | What stays is one unit or fits the bound, and no longer suffix does |
| History.CutMonotone | arslan/runtime_policy.py:198-200 | A smaller bound cuts at the same place or later |
| History.SuffixesAcceptedIff | arslan/runtime_policy.py:154-169 | Evicting any number of units keeps an accepted history accepted exactly when no provider pair splits a call |
| History.SplitHistoryBreaks | arslan/runtime_policy.py:160-162 | A paired history in which a provider pair takes a call in, and which trimming breaks |
| History.TrimmingKeepsWholeUnits | arslan/runtime_policy.py:181-202 | The result is the newest units, whole, only the newest one perhaps shrunk; the flag is set exactly when a unit went or the newest was shrunk |
| History.TrimmedIsSuffix | arslan/runtime_policy.py:170-202 | Message by message a suffix with the same records, verbatim but for the newest unit; a protected tail comes back verbatim; unflagged, nothing changed |
| History.TrimmingKeepsPairing | arslan/runtime_policy.py:130-202 | For every measure, bound, tail and trim target a paired history stays paired, if no provider pair splits a call |
| History.TrimmingKeepsPairingIff | arslan/runtime_policy.py:130-202 | A paired history stays paired under every measure, bound, tail and trim target exactly when no provider pair splits a call |
| History.KeptIsLongest | arslan/runtime_policy.py:198-200 | The kept units are the longest suffix that is one unit or fits, and the cut to the trim target is a suffix of the first cut |
| History.GrowStep | arslan/runtime_policy.py:198-202 | Appending and trimming either evicts nothing or brings more than `max_chars` down to at most `trim_to` |
| History.CutsAreAmortised | arslan/runtime_policy.py:145-147 | Over a whole run the cuts times `max_chars - trim_to` never exceed the size appended |
| Progress.ProgressPolicy.constructor | arslan/runtime_policy.py:80-87 | A new policy has seen nothing |
| Progress.ProgressPolicy.Observe | arslan/runtime_policy.py:89-114 | The counters, the set and the map always describe the whole run of observations; a result is novel exactly when its digest is new |
| Progress.ProgressPolicy.Stopped | arslan/runtime_policy.py:125-127 | Stopped exactly when results stalled or one failing call repeated up to its limit |
| Progress.ProgressPolicy.CountAndLimit | arslan/runtime_policy.py:116-123 | The count shown is that of the last failing call, or else of the stalled results, with its limit |
| Progress.ResultsBounded | arslan/runtime_policy.py:111-113 | While not stopped, each new result buys at most `max_stalled` results |
| Progress.NeverStoppedIsShort | arslan/runtime_policy.py:125-127 | A run never stopped is no longer than its distinct results and distinct failing calls allow |
| Progress.StopBoundsTheLoop | arslan/runtime_policy.py:70-127 | With N distinct results and M distinct failing calls the stop comes by observation `max_stalled`*N + (`max_same_failure`-1)*M + 1, in any interleaving |
| Budget.Budget.constructor | arslan/execution_budget.py:108-129 | A new budget has charged nothing and is not stopped |
| Budget.Budget.Stop | arslan/execution_budget.py:214-217 | The first reason stays |
| Budget.Budget.RemainingSeconds | arslan/execution_budget.py:207-212 | What is left of the wall limit, never negative |
| Budget.Budget.Check | arslan/execution_budget.py:219-223 | Passes exactly when not stopped and with time left; otherwise the old reason or wall time is the reason |
| Budget.Budget.CheckRequest | arslan/execution_budget.py:225-234 | Refuses for the first of: an old stop, time, requests, tokens, dollars |
| Budget.Budget.ModelRequest | arslan/execution_budget.py:236-242 | Counts one request and grants the least of what was asked, the cap and the tokens left, but at least the floor; refused, it only records the reason |
| Budget.Budget.Tool | arslan/execution_budget.py:244-248 | Counts one tool call, or records the reason and counts nothing |
| Budget.Budget.ReserveArtifact | arslan/execution_budget.py:250-254 | Reserves the bytes when they fit, or records the reason and reserves nothing, for any count |
| Budget.Budget.Charge | arslan/execution_budget.py:416-419 | Tokens never go down; a negative charge counts for nothing |
| Budget.Budget.ChargePrice | arslan/execution_budget.py:256-261 | Dollars never go down; an unknown price is counted as such |
| Budget.WrapsUpFirstIff | arslan/execution_budget.py:197-234 | In every state each stop for requests, tools, tokens, time or dollars finds the soft limit reached, exactly when the hard ceilings are no lower than the soft ones |
| Budget.RunBudgetWrapsUpFirst | arslan/execution_budget.py:87-100 | A budget made for a run is such a budget, for every tier, with that tier and cap and nothing charged |
| Budget.HardIsLeastOver | arslan/execution_budget.py:87-92 | Its ceilings are the least that are one and a half times the tier's; output and artifact space are the tier's |
| Budget.SoftReachedIff | arslan/execution_budget.py:197-205 | It is time to wrap up exactly when the tier, taken as the ceiling, would refuse a request or a tool call, or two thirds of a shared sum are spent |
| Budget.RefusedForTheFirst | arslan/execution_budget.py:219-254 | A running budget grants exactly what nothing is used up for, and else names the first that is; a stopped one repeats its reason |
| Budget.GrantIsTheMost | arslan/execution_budget.py:236-242 | A grant is the most within what was asked, the cap for an answer, and the tokens left or else the floor |
| Budget.TokensOvershootByLessThanFloor | arslan/execution_budget.py:225-242 | Over any sequential run whose charges stay within their grants, tokens end at most at the limit plus the floor minus one |
| Snapshot.SavedIsRestored | arslan/execution_budget.py:131-195 | A saved budget is restored with all it had charged, exactly when its dollar cap is none or positive and no more time was credited than passed |
| Snapshot.NothingIsReset | arslan/execution_budget.py:131-195 | What is restored has every counter, cap and reason as saved, dollars and time spent to the snapshot's rounding, and no downtime charged |
| Snapshot.OldSnapshotGetsTheDefault | arslan/execution_budget.py:182-185 | A snapshot without a spend gets the default cap and none spent |
| Snapshot.NarrowedIsWidest | arslan/execution_budget.py:153-155 | The ceilings restored are the widest within the saved and the caller's |
| Snapshot.RestoredIsSound | arslan/execution_budget.py:143-195 | Whatever the snapshot holds, what is accepted is sound and has no ceiling above the caller's |
| Snapshot.NextKeepsBooks | arslan/execution_budget.py:131-286 | One admission, charge, stop, wait or restart lowers no counter, widens no ceiling and replaces no stop reason |
| Snapshot.RunKeepsBooks | arslan/execution_budget.py:131-286 | The same over any run of them |
| Snapshot.AdmissionStaysUnderCeilings | arslan/execution_budget.py:219-254 | No admission puts a counter past its ceiling, and after a stop none changes anything |
| Snapshot.CountersAreGrants | arslan/execution_budget.py:225-254 | Over any run, restarts and waits included, the counters of requests, tool calls and bytes are the sums of what was granted |
| Snapshot.NoMoreThanTheCeiling | arslan/execution_budget.py:225-254 | Hence no run is granted more of them than its ceilings allow |
| Snapshot.ChargesAreSummed | arslan/execution_budget.py:256-261 | Tokens and unknown prices are what was charged over any run, dollars over any without a restart |
| Snapshot.ReachableIsRestorable | arslan/execution_budget.py:131-195 | The snapshot of every budget a run reaches is accepted, exactly when its dollar cap is none or positive |
| Snapshot.RestartIsARestore | arslan/execution_budget.py:131-195 | In a run, a restart leaves what restoring the saved snapshot gives, without clocks; refused, it leaves the run as it was |
| Clocks.WallClock.constructor | arslan/execution_budget.py:301-303 | A new clock is not paused |
| Clocks.WallClock.Pause | arslan/execution_budget.py:305-313 | Only the first of overlapping pauses takes the deadline away, and only while the timeout runs |
| Clocks.WallClock.Resume | arslan/execution_budget.py:315-324 | Only the last resume credits the budget with the time waited and moves the deadline out by it |
| Clocks.Timeout.constructor | arslan/execution_budget.py:399-402 | An entered timeout is due when it was set to be |
| Clocks.Timeout.Reschedule | arslan/execution_budget.py:310-324 | A timeout that is no longer running keeps its time |
| Clocks.PauseAll | arslan/execution_budget.py:342-350 | Entering a wait pauses every clock of the stack, whether or not some share a budget |
| Clocks.ResumeOne | arslan/execution_budget.py:315-324 | One step of leaving it: the clock ends its wait, and every clock on its budget sees the start moved |
| Clocks.ResumeAll | arslan/execution_budget.py:351-355 | Leaving it ends the wait of every clock, innermost first, and credits each budget with what its clocks waited, together; with one clock a budget each clock ends as it would alone |
| Clocks.SharedBudgetIsCreditedByEach | arslan/execution_budget.py:315-324 | Clocks that share a budget credit it once each for the wait they were paused by |
| Clocks.ClocksKeepTime | arslan/execution_budget.py:296-355 | For any tasks, clocks and overlapping waits: the pause count is the number of open waits, the start has moved by the length of their union, and the timeout is due that much later |
| Clocks.DueWhenTimeIsUp | arslan/execution_budget.py:399-402 | A clock is due when its time is up, or at once if it was up when the clock was entered |
| Clocks.DeadlineIsStartPlusLimit | arslan/execution_budget.py:305-324 | While nobody waits, the deadline is the start plus the wall limit, or what it was at entry plus the waits if the time was up by then |
| Clocks.FiresOnlyOnceSpent | arslan/execution_budget.py:296-325 | The timer fires only while nobody waits and only once the run's own time, waits taken off, is spent |
| Within.RunKeeps | arslan/aio.py:25-93 | In every interleaving the work is cancelled at most once, and who was stopped, past the limit or done agrees with what happened |
| Within.CancelledExactly | arslan/aio.py:48-93 | The work is cancelled, once, exactly when the caller runs while it is running or the limit is past from the start; the caller runs then only for a stop or the limit; work left running is always cancelled |
| Within.OutcomeIsTold | arslan/aio.py:28-37 | A stop ends in the caller's CancelledError; otherwise the outcome is what the work ended with, a cancelled one being TimeoutError once the limit is past |
| Within.NothingIsLost | arslan/aio.py:76-93 | A stop that reaches the caller ends in CancelledError; a value the work gives is returned or disposed of, once, never both |
| Within.OutcomesAreEarned | arslan/aio.py:48-73 | A value or an error is the work's own, the limit's error comes only past the limit after a cancelled work, CancelledError only from a stop or a cancelled work |
| Within.CallerMovesOn | arslan/aio.py:48-73 | The caller can always go on once the work has ended, each step brings it nearer its end, and a further stop lets it leave at once without a second cancel |
| Within.WhatALimitBuys | arslan/aio.py:43-47 | Stops win exactly when a limit is given, and values are kept except for a future awaited without one |
| SchemaInline.InlineSize | arslan/llm/tool_schema.py:98-128 | Inlining never spends more budget than it counts, and its output is at most 3/2 times what went in and was paid for |
| SchemaInline.InlinedIsBounded | arslan/llm/tool_schema.py:74-128 | For every schema and definitions, cyclic or not, the output has at most 3/2 times the nodes of the schema plus 5000 |
| SchemaInline.InlineNoRefs | arslan/llm/tool_schema.py:106-128 | No string-valued `$ref` is left anywhere, if no definition is a string |
| SchemaInline.NoRefsIff | arslan/llm/tool_schema.py:106-128 | That holds for every schema exactly when no definition a reference can name is a string |
| SchemaInline.TargetIff | arslan/llm/tool_schema.py:113-117 | A reference names a definition exactly when it is its name, without a slash, after `#/$defs/` or `#/definitions/` |
| SchemaMeaning.LooseAcceptsObjects | arslan/llm/tool_schema.py:94-95 | What an exit puts in a reference's place accepts every object and nothing else |
| SchemaMeaning.OverrideAccepts | arslan/llm/tool_schema.py:126-127 | Joined without a clash, a definition's fields and a reference's siblings accept what both accept |
| SchemaMeaning.InlineAccepts | arslan/llm/tool_schema.py:106-128 | Where no exit fires, the inlined node accepts exactly the instances the node accepts with its references resolved |
| SchemaMeaning.InliningKeepsMeaning | arslan/llm/tool_schema.py:81-83 | The same for the whole pass |
| SchemaMeaning.EqAccepts | arslan/llm/tool_schema.py:126-127 | Schemas equal as JSON accept the same instances, so a sibling equal to the definition's own keyword is safe |
| SchemaSiblings.SafeSiblingIff | arslan/llm/tool_schema.py:126-127 | A sibling keeps the meaning beside every definition exactly when it is no keyword, or one that accepts nothing |
| SchemaSiblings.PlainSiblingIff | arslan/llm/tool_schema.py:126-127 | Of the keywords that are no combiners these are exactly an unknown type and an empty enum |
| SchemaSiblings.CombinerSiblingIff | arslan/llm/tool_schema.py:126-127 | Of the combiners, exactly those no instance satisfies as many branches of as they ask for |
| SchemaSiblings.ClashingSiblingChangesMeaning | arslan/llm/tool_schema.py:106-128 | For any other keyword there is a definition beside which the whole pass makes a schema accept an instance it did not |
| SchemaMerge.Dedup | arslan/llm/tool_schema.py:134-137 | The loop keeps the first of all that Python finds equal |
| SchemaMerge.AddMissing | arslan/llm/tool_schema.py:143-146 | The inner loop adds the values Python does not find yet |
| SchemaMerge.CollectValues | arslan/llm/tool_schema.py:142-146 | The values listed by all shapes, without repetition |
| SchemaMerge.MergeField | arslan/llm/tool_schema.py:131-152 | The method gives the merged field, or none where a list for a type makes the original raise |
| SchemaMerge.DedupedCovers | arslan/llm/tool_schema.py:134-137 | Every shape is found, by Python's equality, among those kept |
| SchemaMerge.SameFieldLoosens | arslan/llm/tool_schema.py:131-152 | Whatever one of the shapes allows, the merged field allows |
| SchemaMerged.SameFieldTight | arslan/llm/tool_schema.py:131-152 | And no more: whatever the merged field allows one of the shapes allows, or lists where all say only which values there are |
| SchemaMerged.MergedExactly | arslan/llm/tool_schema.py:140-151 | Shapes that list values by constant or enum, of one type or none, are merged into exactly what one of them allows |
| SchemaMerge.ConstsSurviveIff | arslan/llm/tool_schema.py:140-151 | Merging constants keeps every one of them exactly when none is equal to another in Python but not as JSON |
| SchemaTop.CollectProperties | arslan/llm/tool_schema.py:160-167 | The loop adds each property's shape under its name, in order |
| SchemaTop.CollectBranches | arslan/llm/tool_schema.py:164-167 | The same over a combiner's branches |
| SchemaTop.MergeAllShapes | arslan/llm/tool_schema.py:183-183 | One merged field per name |
| SchemaTop.CollectAll | arslan/llm/tool_schema.py:160-173 | The shapes and the joined `required` list over all combiners |
| SchemaTop.MergeTopLevel | arslan/llm/tool_schema.py:155-194 | The method gives the merged schema |
| SchemaMerged.MergedIsAnObject | arslan/llm/tool_schema.py:159-188 | The merged schema has no combiner left and is of type object, and every other keyword but these and `properties` and `required` stays |
| SchemaMerged.MergedMentions | arslan/llm/tool_schema.py:160-183 | Its properties are exactly the names that the schema's own or some branch's properties have, each once |
| SchemaMerged.MergedPropertyTight | arslan/llm/tool_schema.py:164-183 | Each property allows only what one of its descriptions allows or lists |
| SchemaMerged.MergedRequires | arslan/llm/tool_schema.py:161-192 | It requires exactly the schema's own names, those all branches of an `anyOf` or of a `oneOf` require, and those some branch of an `allOf` does |
| SchemaTop.MergedPropertiesAllow | arslan/llm/tool_schema.py:160-183 | Every property of an accepted object that uses no field only unsatisfied branches mention is allowed by the merged field |
| SchemaTop.AllRequiredPresent | arslan/llm/tool_schema.py:161-173 | An accepted object has every name of the joined `required` list, if no dropped branch tightens |
| SchemaTop.MergingOnlyLoosens | arslan/llm/tool_schema.py:155-194 | Merging only loosens: an accepted object that uses no field only unsatisfied branches mention is accepted by the merged schema, if no dropped branch tightens and no constants are confused |
| SchemaTop.ReshapingOnlyLoosens | arslan/llm/tool_schema.py:81-84 | Inlining and merging together only loosen |
| SchemaTop.DroppedBranchIff | arslan/llm/tool_schema.py:164-173 | Whatever else a schema says, every accepted object has the joined names, exactly when no dropped branch accepts (under `oneOf`, not just one) or the branches left require together only names the schema requires |
| SchemaTop.DroppedBranchTightens | arslan/llm/tool_schema.py:155-194 | In every other case the merged schema refuses an object the original accepts |
| AnthropicStream.Assembler.constructor | arslan/llm/anthropic_stream.py:43-49 | A new assembler has read nothing |
| AnthropicStream.Assembler.Feed | arslan/llm/anthropic_stream.py:51-73 | One event changes the whole state as specified, or fails with the event's status or the unparsed arguments |
| AnthropicStream.Assembler.Take | arslan/llm/anthropic_stream.py:75-93 | One delta extends its block or the open call's arguments, or marks the reply as not understood |
| AnthropicStream.Assembler.Close | arslan/llm/anthropic_stream.py:95-102 | The end of a block decodes an open call's joined arguments |
| AnthropicStream.Assemble | arslan/llm/anthropic_stream.py:124-158 | The loop reads up to message_stop or the end and gives the reply or the first failure |
| AnthropicReplies.BlocksAreIndependent | arslan/llm/anthropic_stream.py:51-102 | In any stream what an index holds is what its own frames alone leave there, however frames interleave |
| AnthropicReplies.FailsIff | arslan/llm/anthropic_stream.py:51-102 | A stream fails exactly when it carries an error event or some index's frames fail alone |
| AnthropicCalls.FailsAtTheFirstIff | arslan/llm/anthropic_stream.py:70-102 | The failure is that of the first error event, with its status, or of the first call stopped with joined arguments neither blank nor JSON; nothing else fails |
| AnthropicReplies.StateTracksFrames | arslan/llm/anthropic_stream.py:54-93 | The mark for something not understood is set exactly when a line was no JSON or a delta was unknown, for no started block, or arguments for no open call |
| AnthropicReplies.SplitBlockIsWhole | arslan/llm/anthropic_stream.py:55-102 | However text, thinking, signatures, citations and arguments are split, a block's frames rebuild it |
| AnthropicReplies.MessageIsLastSaid | arslan/llm/anthropic_stream.py:53-69 | Every field of the message, its stop reason and each count of its usage are what the stream said last |
| AnthropicReplies.ReplyHoldsItsBlocks | arslan/llm/anthropic_stream.py:104-112 | The content of every reply has one block for each index started, in the order of the indices, each the whole block that index's own frames leave |
| AnthropicReplies.StreamedIsWhole | arslan/llm/anthropic_stream.py:42-112 | Every stream of a reply, its blocks split and interleaved in any way, gives the whole reply: its message, stop reason and usage, and at its place the whole block of each index, replayable as they are |
| AnthropicReplies.CallsNeedTheWholeStream | arslan/llm/anthropic_stream.py:104-112 | A reply comes only after message_stop, calls a tool only if every delta and line was understood, and is marked exactly when not |
| AnthropicReplies.RefusedIff | arslan/llm/anthropic_stream.py:108-111 | Refused as unreadable exactly when the stream ended, calls a tool and was not understood |
| AnthropicCalls.CallsGetTheirArguments | arslan/llm/anthropic_stream.py:51-112 | In any stream, the input of every call of the reply is what its joined argument pieces stand for if it was stopped, and what it started with if not |
| AnthropicCalls.ArgumentsReturnedIff | arslan/llm/anthropic_stream.py:95-112 | A call is returned with the arguments streamed for it, whatever its start held, exactly when it was stopped |
| ShownText.ShownIsWhatArrived | arslan/llm/anthropic_stream.py:79-83 | The pieces shown join to the text deltas in the order they came |
| ShownText.ShownInOrderIff | arslan/llm/anthropic_stream.py:79-83 | Pieces join to the same text as they come and index by index, whatever they say, exactly when they come index after index |
| ShownText.ShownIsTheAnswerIff | arslan/llm/anthropic_stream.py:75-112 | Coming so, what was shown is the finished reply's answer exactly when no text block started with text |
| OpenAiStream.StreamAssembler.constructor | arslan/llm/stream_assembly.py:43-53 | A new assembler has read nothing |
| OpenAiStream.StreamAssembler.Feed | arslan/llm/stream_assembly.py:55-89 | One chunk changes the whole state as specified; progress is reported exactly when some choice carried text, reasoning or a call |
| OpenAiStream.StreamAssembler.Take | arslan/llm/stream_assembly.py:60-88 | One choice: role and finish reason last given stay, texts, details and calls are added; progress exactly when it carried one |
| OpenAiReplies.ProgressIff | arslan/llm/stream_assembly.py:55-89 | A choice is progress exactly when it carries a part of a call or changes more than role and finish reason |
| OpenAiStream.StreamAssembler.TakeMarks | arslan/llm/stream_assembly.py:60-88 | A role or a finish reason that is given replaces the one before, and nothing else changes |
| OpenAiStream.StreamAssembler.TakeTexts | arslan/llm/stream_assembly.py:64-71 | Each non-empty piece goes to its own list, content also to the listener |
| OpenAiStream.StreamAssembler.TakeCalls | arslan/llm/stream_assembly.py:76-86 | The loop merges the call deltas one after the other |
| OpenAiStream.StreamAssembler.TakeCall | arslan/llm/stream_assembly.py:77-85 | The first id and name stay, arguments are appended, at the delta's index or the number of calls |
| OpenAiStream.Assemble | arslan/llm/stream_assembly.py:108-142 | The loop reads up to the end marker and gives the reply, or none when the connection ended mid-reply |
| OpenAiReplies.ChunksInOrder | arslan/llm/stream_assembly.py:126-141 | The chunks read are the decoded lines before the end marker, in order |
| OpenAiReplies.AfterIsItsChoices | arslan/llm/stream_assembly.py:55-89 | How a stream is cut into chunks and choices changes nothing but the usage, which is the last one given |
| OpenAiReplies.CallsAreIndices | arslan/llm/stream_assembly.py:76-78 | The calls are exactly those at the indices the deltas name or are given |
| OpenAiReplies.CallIsItsDeltas | arslan/llm/stream_assembly.py:76-85 | In any mix of deltas, a call is made by those of its own index alone: first id, first name, all arguments |
| OpenAiReplies.StreamedCallsAreWhole | arslan/llm/stream_assembly.py:76-85 | However calls are split and interleaved, exactly the original calls come out |
| OpenAiReplies.UnindexedCallsAreListed | arslan/llm/stream_assembly.py:77-103 | Whole calls sent without an index come out as they are, in order |
| OpenAiReplies.UnindexedJoinsIff | arslan/llm/stream_assembly.py:77-78 | After any deltas, one without an index opens no call of its own exactly when the number of calls is an index in use |
| OpenAiReplies.GapsMergeCalls | arslan/llm/stream_assembly.py:77-85 | A call at index 1 swallows the next one without an index |
| OpenAiReplies.StreamedIsWhole | arslan/llm/stream_assembly.py:40-105 | Every stream of a reply gives that reply, its calls in the order of their indices, its finish reason and usage included, and the pieces shown join to its content |
| OpenAiReplies.LinesGiveTheReply | arslan/llm/stream_assembly.py:108-142 | Reading the lines of such a stream gives that reply, once the end marker or the finish reason has come |
| OpenAiReplies.AnswersIff | arslan/llm/stream_assembly.py:129-142 | A reply comes exactly from a stream with its end marker or a finish reason |
| ParamHeal.Payload.Apply | arslan/llm/param_heal.py:100-116 | Editing in place drops or renames one parameter, with its beta, where it stands first; for cache markers everywhere |
| ParamHeal.ChangeDoes | arslan/llm/param_heal.py:100-116 | The parameter goes from the first container that has it, its value under the new name if there is one, with one copy of its beta; all else stays |
| ParamHeal.ChangeCarriesLess | arslan/llm/param_heal.py:100-116 | Each change leaves one healable parameter fewer |
| ParamHeal.ToHealIff | arslan/llm/param_heal.py:164-191 | There is a parameter to heal exactly when status 400 or 422 refuses something and there is a candidate, sent and named: the vendor's, if it says one, or else the one named first |
| ParamHeal.HealsIff | arslan/llm/param_heal.py:191-199 | It is healed exactly when it can be taken out |
| ParamHeal.FirstBlamedIsFirst | arslan/llm/param_heal.py:164-199 | The parameter chosen is named no later than any other candidate, and one is chosen whenever there is a candidate |
| ParamHeal.Heals.Judge | arslan/llm/param_heal.py:156-161 | A pending heal is kept exactly when the next answer no longer names it |
| ParamHeal.Heals.Recover | arslan/llm/param_heal.py:164-199 | Changes the payload exactly when the error names something to heal, and leaves it alone otherwise |
| ParamHeal.Memory.Prepare | arslan/llm/param_heal.py:119-122 | Every lesson is applied once, and the payload asks the same otherwise |
| ParamHeal.PreparingTakesOneEach | arslan/llm/param_heal.py:119-122 | Preparing takes out exactly one copy of each learned parameter, and a refused cache-marker field everywhere |
| ParamHeal.NothingRefusedIsSentIff | arslan/llm/param_heal.py:100-122 | After preparing, nothing this endpoint refused is sent, exactly when no learned parameter stands in two containers |
| ParamHeal.Memory.Settle | arslan/llm/param_heal.py:202-209 | Adds the heals kept to what is known of this endpoint, and nothing else |
| ParamHeal.SettleRun | arslan/llm/param_heal.py:202-226 | After a success the endpoint's lessons are those before and exactly the heals the run earned; no other endpoint's change |
| ParamHeal.Attempt | arslan/llm/param_heal.py:212-226 | The resend loop ends, and its attempts form a run of heals, each of the answer before |
| ParamHeal.Send | arslan/llm/param_heal.py:212-226 | One request from preparing to remembering: only this endpoint's lessons change, and only by what the run earned |
| ParamHeal.ResendingIsBounded | arslan/llm/param_heal.py:100-226 | At most one attempt more than the payload carries healable parameters; every payload sent differs from the first only by dropped parameters, their betas, and a renamed `max_tokens` |
| ParamHeal.RememberedIsEarned | arslan/llm/param_heal.py:156-209 | A lesson is new only if its very next answer no longer named it and the request succeeded, and every such heal is remembered |
| ParamHeal.LessonsAreHeals | arslan/llm/param_heal.py:202-209 | Everything remembered is a parameter the program heals, under the name it heals it to |
| ToolNames.WireIsTaken | arslan/llm/tool_names.py:36-44 | Every name is at most 64 allowed characters with a letter or `_` first, for any digest |
| ToolNames.WireResembles | arslan/llm/tool_names.py:30-44 | A key that can be is sent as it is; any other keeps every allowed character there is room for, and ends in its digest |
| ToolNames.KeptIsNobodysNewName | arslan/llm/tool_names.py:36-44 | A key sent unchanged never equals another key's new name |
| ToolNames.SharedNameIff | arslan/llm/tool_names.py:36-44 | Two keys share a name exactly when both are renamed, clean to the same text and have the same digest |
| ToolNames.Collect | arslan/llm/tool_names.py:55-66 | The loops find exactly the shared names, and lead every other name back to its one key |
| ToolNames.Names.constructor | arslan/llm/tool_names.py:55-66 | The names of a tool list are exact from the start |
| ToolNames.Names.SentTools | arslan/llm/tool_names.py:68-81 | Of any list, what is sent is its tools under their names, in order, without those whose name is shared |
| ToolNames.Names.Reply | arslan/llm/tool_names.py:88-100 | Every call of a reply is given the key its name leads to |
| ToolNames.SentFacts | arslan/llm/tool_names.py:68-81 | Every name sent is one providers take and belongs to a tool, and every tool with its own name is sent |
| ToolNames.SentInOrder | arslan/llm/tool_names.py:68-81 | The list is sent tool by tool, in order, entries without a function as they are |
| ToolNames.CallsMeanTheirTool | arslan/llm/tool_names.py:83-86 | A name that was sent leads back to exactly the one key that goes by it |
| ToolNames.EveryOtherToolIsSent | arslan/llm/tool_names.py:55-86 | A tool whose name is shared is sent by nobody's name; any other is sent and found again |
| ToolNames.ReplyThenHistory | arslan/llm/tool_names.py:103-134 | Sending a reply's calls back as history restores the names they came under |
| DiffParse.UnquoteLoop | scripts/check_added_chinese.py:253-272 | The loop over a quoted name decodes as the recursive reading does, and fails where that does |
| DiffParse.ParseDiff | scripts/check_added_chinese.py:278-307 | The loop over the lines gives the scan's added and removed lines |
| DiffPrint.UnquoteQuoted | scripts/check_added_chinese.py:253-272 | A quoted name reads back as what was quoted, however each character was escaped |
| DiffPrint.UnquotePlain | scripts/check_added_chinese.py:253-258 | A plain name, with the tab git adds after a space, reads back |
| DiffPrint.HunkStartOf | scripts/check_added_chinese.py:275-275 | Every hunk header gives its new-file line number |
| DiffPrint.ScanFiles | scripts/check_added_chinese.py:278-307 | From any state the scan of printed files adds exactly their lines |
| DiffPrint.ReadingUndoesPrinting | scripts/check_added_chinese.py:253-307 | For any files and hunks, names plain or quoted, the parser returns exactly the added lines with their numbers and the removed lines per file, whatever the lines look like |
| Clip.EstimateIsMonotone | arslan/context_budget.py:36-40 | A longer prefix never costs less, and a character more at most one token more |
| Clip.EstimateCounts | arslan/context_budget.py:36-40 | A CJK character costs one token wherever it stands, four others one, fewer than four none |
| Clip.Clip | arslan/context_budget.py:43-56 | The binary search ends with the largest prefix that fits a positive budget, and with nothing for any other |
| Clip.LargestPrefixIsTight | arslan/context_budget.py:43-56 | That prefix is unique and uses the budget up whenever something was cut |
| Chunking.LastSentence | arslan/core/chunking.py:11-28 | The last sentence end in the window |
| Chunking.FindCutLoop | arslan/core/chunking.py:11-28 | The cut is after the last paragraph break of the window, or else at its last sentence end, or else at the full size; near the end of the text it is the end |
| Chunking.CutIsInWindow | arslan/core/chunking.py:11-28 | A cut lies past the start and no further than the size |
| Chunking.CutIsTheLastBreak | arslan/core/chunking.py:11-28 | Inside the text, the cut is at the last paragraph break of the window's last two fifths, or else the last sentence end there, or else at its end |
| Chunking.WindowsOverlap | arslan/core/chunking.py:41-51 | Each window is cut so, and the next starts the overlap before the cut, or one past the start where that is no progress |
| Chunking.ChunkLoop | arslan/core/chunking.py:31-51 | The loop ends for every size and overlap and gives the stripped windows |
| Chunking.ChunkText | arslan/core/chunking.py:31-51 | The whole function, short and empty texts included |
| Chunking.WindowsCover | arslan/core/chunking.py:31-51 | Consecutive windows leave no gap up to the end of the text |
| Chunking.ChunksHoldTheText | arslan/core/chunking.py:31-51 | Every chunk is a contiguous piece of at most `size` characters, and every character that is not white space is in some chunk |

## Left out

- HTTP, reading SSE lines, the idle limit and its timer: the stream models start from decoded lines.
- `to_legacy`, image payloads, the rendering of results: text, not state.
- `arslan/llm/gemini_stream.py`: the Claude assembler's argument with less state.
- `_walk`, `_note`, `_sorted` and the schema cache, and the sentences `_merge_top` adds to the description: words for the model, with no effect on what a schema accepts.
- Schemas whose `required` or `properties` is no list or object, where the original raises or takes a string apart.
- `tool_failure`, `exception_kind` and how an observation is hashed: an observation enters as its kind and digest.
- `context_events` and `history` in a snapshot: recorded and never read back into a decision.
- The rounding of floating-point seconds and dollars other than the snapshot's own: seconds and dollars are real numbers.
- Budget.SoftReachedIff: for a wrap-up point in whole numbers, as every tier is; a snapshot may restore a fraction.
- Snapshot.NextKeepsBooks: for reservations of a count that is not negative, since the program reserves lengths only.
- Snapshot.RunKeepsBooks: the same.
- Clocks.PauseAll: no two clocks of a stack share a timeout, since each is made for a timeout just entered.
- Clocks.ResumeAll: the same; clocks may share a budget.
- Clocks.ClocksKeepTime: one clock for each budget, as the program makes them; the two states of a timeout past its time are one.
- Within.RunKeeps: how `asyncio.timeout` and `shield` work inside is a step rule (a caller's stop beats the limit); the warning for work that will not end and the set of closing tasks are not modelled.
- ToolNames.ReplyThenHistory: calls only; the names on tool results and function responses are not modelled.
- DiffParse.ParseDiff: digits are ASCII; a number too short or not octal after a backslash counts as an error, as a malformed name does.
- Chunking.ChunksHoldTheText: says nothing of a size below one or a negative overlap, where the original skips or repeats text; `ChunkLoop` still ends there.
- ParamHeal.Send: the same loop over a streamed answer is not modelled, nor is how a reason is found in a response body.
- SchemaMerge.SameFieldLoosens: for shapes whose `enum` lists its values; an `enum` that is no list is not modelled.
- AnthropicStream.Assembler.Feed: block indices are integers; a frame without one is not modelled.
- OpenAiStream.StreamAssembler.TakeCall: indices are integers or missing; an index that is null is not modelled.
