# cosmix verification

A Dafny model of the state machines at the heart of five cosmix components, with proofs about every run of them.

- **Chord resolver and keymap** (`cosmix-actions`). `Input`, `Keymap`, `Resolver` hold the model, with the mutable
  `ResolveState` proved against value-level steps. `ResolverSteps` and `ResolverRuns` prove what one step and any run
  may do while focus and keymap change freely, `ResolverDuty` what they must do. `Accelerators`, `AcceleratorHints`, `KeymapOrder` and
  `KeymapDiagnostics` prove that the static analyses agree with the dynamic resolver. `Strings`, `InputText` and `RoundTrips` treat the written forms.
- **Single-flight fetch** (`cosmix-blobd`). `Fetch` is the table behind the lock and the tasks around it, stepped at
  lock and await boundaries; `FetchSafety` and `FetchRuns` prove admission, conservation and draining over every
  interleaving; `FetchChain` is the resolution chain with its fan-out, `FetchOutcomes` what it must report.
- **Adapter supervision** (`cosmix-dbusd`). `Backoffs`, `Registry`, `Lifecycles` are the schedule, the shared registry
  with its bounded event channel, and the restart loop cut at its await points; `EventRuns`, `SupervisorRuns`,
  `SupervisorLimits`, `LifecycleCommands` and `RestartRate` prove the event contract, the lifecycle accounts and their
  limits, what commands and failures must lead to, and the amortised restart bound.
- **Frontend caches over an edited text** (`cosmix-edit-client`). `Texts` has texts, lines and edits; `Highlight` and
  `HighlightRuns` the Mix highlight cache, `HighlightDuty` and `HighlightLines` what it must ask for and draw; `Diag`, `DiagSquiggles`, `DiagTruth`, `DiagSources`, `DiagRuns` and
  `DiagLines` the diagnostics list.
- **Byte lane** (`cosmix-blobd`). `Lane` and `LaneRuns` are the pump and the blocking reader, `Ranges` the range header
  (section 14.1.2 of RFC 9110), `NameHeader` the percent-encoded name.

`Seqs` and `Totals` hold shared facts about collections. `dafny verify dfyconfig.toml` checks the whole project.

## Findings

Four promises hold only under a condition. Each condition is proved to be exact, and each failure is exhibited:

- The `blob.has` fan-out equals filtering the roster iff no chunk of four peers names a peer twice
  (`FetchChain.FanOutIsFilterExactly`): the answers of a round are kept by name, so a repeated name takes one answer.
  `FetchChain.RepeatedNameDiffers` builds failing answers for every such roster.
- A surviving squiggle stays on its line iff it is not an empty mark at the end of a last line without newline when
  text is appended exactly there (`DiagTruth.SquiggleStaysExactly`): its start moves past the insertion, its line does
  not. `DiagRuns.SquiggleEscapes` is such a run. Likewise, an edit leaves whole every line it does not touch iff it is
  gentle (`DiagLines.LinesStayWholeExactly`).
- Event numbers are unique iff no more than 2^64 - 1 events were stamped (`SupervisorLimits.EventNumbersExactly`;
  `SupervisorLimits.EventNumbersRepeat` is a run past that).
- `restarts` is launches minus one iff fewer than 2^64 launches were made (`SupervisorLimits.RestartsExactly`): the
  launch counter wraps, so the 2^64-th launch and the next are not counted (`SupervisorLimits.RestartsFallShort`).

Where the code and its words differ, the model follows the code: the range unit is compared case-sensitively and numbers
beyond 64 bits make the header ignored, although RFC 9110 has the unit case-insensitive and such a first position
unsatisfiable.

## Model

| member | source | states |
|---|---|---|
| `Keymap.EffectiveMembers` | src/crates/cosmix-actions/src/keymap.rs:248-277 | layering, both directions: a default is effective iff it is listed and no override, not even an unbinding one, names its action and scope; an override iff it is listed and bound |
| `Keymap.CandidatesShrink` | src/crates/cosmix-actions/src/resolve.rs:395-452 | a longer prefix, or one with a repeated press in it, never means more than the shorter one did |
| `Input.MinimalContext` | src/crates/cosmix-actions/src/input.rs:661-669 | the smallest focus context of a scope admits it, and admits nothing else of equal or higher rank |
| `Resolver.EvaluatePrefix` | src/crates/cosmix-actions/src/resolve.rs:395-452 | the chain of filters finds exactly the candidate set, or reports an empty set; an ignored repeat only for repeats |
| `Resolver.FiltersAreCandidates` | src/crates/cosmix-actions/src/resolve.rs:395-452 | the successive filters together are the reference candidate set |
| `Resolver.TopBindings` | src/crates/cosmix-actions/src/resolve.rs:320-360 | the survivors are exactly the bindings that no other one outranks by scope, then layer |
| `Resolver.ScopeThenLayer` | src/crates/cosmix-actions/src/resolve.rs:324-341 | filtering by the highest scope and then the highest layer leaves exactly what nothing outranks |
| `Resolver.ResolveState.constructor` | src/crates/cosmix-actions/src/resolve.rs:13-42 | a new state is idle |
| `Resolver.ResolveState.Cancel` | src/crates/cosmix-actions/src/resolve.rs:36-42 | cancelling leaves the idle state |
| `Resolver.ResolveState.InvalidateStalePending` | src/crates/cosmix-actions/src/resolve.rs:529-553 | the in-place invalidation drops the prefix and reports the reason exactly as the value-level rule says |
| `Resolver.ResolveState.Timeout` | src/crates/cosmix-actions/src/resolve.rs:209-246 | the in-place poll is the value-level step, new state and answer |
| `Resolver.ResolveState.Stroke` | src/crates/cosmix-actions/src/resolve.rs:248-302 | the in-place stroke, with its fallback and one reprocessing, is the value-level step |
| `Resolver.ResolveState.Settled` | src/crates/cosmix-actions/src/resolve.rs:173-200 | the expiry-then-stroke part of `resolve` is the value-level step |
| `Resolver.ResolveState.Resolve` | src/crates/cosmix-actions/src/resolve.rs:148-201 | one key event on the mutable state is the value-level step, new state and answer |
| `ResolverSteps.CompletionVerdict` | src/crates/cosmix-actions/src/resolve.rs:320-360 | completing a chord gives no match, the sole winner, or one conflict naming every winner in id order, as the set of undominated candidates decides |
| `ResolverSteps.PendingIsShort` | src/crates/cosmix-actions/src/resolve.rs:351-358 | a pending prefix is under eight strokes and a valid chord, so the `expect` in completion never fires |
| `ResolverSteps.PollStep` | src/crates/cosmix-actions/src/resolve.rs:209-246 | a poll leaves idle alone, drops a stale prefix without firing, keeps a live one unchanged before its deadline, and after it gives the verdict on the held strokes |
| `ResolverSteps.PollFired` | src/crates/cosmix-actions/src/resolve.rs:209-246 | a poll emits at most one action, the sole winner of the held strokes, and then holds nothing |
| `ResolverSteps.LiveStroke` | src/crates/cosmix-actions/src/resolve.rs:248-302 | a stroke on a live prefix accounts for every action it emits and leaves a well-formed state |
| `ResolverSteps.PressStep` | src/crates/cosmix-actions/src/resolve.rs:148-302 | any key event: at most two actions, the fallback first, each the sole winner of the strokes it consumed; the next state is well formed |
| `ResolverRuns.NoReinterpretation` | src/crates/cosmix-actions/src/resolve.rs:209-318 | over every run, under arbitrary focus and keymap changes, each emitted action belongs to one binding that was effective, admitted and eligible at every press it consumed, each press in time, and that wins alone where it fires |
| `ResolverRuns.PressesAreUsedOnceInOrder` | src/crates/cosmix-actions/src/resolve.rs:128-302 | over every run no press contributes to two actions and actions follow press order |
| `ResolverRuns.ReachableStatesAreWellFormed` | src/crates/cosmix-actions/src/resolve.rs:13-42 | in every reachable state prefix, deadline and stamp are all present or all absent, and the prefix is a proper prefix of a stamped candidate |
| `ResolverRuns.PendingSurvivesExactly` | src/crates/cosmix-actions/src/resolve.rs:209-246 | after any run, a poll before the deadline answers the same `Pending` and changes nothing iff timeout and candidate sets are as stamped; otherwise it drops the prefix with one issue and no action |
| `ResolverRuns.IrrelevantChangesKeepPending` | src/crates/cosmix-actions/src/resolve.rs:497-553 | reordering bindings, or a focus change that admits the same bindings, never drops a prefix |
| `ResolverDuty.EvaluatedExactly` | src/crates/cosmix-actions/src/resolve.rs:395-452 | the filters find the candidates, or the reason why there are none: nothing admitted (and whether a modal took it), nothing allowed while editing, or nothing that repeats |
| `ResolverDuty.PressMeaning` | src/crates/cosmix-actions/src/resolve.rs:148-302 | every key event from every reachable kind of state: next state, actions, outcome, deadline and issues, said of candidates and winners alone |
| `ResolverDuty.PollMeaning` | src/crates/cosmix-actions/src/resolve.rs:209-246 | every poll likewise, with the reason when a prefix is dropped |
| `ResolverDuty.LatePressIsPollThenPress` | src/crates/cosmix-actions/src/resolve.rs:173-200 | a press past the deadline is a poll and then the same press with nothing held, in state, actions, outcome and issues |
| `ResolverDuty.MismatchDecides` | src/crates/cosmix-actions/src/resolve.rs:265-290 | a press that no binding can take along is the decision of the held strokes and then the same press with nothing held |
| `ResolverDuty.HeldPrefixIsDecided` | src/crates/cosmix-actions/src/resolve.rs:148-302 | over every run, a live held prefix with one winner is emitted, for exactly its presses, by the first poll or press past its deadline and by the first press in time that cannot extend it |
| `ResolverDuty.CompletedChordFires` | src/crates/cosmix-actions/src/resolve.rs:248-302 | over every run, a press in time that completes the held strokes emits their sole winner for exactly those presses |
| `ResolverDuty.WinnersObeyFocus` | src/crates/cosmix-actions/src/input.rs:661-669 | a modal takes everything and only its own, without one only globals and present tags fire, a tag beats a global, and editing and repeating need leave |
| `Accelerators.GlobalWinnersResolve` | src/crates/cosmix-actions/src/keymap.rs:279-293 | the static winners of a globally bound chord are the dynamic winners in the global context |
| `Accelerators.PrefixesWait` | src/crates/cosmix-actions/src/resolve.rs:248-302 | every proper prefix of a globally bound chord, pressed in time, waits and emits nothing |
| `Accelerators.LastStrokeDecides` | src/crates/cosmix-actions/src/resolve.rs:148-302 | the last stroke decides the chord at once or leaves it to the next poll past the deadline |
| `Accelerators.AcceleratorRuns` | src/crates/cosmix-actions/src/keymap.rs:145-150 | pressing the advertised chord emits nothing on the way and exactly the action at its end, whatever longer chords share the prefix |
| `Accelerators.AcceleratorExists` | src/crates/cosmix-actions/src/keymap.rs:139-150 | a chord is advertised iff some global binding of the action is the sole winner of its chord |
| `Accelerators.AcceleratorIsFirst` | src/crates/cosmix-actions/src/keymap.rs:145-150 | the advertised chord is that of the first effective binding that would do |
| `Accelerators.ChordCanBePressed` | src/crates/cosmix-actions/src/keymap.rs:94-101 | with the positive timeout a valid keymap has, every chord can be pressed in time, so the accelerator theorems apply |
| `Accelerators.TypingTheAcceleratorRunsIt` | src/crates/cosmix-actions/src/keymap.rs:139-150 | typing the advertised chord runs exactly the action, at once or at the poll past the pending deadline |
| `AcceleratorHints.HintRuns` | src/crates/cosmix-actions/src/keymap.rs:139-150 | the hint as text parses, and pressing what it says runs exactly the action |
| `KeymapDiagnostics.Diagnostics` | src/crates/cosmix-actions/src/keymap.rs:162-246 | the report holds exactly the replaced defaults, conflicts and shadowed actions, each once, in the order of the sorted maps it walks |
| `KeymapDiagnostics.ReportGroup` | src/crates/cosmix-actions/src/keymap.rs:194-244 | one exact group reports its conflict first, then its shadowed actions in id order, and nothing else |
| `KeymapDiagnostics.ReportReplaced` | src/crates/cosmix-actions/src/keymap.rs:163-185 | exactly the (action, scope) pairs with both a default and an override are reported, in their order, with whether they end unbound |
| `KeymapDiagnostics.ExactGroups` | src/crates/cosmix-actions/src/keymap.rs:187-193 | the grouping holds every bound (chord, scope) with exactly its bindings, in order |
| `KeymapDiagnostics.ReportIsDetermined` | src/crates/cosmix-actions/src/keymap.rs:162-246 | what is reported and its order leave one possible report |
| `KeymapDiagnostics.ReplacedExactly` | src/crates/cosmix-actions/src/keymap.rs:163-185 | a replacement is reported iff the action has a default there and none of its defaults is effective there; it is unbound iff nothing is |
| `KeymapOrder.ChordOrderByStroke` | src/crates/cosmix-actions/src/input.rs:334-336 | the order of chords is the derived one: stroke by stroke, a chord before its extensions |
| `KeymapOrder.ScopeOrderByKind` | src/crates/cosmix-actions/src/input.rs:460-470 | scopes compare by kind, global before modal before focus tag, then by name |
| `KeymapOrder.PairOrder` | src/crates/cosmix-actions/src/keymap.rs:187-194 | the order of pairs is first component, then second |
| `KeymapOrder.ChordCodeInjective` | src/crates/cosmix-actions/src/input.rs:334-336 | different chords compare as different |
| `KeymapOrder.ScopeCodeInjective` | src/crates/cosmix-actions/src/input.rs:460-470 | different scopes compare as different |
| `KeymapDiagnostics.ShadowedNeverTop` | src/crates/cosmix-actions/src/keymap.rs:317-330 | sound: a shadowed binding is never top-ranked, in any context |
| `KeymapDiagnostics.UncoveredCanWin` | src/crates/cosmix-actions/src/keymap.rs:317-330 | complete: an uncovered lower binding is top-ranked in some context, a valid one if its scope is |
| `KeymapDiagnostics.ShadowedIsExact` | src/crates/cosmix-actions/src/keymap.rs:218-243 | `Shadowed` is reported iff no focus context and repeat flag ever puts one of the action's bindings there among the top-ranked; for valid scopes the valid contexts decide |
| `KeymapDiagnostics.ConflictIsExact` | src/crates/cosmix-actions/src/keymap.rs:200-217 | `Conflict` is reported iff completing the chord in the scope's minimal context is a conflict of exactly those actions |
| `InputText.ReadModifiers` | src/crates/cosmix-actions/src/input.rs:295-309 | the loop that sets the four slots folds the modifier rule over the names |
| `RoundTrips.ModifiersAcceptedExactly` | src/crates/cosmix-actions/src/input.rs:295-309 | modifier names are accepted iff each is known and no two denote the same flag, in any order and spelling; exactly the denoted flags are then set |
| `RoundTrips.ModifierErrorIsFirst` | src/crates/cosmix-actions/src/input.rs:295-309 | the error names the first unknown or repeated modifier |
| `RoundTrips.KeyRoundTrip` | src/crates/cosmix-actions/src/input.rs:127-214 | parsing the printed form of every valid key gives it back |
| `RoundTrips.ParsedKeyIsValid` | src/crates/cosmix-actions/src/input.rs:162-214 | whatever parses as a key is valid, so the later validation never fails |
| `RoundTrips.KeyCaseInsensitive` | src/crates/cosmix-actions/src/input.rs:162-214 | letter case never matters in a key name |
| `RoundTrips.AliasParses` | src/crates/cosmix-actions/src/input.rs:174-202 | each alias, in any letter case, parses as the printed name of its key |
| `RoundTrips.ModifierAlias` | src/crates/cosmix-actions/src/input.rs:297-303 | each modifier alias denotes its flag in any letter case |
| `RoundTrips.ModifiersRoundTrip` | src/crates/cosmix-actions/src/input.rs:266-311 | the printed modifiers parse back to the same four flags |
| `RoundTrips.StrokeRoundTrip` | src/crates/cosmix-actions/src/input.rs:266-311 | parsing the printed form of every valid stroke gives it back |
| `RoundTrips.ChordRoundTrip` | src/crates/cosmix-actions/src/input.rs:389-412 | parsing the displayed form of every valid chord gives back the chord |
| `RoundTrips.ParsePrintParseChord` | src/crates/cosmix-actions/src/input.rs:389-412 | whatever a chord was parsed from, it is valid, and printing and parsing it again changes nothing |
| `RoundTrips.StrokeRefused` | src/crates/cosmix-actions/src/input.rs:284-311 | a stroke is refused for a blank key first, then for its modifiers, then for its key |
| `RoundTrips.ChordRefused` | src/crates/cosmix-actions/src/input.rs:401-412 | a chord is refused for its first bad stroke, or else for having more than eight |
| `RoundTrips.ScopeRoundTrip` | src/crates/cosmix-actions/src/input.rs:503-534 | parsing the printed form of every valid scope gives it back |
| `RoundTrips.ParsePrintParseScope` | src/crates/cosmix-actions/src/input.rs:503-534 | a scope parses only from its own printed form, and is valid |
| `RoundTrips.ScopeRefused` | src/crates/cosmix-actions/src/input.rs:513-534 | a scope of a known kind is refused for its name, anything else as unknown |
| `Fetch.FetchTable.constructor` | src/crates/cosmix-blobd/src/fetch.rs:542-561 | an empty table with every permit free |
| `Fetch.FetchTable.Submit` | src/crates/cosmix-blobd/src/fetch.rs:678-718 | joining, starting with a permit, queueing or refusing as busy: table, outcome and permit taken |
| `Fetch.FetchTable.TakePermit` | src/crates/cosmix-blobd/src/fetch.rs:765-779 | the task takes the permit out of its entry, or finds none |
| `Fetch.FetchTable.Promote` | src/crates/cosmix-blobd/src/fetch.rs:780-794 | a queued entry is promoted and counted once it holds a permit |
| `Fetch.FetchTable.Finish` | src/crates/cosmix-blobd/src/fetch.rs:806-816 | the entry goes, the gauge drops and the permit returns together |
| `FetchSafety.StepSafe` | src/crates/cosmix-blobd/src/fetch.rs:678-819 | every step of every task keeps the admission invariant: one carrier per entry, phases that fit their entry, permits conserved, gauge and queue exact |
| `FetchRuns.PermitsOfNonQueued` | src/crates/cosmix-blobd/src/fetch.rs:542-561 | each non-queued entry owns a permit of its own |
| `FetchRuns.RunningIsBounded` | src/crates/cosmix-blobd/src/fetch.rs:552-561 | the gauge never exceeds the permits held, so never the configured bound |
| `FetchRuns.DefensiveReturnsUnreachable` | src/crates/cosmix-blobd/src/fetch.rs:765-812 | the early returns of `run_fetch` cannot be reached and the saturating subtraction never saturates |
| `FetchRuns.AdmissionSafety` | src/crates/cosmix-blobd/src/fetch.rs:678-819 | after every interleaving: `running` is the number of non-queued entries and at most `max_concurrent`, and queued entries are at most `queue_max` |
| `FetchRuns.SubmitExactly` | src/crates/cosmix-blobd/src/fetch.rs:678-718 | in every reachable state a submit joins iff the hash is in flight, starts iff it is not and a permit is free, is refused iff also exactly `queue_max` wait, and queues otherwise; an accepted owner is recorded last, a refused one not at all |
| `FetchRuns.RunConserved` | src/crates/cosmix-blobd/src/fetch.rs:684-717 | over every run the accepted owners are, as a multiset, those in entries, those in completions being published and those delivered |
| `FetchRuns.StepUsesWork` | src/crates/cosmix-blobd/src/fetch.rs:761-819 | every step other than a submit lowers a phase measure |
| `FetchRuns.StuckIsDrained` | src/crates/cosmix-blobd/src/fetch.rs:761-819 | with a slot at all, a state with no step left has no entry, no task, a zero gauge, all permits free and everything delivered |
| `FetchRuns.FetchesDrain` | src/crates/cosmix-blobd/src/fetch.rs:761-819 | after any run, a run without submits is no longer than the measure and, if maximal, ends drained with each accepted owner delivered exactly once |
| `FetchChain.FanOut` | src/crates/cosmix-blobd/src/fetch.rs:865-891 | the chunked, out-of-order fan-out computes its holders and whether anyone answered no |
| `FetchChain.FanOutIsFilter` | src/crates/cosmix-blobd/src/fetch.rs:865-891 | with no name twice in a round, the holders are the roster filtered by the answers, in roster order, whatever the arrival order |
| `FetchChain.FanOutIsFilterExactly` | src/crates/cosmix-blobd/src/fetch.rs:865-891 | that holds for all answers and arrival orders iff no round of four asks a name twice |
| `FetchChain.RepeatedNameDiffers` | src/crates/cosmix-blobd/src/fetch.rs:878-890 | a name twice in a round has answers and an arrival order for which the holders differ from the filtered roster |
| `FetchChain.TryHolders` | src/crates/cosmix-blobd/src/fetch.rs:893-916 | the holder loop tries the resolvable holders in order, cut at the first terminal outcome, and records what failed |
| `FetchChain.TrySources` | src/crates/cosmix-blobd/src/fetch.rs:836-942 | the sources tried are origin then holders cut at the first terminal outcome; exhaustion is io, else unreachable by deadline, else not found, else unreachable |
| `FetchChain.Execute` | src/crates/cosmix-blobd/src/fetch.rs:823-942 | the whole chain over the fan-out; nothing is tried when the blob is already here |
| `FetchChain.VerifyIsFinal` | src/crates/cosmix-blobd/src/fetch.rs:1278-1286 | a verify failure can only be the last thing tried, and decides the outcome |
| `FetchOutcomes.TriedExactly` | src/crates/cosmix-blobd/src/fetch.rs:836-916 | the sources tried are the plan up to the first that is fetched, fails to verify, is over quota or fails locally, or all of it |
| `FetchOutcomes.AttemptExactly` | src/crates/cosmix-blobd/src/fetch.rs:836-942 | each way an attempt can end, success with its node included, iff its own condition on the plan |
| `FetchOutcomes.OriginFirst` | src/crates/cosmix-blobd/src/fetch.rs:840-863 | a given origin that resolves is tried first, and if it has the blob the fetch succeeds from there alone |
| `FetchOutcomes.HoldersInOrder` | src/crates/cosmix-blobd/src/fetch.rs:893-916 | the planned holders are the resolvable ones, each behind exactly the resolvable ones named before it |
| `FetchOutcomes.RoundsAreFours` | src/crates/cosmix-blobd/src/fetch.rs:868-877 | at most four peers are asked at a time, and a name is asked twice in a round iff it stands twice in the same four places |
| `Texts.LineOf` | src/crates/cosmix-edit-client/src/model.rs:612-623 | bisecting the line index counts the newlines before an offset |
| `Texts.EditsKeepPrefix` | src/crates/cosmix-edit-client/src/highlight.rs:218-242 | a prefix that no step of a delta reaches into survives all of them |
| `Texts.SharedLine` | src/crates/cosmix-edit-client/src/highlight.rs:353-371 | texts that agree on a prefix holding a line give it the same range and the same bytes through its end |
| `Highlight.MinOffset` | src/crates/cosmix-edit-client/src/highlight.rs:218-242 | the smallest step offset of a delta |
| `Highlight.PartitionPoint` | src/crates/cosmix-edit-client/src/highlight.rs:353-371 | bisection splits ordered spans at the start of the line, and finds some position in any others |
| `Highlight.ClipLine` | src/crates/cosmix-edit-client/src/highlight.rs:353-371 | the search and the early stop take a stretch of the spans, cut to the line; of ordered spans, every visible part that meets it |
| `Highlight.HighlightCache.constructor` | src/crates/cosmix-edit-client/src/highlight.rs:194-204 | a new cache is empty |
| `Highlight.HighlightCache.LogTouch` | src/crates/cosmix-edit-client/src/highlight.rs:236-241 | a touch is logged and the oldest dropped beyond the bound, raising the floor to it |
| `Highlight.HighlightCache.ApplyDelta` | src/crates/cosmix-edit-client/src/highlight.rs:218-242 | a delta keeps the cached lines before the first touched one, narrows the result and logs the touch |
| `Highlight.HighlightCache.MixRequest` | src/crates/cosmix-edit-client/src/highlight.rs:279-305 | whether a relex is due, and the new state, as the value-level rule says |
| `Highlight.HighlightCache.MixResult` | src/crates/cosmix-edit-client/src/highlight.rs:309-327 | a late result is dropped or installed with the lines no later delta touched |
| `Highlight.HighlightCache.Spans` | src/crates/cosmix-edit-client/src/highlight.rs:246-253 | a line is answered from the cache or filled from the result; nothing is drawn otherwise |
| `HighlightRuns.UntouchedDropFirst` | src/crates/cosmix-edit-client/src/highlight.rs:236-241 | trimming the log to its floor loses nothing for results at or above it |
| `HighlightRuns.RunTruthful` | src/crates/cosmix-edit-client/src/highlight.rs:218-327 | deltas, requests, late results and drawing keep: log, result and cached lines are true of the current text |
| `HighlightRuns.DrawnLinesAreTruthful` | src/crates/cosmix-edit-client/src/highlight.rs:353-371 | after any run, a drawn line shows the tokens of the result of some generation g of the source last asked for, never of another, and the text through its end is byte for byte what it was at g |
| `HighlightRuns.RequestedOnce` | src/crates/cosmix-edit-client/src/highlight.rs:279-305 | asking again before anything else happens is not due and changes nothing |
| `HighlightRuns.ResultSettles` | src/crates/cosmix-edit-client/src/highlight.rs:279-327 | a result for the current text settles its request and makes every line drawable |
| `HighlightDuty.RequestDueExactly` | src/crates/cosmix-edit-client/src/highlight.rs:279-305 | over every run, a relex is due iff the text can be relexed, no result for its generation stands on every line, and it has not been asked for since its last answer |
| `HighlightDuty.AskedIsOutstanding` | src/crates/cosmix-edit-client/src/highlight.rs:279-327 | the cache remembers exactly what was asked for and not yet answered, superseded or abandoned |
| `HighlightDuty.ChangedTextIsDue` | src/crates/cosmix-edit-client/src/highlight.rs:279-305 | after any run of timely requests, a text that has just changed is due |
| `HighlightDuty.AskedOnlyOnce` | src/crates/cosmix-edit-client/src/highlight.rs:279-305 | after a request that was due, none for the same tag is due until it is answered |
| `HighlightDuty.TooLargeIsNotDrawn` | src/crates/cosmix-edit-client/src/highlight.rs:294-298 | a text over the limit is neither relexed nor drawn |
| `HighlightLines.TouchedExactly` | src/crates/cosmix-edit-client/src/highlight.rs:218-228 | a line lies before the first touched one iff its newline lies before every step of the delta |
| `HighlightLines.DeltaNarrowsExactly` | src/crates/cosmix-edit-client/src/highlight.rs:229-235 | a delta leaves trusted and cached exactly what lies before the first touched line |
| `HighlightLines.ResultTakenExactly` | src/crates/cosmix-edit-client/src/highlight.rs:309-327 | a result is installed iff it is of the served source, no older than the held one and within reach of the log; otherwise nothing drawn changes |
| `HighlightLines.TrustedExactly` | src/crates/cosmix-edit-client/src/highlight.rs:309-327 | over every run, a result that is taken is trusted for exactly the lines no delta after its generation touched |
| `HighlightLines.ResultsNeverGoBack` | src/crates/cosmix-edit-client/src/highlight.rs:317-319 | a held result is only ever replaced by one as new |
| `HighlightLines.AskDrawsExactly` | src/crates/cosmix-edit-client/src/highlight.rs:353-371 | over every run, asking for a line draws it iff the result is trusted for it and the text has it |
| `HighlightLines.ClipPaintsExactly` | src/crates/cosmix-edit-client/src/highlight.rs:362-370 | a position is painted iff it lies on the line and some token there has that class, other than plain |
| `HighlightLines.InsertKeepsExactly` | src/crates/cosmix-edit-client/src/highlight.rs:420-426 | a full cache keeps exactly the lines around the new one, any other all |
| `HighlightLines.CacheIsBounded` | src/crates/cosmix-edit-client/src/highlight.rs:420-426 | over every run the cache stays within its bound |
| `Diag.Diagnostics.constructor` | src/crates/cosmix-edit-client/src/diag.rs:73-81 | a new list is empty |
| `Diag.Diagnostics.ApplyEdit` | src/crates/cosmix-edit-client/src/diag.rs:214-225 | one edit keeps exactly the untouched items, in order, moved |
| `Diag.Diagnostics.ApplyDelta` | src/crates/cosmix-edit-client/src/diag.rs:208-226 | a delta applies its edits in turn; a resync clears everything |
| `Diag.Diagnostics.Gather` | src/crates/cosmix-edit-client/src/diag.rs:171-188 | a new set is located in its own text, squiggles included, then mapped through the deltas that followed |
| `Diag.Diagnostics.KeepOthers` | src/crates/cosmix-edit-client/src/diag.rs:194-198 | the filter keeps every item of another source, in order |
| `Diag.Diagnostics.FindSlot` | src/crates/cosmix-edit-client/src/diag.rs:189-193 | the slot of a source: the front for lint, its first item, or the end |
| `Diag.Diagnostics.Replace` | src/crates/cosmix-edit-client/src/diag.rs:170-205 | the new set takes the slot of the old one |
| `Diag.Diagnostics.AcceptItems` | src/crates/cosmix-edit-client/src/diag.rs:153-165 | a stale tag changes nothing; otherwise the set is replaced |
| `Diag.SlotSurvives` | src/crates/cosmix-edit-client/src/diag.rs:199-202 | removing the old set does not move its slot |
| `DiagSquiggles.SquiggleWithoutColumn` | src/crates/cosmix-edit-client/src/diag.rs:251-256 | without a column the squiggle runs from the first character that is not whitespace to the end of the content |
| `DiagSquiggles.SquiggleAtColumn` | src/crates/cosmix-edit-client/src/diag.rs:257-265 | with a column it covers the word at that character, or that one character; it is empty iff the column lies past the content |
| `DiagTruth.UntouchedMoves` | src/crates/cosmix-edit-client/src/diag.rs:273-286 | an edit that does not touch a covered range moves it onto identical bytes |
| `DiagTruth.TouchesExactly` | src/crates/cosmix-edit-client/src/diag.rs:269-278 | an edit touches a line iff it deletes a byte of it, inserts inside it, or inserts at its start anything but whole lines |
| `DiagTruth.SquiggleStaysExactly` | src/crates/cosmix-edit-client/src/diag.rs:273-286 | a surviving squiggle keeps its place on its line iff it is not an empty mark at the end of an unterminated line with text appended there; in that case it leaves the line |
| `DiagTruth.SurvivorsExactly` | src/crates/cosmix-edit-client/src/diag.rs:214-225 | an edit keeps exactly the untouched markers |
| `DiagTruth.LocateIsLine` | src/crates/cosmix-edit-client/src/diag.rs:247-250 | locating finds exactly the lines of the line index and covers the line with its newline |
| `DiagTruth.LocatedHold` | src/crates/cosmix-edit-client/src/diag.rs:247-267 | a located item covers its whole line and its squiggle lies on it |
| `DiagTruth.LocatedAllOf` | src/crates/cosmix-edit-client/src/diag.rs:171-185 | every item on a line the text has gets one marker, in order, that says what was found |
| `DiagTruth.EditsHold` | src/crates/cosmix-edit-client/src/diag.rs:214-225 | any sequence of edits leaves each survivor on identical bytes, the same finding, and in place if it was anchored |
| `DiagTruth.DeltasHold` | src/crates/cosmix-edit-client/src/diag.rs:208-226 | the same over any sequence of deltas and resyncs |
| `DiagSources.ReplaceKeepsOthers` | src/crates/cosmix-edit-client/src/diag.rs:170-205 | replacing one source's set leaves every other item, with its ranges and order, and the source holds exactly the new set |
| `DiagSources.ReplaceKeepsGroups` | src/crates/cosmix-edit-client/src/diag.rs:170-205 | replacing keeps each source contiguous and lint first |
| `DiagSources.DeltasThin` | src/crates/cosmix-edit-client/src/diag.rs:208-226 | deltas only remove items, never reorder or relabel them |
| `DiagRuns.RunTruthful` | src/crates/cosmix-edit-client/src/diag.rs:170-226 | every interleaving of deltas and late sets keeps the list truthful and grouped |
| `DiagRuns.StoredExactly` | src/crates/cosmix-edit-client/src/diag.rs:233-241 | a set is stored iff it is of this view, language and configuration and not of the future; then its source holds exactly it and the others what they held |
| `DiagRuns.ShownDiagnosticsAreTruthful` | src/crates/cosmix-edit-client/src/diag.rs:1-17 | after any run every shown diagnostic covers, byte for byte, the whole line it was reported on in some text of the run; sources are contiguous and lint is first |
| `DiagRuns.SquiggleEscapes` | src/crates/cosmix-edit-client/src/diag.rs:280-286 | a run, from `locate` to an accepted set to an append, after which the mark stands outside its line |
| `DiagLines.WholeLinesAreIndexed` | src/crates/cosmix-edit-client/src/diag.rs:247-250 | a range is a whole line iff the line index has it |
| `DiagLines.LineStaysWholeExactly` | src/crates/cosmix-edit-client/src/diag.rs:269-286 | an untouched covered line is still a whole line after an edit iff the edit neither joins it to what comes before nor appends to it unterminated |
| `DiagLines.LinesStayWholeExactly` | src/crates/cosmix-edit-client/src/diag.rs:269-286 | an edit leaves whole every line it does not touch iff it is gentle, a condition on the edit and the text alone |
| `DiagLines.ShownLinesAreWhole` | src/crates/cosmix-edit-client/src/diag.rs:13-17 | after any run of gentle deltas every shown diagnostic covers a whole line of the text it is shown on |
| `DiagLines.ShownLineIsWholeExactly` | src/crates/cosmix-edit-client/src/diag.rs:13-17 | after any run at all it does iff a line starts where it starts and it ends in a newline or with the text |
| `Backoffs.DelayIsScheduled` | src/crates/cosmix-dbusd/src/backoff.rs:53-66 | the doubling with its cap is the documented schedule 1, 2, 4, 8, 16, 32, 60 seconds |
| `Backoffs.DelayGrows` | src/crates/cosmix-dbusd/src/backoff.rs:16-23 | delays never shrink within an escalation and stay between one second and the ceiling |
| `Backoffs.Shortfall` | src/crates/cosmix-dbusd/src/backoff.rs:53-66 | the first f delays fall short of 60 f seconds by at most 297, and by exactly 297 from six on |
| `Backoffs.Backoff.RecordFailureAfterHealthy` | src/crates/cosmix-dbusd/src/backoff.rs:39-46 | five healthy minutes reset the count before the failure is counted, saturating |
| `Backoffs.Backoff.NextDelay` | src/crates/cosmix-dbusd/src/backoff.rs:53-66 | the wait is the scheduled one |
| `LifecycleCommands.FailureWaits` | src/crates/cosmix-dbusd/src/backoff.rs:39-66 | a failed run waits one second after five healthy minutes, and otherwise the next step of the schedule |
| `RestartRate.AmortisedRestarts` | src/crates/cosmix-dbusd/src/supervisor.rs:363-404 | in every command-free run the launch after the n-th failure comes at least 60 n - 297 seconds after the first launch, healthy resets included |
| `RestartRate.BoundIsTight` | src/crates/cosmix-dbusd/src/backoff.rs:53-66 | from six failures on some run attains the bound exactly |
| `RestartRate.CommandedRelaunchStartsOver` | src/crates/cosmix-dbusd/src/supervisor.rs:255-264 | a relaunch by command is immediate and its next failure waits one second |
| `Registry.RegistryState.Transition` | src/crates/cosmix-dbusd/src/supervisor.rs:493-545 | the transition under the lock: row, sequence number and enqueue or drop, or nothing when nothing observable changes |
| `Registry.RegistryState.Receive` | src/crates/cosmix-dbusd/src/state.rs:65-78 | the publisher takes the oldest event |
| `EventRuns.RegistryIsReplay` | src/crates/cosmix-dbusd/src/state.rs:67-90 | in every interleaving the n stamped events carry 1, 2, ... n, and the registry is their replay |
| `EventRuns.GapsAreDrops` | src/crates/cosmix-dbusd/src/state.rs:73-78 | events leave the channel in strictly increasing order, and a number the receiver passed without seeing is exactly one the full backlog dropped |
| `EventRuns.StampsAreUniqueUntilSaturation` | src/crates/cosmix-dbusd/src/supervisor.rs:527-528 | stamped numbers are all different iff no more than 2^64 - 1 events were stamped |
| `SupervisorLimits.EventNumbersExactly` | src/crates/cosmix-dbusd/src/supervisor.rs:527-528 | the same for every run of the supervisor |
| `SupervisorLimits.EventNumbersRepeat` | src/crates/cosmix-dbusd/src/supervisor.rs:527-528 | a run of the supervisor in which two events carry the same number |
| `SupervisorLimits.AnyNumberOfLaunches` | src/crates/cosmix-dbusd/src/supervisor.rs:363-404 | an enabled adapter can be launched any number of times, each failure stamping an event |
| `SupervisorLimits.RestartsExactly` | src/crates/cosmix-dbusd/src/supervisor.rs:270-280 | at every await point of every run `restarts` is the launches after the first iff fewer than 2^64 launches were made |
| `SupervisorLimits.RestartsFallShort` | src/crates/cosmix-dbusd/src/supervisor.rs:270-280 | a run of 2^64 launches after which one restart is missing |
| `EventRuns.NoGapMeansCaughtUp` | src/crates/cosmix-dbusd/src/supervisor.rs:115-120 | a receiver that saw as many events as the counter says holds the registry |
| `EventRuns.PreviousIsPreceding` | src/crates/cosmix-dbusd/src/state.rs:71-72 | in every interleaving the previous state an event reports is that of the adapter's preceding event or initial row |
| `EventRuns.StampedAndDroppedExactly` | src/crates/cosmix-dbusd/src/supervisor.rs:508-536 | a transition is stamped iff it changes the state, sets the error or counts a relaunch, and dropped iff sixty-four delivered events wait |
| `EventRuns.ReceiveTakesNext` | src/crates/cosmix-dbusd/src/state.rs:65-78 | a receive takes the oldest delivered event not yet taken |
| `Lifecycles.Lifecycle.constructor` | src/crates/cosmix-dbusd/src/supervisor.rs:204-224 | a lifecycle starts with no launch, no failure and its configured flag |
| `Lifecycles.Lifecycle.Continue` | src/crates/cosmix-dbusd/src/supervisor.rs:226-280 | the top of the loop parks a disabled adapter, as stuck or disabled, and launches an enabled one |
| `Lifecycles.Lifecycle.FinishStop` | src/crates/cosmix-dbusd/src/supervisor.rs:315-351 | what follows a stopped or given-up run, by the command that stopped it |
| `Lifecycles.Lifecycle.HandleLaunched` | src/crates/cosmix-dbusd/src/supervisor.rs:309-374 | what each event does to a launched run |
| `Lifecycles.Lifecycle.Handle` | src/crates/cosmix-dbusd/src/supervisor.rs:204-409 | one wake-up of the mutable lifecycle and the shared registry is the value-level step and its transitions |
| `SupervisorRuns.LoopTopBalances` | src/crates/cosmix-dbusd/src/supervisor.rs:226-280 | parking and launching keep one adapter's books |
| `SupervisorRuns.StopBalances` | src/crates/cosmix-dbusd/src/supervisor.rs:315-351 | stopping, or giving up on, a run keeps the books |
| `SupervisorRuns.WakeBalances` | src/crates/cosmix-dbusd/src/supervisor.rs:204-409 | every wake-up keeps the books |
| `SupervisorRuns.WriteKept` | src/crates/cosmix-dbusd/src/supervisor.rs:493-545 | each transition, written on its own, keeps the books and never lowers a count |
| `SupervisorRuns.RunSound` | src/crates/cosmix-dbusd/src/supervisor.rs:204-449 | every interleaving of single transitions, wake-ups and publications keeps every adapter's books and the event accounts |
| `SupervisorRuns.LifecycleAccounting` | src/crates/cosmix-dbusd/src/supervisor.rs:204-449 | at every moment at most one undetached run, no error while running and one in backoff or stuck; with nothing left to write, restarts and leaked runs exact in closed form and the published state agreeing with the phase |
| `SupervisorRuns.CountsNeverFall` | src/crates/cosmix-dbusd/src/state.rs:48-57 | leaked runs and restarts never fall |
| `SupervisorRuns.OnlyShutdownEnds` | src/crates/cosmix-dbusd/src/supervisor.rs:200-204 | failure is contained: a lifecycle ends only by shutdown or a closed control channel |
| `LifecycleCommands.CommandsToLaunched` | src/crates/cosmix-dbusd/src/supervisor.rs:324-352 | on a launched run restart and disable begin to stop it, enable leaves it alone |
| `LifecycleCommands.CommandsToIdle` | src/crates/cosmix-dbusd/src/supervisor.rs:255-264 | while it waits or is parked restart and enable launch at once and disable parks |
| `LifecycleCommands.StopEnds` | src/crates/cosmix-dbusd/src/supervisor.rs:315-351 | a stopped run is followed by a launch if the adapter is wanted, by parking if not, by the end if it is leaving |
| `LifecycleCommands.WantedIsLastOrder` | src/crates/cosmix-dbusd/src/supervisor.rs:204-409 | over every run an adapter is to run iff the last command it heard was to enable or restart it, or it heard none and was so configured |
| `LifecycleCommands.PhaseObeysLastOrder` | src/crates/cosmix-dbusd/src/supervisor.rs:204-409 | over every run a launched, waiting or relaunching adapter was last ordered to run, a parked or parking one not to |
| `LifecycleCommands.LaunchesAreOrdered` | src/crates/cosmix-dbusd/src/supervisor.rs:270-280 | over every run no launch follows a disable without a later enable or restart |
| `LifecycleCommands.CommandIsCarriedOut` | src/crates/cosmix-dbusd/src/supervisor.rs:333-351 | after restart or disable to a launched run, whatever else happens, the next wake-up ends that run and launches the adapter again or parks it |
| `LifecycleCommands.ShutdownIsFinal` | src/crates/cosmix-dbusd/src/supervisor.rs:315-331 | after a shutdown or a closed channel the adapter is never launched again, and its next wake-up ends it |
| `LifecycleCommands.WaitEnds` | src/crates/cosmix-dbusd/src/supervisor.rs:375-404 | an adapter whose wait is over is launched |
| `LifecycleCommands.FalseAlarm` | src/crates/cosmix-dbusd/src/supervisor.rs:375-385 | a shutdown signal that is not one only makes a waiting lifecycle look at the clock |
| `LifecycleCommands.ShownErrorIsLast` | src/crates/cosmix-dbusd/src/supervisor.rs:363-373 | over every run the shown error is that of the last failed run, or that the last run is stuck, and none once a later run came up |
| `Lane.PumpBody` | src/crates/cosmix-blobd/src/lane.rs:673-730 | the pump sends exactly the specified frames, as far as the reader takes them |
| `Lane.ChannelReader.constructor` | src/crates/cosmix-blobd/src/lane.rs:444-460 | a new reader has read nothing |
| `Lane.ChannelReader.Read` | src/crates/cosmix-blobd/src/lane.rs:462-493 | a read fills the front of the buffer with the specified bytes, leaves the rest, and moves the reader on |
| `LaneRuns.OutputIsPrefix` | src/crates/cosmix-blobd/src/lane.rs:462-493 | for any frames and any buffer sizes the output is a prefix of the concatenated data frames |
| `LaneRuns.PumpMarksWholeBody` | src/crates/cosmix-blobd/src/lane.rs:673-730 | the pump marks the end iff the body ended cleanly within the cap, and then after all of it and last |
| `LaneRuns.PumpFailsExactly` | src/crates/cosmix-blobd/src/lane.rs:683-725 | unless it marks the end, the pump fails the stream over the cap iff the body is, and otherwise as the body does |
| `LaneRuns.CleanEofMeansExactBody` | src/crates/cosmix-blobd/src/lane.rs:435-493 | a zero-length read into a non-empty buffer happens only after a clean end within the cap, with every byte of the body read |
| `LaneRuns.UnfinishedNeverLooksLikeEof` | src/crates/cosmix-blobd/src/lane.rs:435-493 | abort, over-cap and a lost pump never look like an end of file |
| `LaneRuns.ReadDecides` | src/crates/cosmix-blobd/src/lane.rs:462-493 | a read delivers the next bytes while there are any; then the end iff the frames end in `Eof`, and otherwise the very error that ends them |
| `LaneRuns.CleanStreamNeverFails` | src/crates/cosmix-blobd/src/lane.rs:462-493 | a stream that ends in `Eof` is read without error whatever the buffer sizes |
| `LaneRuns.EnoughReads` | src/crates/cosmix-blobd/src/lane.rs:462-493 | reads into non-empty buffers make progress until everything has been read |
| `LaneRuns.WholeBodyIsRead` | src/crates/cosmix-blobd/src/lane.rs:673-730 | a body that ends cleanly within the cap is read without error, and more non-empty buffers than it has bytes bring all of it and then the end of file |
| `Ranges.WellFormedIsServed` | src/crates/cosmix-blobd/src/lane.rs:344-396 | a well-formed range that fits in 64 bits gets exactly its intersection with the blob, and is unsatisfiable iff that is empty |
| `Ranges.IgnoredExactly` | src/crates/cosmix-blobd/src/lane.rs:344-396 | a header is ignored iff it is not such a range |
| `Ranges.ContentRangeIsExact` | src/crates/cosmix-blobd/src/lane.rs:290-295 | the content range names the first and last byte served, and nothing in it wraps |
| `NameHeader.EncodedName` | src/crates/cosmix-blobd/src/lane.rs:834-842 | the loop computes the percent encoding |
| `NameHeader.DecodedName` | src/crates/cosmix-blobd/src/lane.rs:814-825 | the loop computes the percent decoding, or refuses a bad escape |
| `NameHeader.NameRoundTrip` | src/crates/cosmix-blobd/src/lane.rs:808-842 | decoding an encoded name gives back its bytes |
| `NameHeader.DecodesExactly` | src/crates/cosmix-blobd/src/lane.rs:816-825 | a value decodes iff every percent sign in it is followed by two hex digits |
| `NameHeader.PlainStandsForItself` | src/crates/cosmix-blobd/src/lane.rs:815-825 | what has no percent sign stands for itself, a plus sign included |
| `NameHeader.HeaderReadExactly` | src/crates/cosmix-blobd/src/lane.rs:808-832 | a name is read iff exactly one visible, well-escaped value names an acceptable one; no value is no name; anything else is refused |
| `NameHeader.EncodedIsSafe` | src/crates/cosmix-blobd/src/lane.rs:834-842 | the encoded form is unreserved characters and percent signs, at most three times as long |
| `NameHeader.HeaderRoundTrip` | src/crates/cosmix-blobd/src/lane.rs:808-842 | the written header reads back as the name iff the name is acceptable |

## Left out

- Action ids are numbers in id order, and roster names, blob hashes, owners and permits are numbers too.
- The sorted, deduplicated candidate list in a pending stamp is a set: the source only compares it for equality.
- Error texts are dropped except where they are stored (`last_error`) or select a branch.
- The fetch job channel hands out jobs in any order, a superset of the source's first-in first-out; the download and the publication are assumed to end (`Finish` and `Publish` are always possible steps).
- The blob store, quota reservations, pins, HTTP and lane resolution are oracles: each source's outcome is a parameter. `try_source` and the retry inside `complete` are not modelled.
- `PendingEvents`, gauges, `SupervisorHandle::control` and the status listings would only add easy members.
- The generic highlighting engine, the slice budget and the mapping of token classes to colours are not modelled; the lexer is an arbitrary function of a source and a whole text, and nothing is assumed of results for other sources.
- HighlightRuns.DrawnLinesAreTruthful: a drawn line is all of the result's tokens on it, which the search finds when the lexer's spans are in order (`Highlight.ClipLine` states what it finds otherwise).
- The line count `usize::MAX` that marks a wholly valid result is a separate constructor.
- Which characters are whitespace and which belong to a word are arbitrary predicates on one encoded character, standing for the Unicode tables.
- Decoding `mix lint` JSON and its schema check are not modelled; sets arrive as items, with the text and the deltas that their tag names. View generations count the deltas.
- Wall-clock `since` stamps, logging, and the identity and session handed to an adapter are not modelled; adapter names are distinct.
- Lifecycles.Lifecycle.Handle: the priority among simultaneously ready branches is not modelled (any ready one may be taken), and one wake-up happens at one instant. The method writes its transitions one after the other; `SupervisorRuns` interleaves them.
- SupervisorRuns.LifecycleAccounting: the launch counter wraps, as in a release build; a debug build stops at that launch.
- Lane.PumpBody: the byte count is unbounded, which agrees with the 64-bit one for caps below 2^63; the channel's capacity and scheduling are not modelled, since one reader and one writer see the same frames in the same order. The download pump differs only in having no trailers.
- NameHeader.HeaderRoundTrip: UTF-8 validity and the absence of control characters are arbitrary checks on the decoded bytes; the media-type header is not modelled.
- serde decoding, `.mix` files, file I/O, the dnsd, props and Bus layers, and the user interface are not part of this model.
