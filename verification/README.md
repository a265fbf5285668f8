# Codegenie: verified models of its orchestration, cache, redaction and accounting

Codegenie gathers facts about a repository with a set of probes, caches what they produce, redacts it, records an
audit trail, and later spends model tokens under a budget. This project models the parts whose correctness is not
visible from one function body, and proves what the repository relies on them for. `dafny verify dfyconfig.toml`
checks all of it.

| module | models |
|---|---|
| ForkJoin | the shape that the probe gather and the bundle builder share: tasks in waves, one bounded semaphore |
| Gather, Schedule, Exposure, Warm | the probe coordinator as a step system; independence of the schedule and isolation of failures; where a kill ends them, told from the run and told beforehand; a second gather |
| Dispatch | dispatches in any interleaving, and the loops that collect results, as imperative code against the store object |
| Scrubber | removal of absolute-path prefixes from what probes report |
| Store | index replay, the size-guarded in-memory view, blobs, and the `CacheStore` object |
| Protocol | several processes writing one cache directory, each of which may crash between any two steps or in the middle of an index line |
| Audit | the run record and its verification, over the same store |
| Fallback, Bundle | the fallback chain of one query, and many chains walked at once |
| Jsonc | the comment stripper as a byte machine, against a token grammar |
| Depth | the depth-capped walk over a graph with an identity memo |
| Budget | the precharge and settle ledger of the model-call guard |
| Patterns, Redaction, Envelope | the secret patterns, sequential substitution, and the three-pass redactor |
| PlainText | a codec that meets all assumptions made of digests and blobs |
| Encodings | the byte strings that are hashed into identities, digests and keys |
| JsonTree, CodePoints, Wrappers | JSON values; the order of strings; optional values |

What is assumed is named where it is used. Hashes, the blob codec and the length of an index line are functions
(`Store.Codec`): content hashes do not collide, blobs round-trip, and index lines are not empty (`PlainText.TextCodec`
meets all of it). A probe's slice is a dictionary, so its model lists fields by key (`JsonTree.Dict`) and the round
trip does not depend on their order. Audit adds that SHA-256 does not collide and that digests are not empty. A probe
is a key, and its `applies` and `run` as functions of the detected languages; `run` is how it ends when left alone,
and `disturbed` how it ends when the timeout of a sibling kills its children. Which siblings a kill hits, and where in
their runs, is an argument of the step, like clock readings, durations, random ids and what a crash leaves behind, so
the theorems hold for all of them. A torn index line and what is appended behind it do not parse. Dollars and clock
readings are reals, token counts integers.

Where the code and its documentation part, the model follows the code:

- the coordinator's module text says that after a degraded prelude the second pass sees the original snapshot; the
  code always replaces the languages by the merged ones. The two agree exactly when the original snapshot had no
  languages, as on the command line's path (Warm.DegradedPrelude; Warm.DegradedForgets where they differ);
- the design promises timeouts and failure isolation per probe; a timeout kills the child processes of every probe that
  is running, so a sibling's entry can change (Schedule.TimeoutReachesSibling). Schedule.OnTrackIffSpared and
  Schedule.SlotDueIff say exactly when entries stay as due, Exposure.HitsExactly and Exposure.DueExactly the same of all
  gathers to come, Schedule.QuietSpares that they always do without timeouts or with one slot;
- the index loader's text says that a torn line is skipped and the rest stays valid; the next line appended is glued to
  it and lost with it (Protocol.TornLineTakesNext; Protocol.LossesAreCounted for how many), while the process that put
  it still answers with it (Store.NewPutNeedsNewline);
- the store's text says that a concurrent append is always caught by the size guard; a put that absorbs the new file
  size hides it (Store.PutHidesForeignRecord, and Store.PutExact for exactly when);
- the depth guard's text says that nesting beyond the cap raises; on shared structures it need not
  (Depth.SharingHidesDepth; Depth.WalkExact and Depth.CapExactIff for exactly when);
- budget snapshots are described as always consistent; after an overrun none can be built (Budget.OverrunBreaksSnapshot,
  Budget.SettlementKeepsCap);
- the audit record's `timeout` status is meant for timeouts; an error text can come to read like one when a path in
  front of it is scrubbed away (Audit.PathBeforeTheWord, Audit.StatusTellsOutcome for exactly when).

## Model

| member | source | states |
|---|---|---|
| Schedule.ScheduleIndependence | src/codegenie/coordinator/coordinator.py:290-412 | two finished gathers from the same cache, however interleaved and however long each probe took, give every probe the same execution up to the duration of fresh runs, if keys are distinct, no record expires meanwhile, and no kill changed what the probe or, if it comes later, the prelude delivered |
| Schedule.ResultsAgree | src/codegenie/coordinator/coordinator.py:531-602 | so the `outputs` and `executions` maps of two interleavings that were spared have the same names and the same entries, and hold exactly one execution per probe |
| Schedule.FinishedAsDue | src/codegenie/coordinator/coordinator.py:296-412 | at any moment of any run, a probe that has finished and was spared has ended as the old cache and the probes alone dictate |
| Schedule.FailureIsIsolated | src/codegenie/coordinator/coordinator.py:355-412 | changing how one probe runs, fails or times out leaves every other entry as it was, unless a kill changed what that one delivers, or the languages it is given change |
| Schedule.OnTrackIffSpared | src/codegenie/coordinator/coordinator.py:166-178 | at every moment of every run, all that has finished has finished as due exactly when no kill changed what a finished probe delivered |
| Schedule.SlotDueIff | src/codegenie/coordinator/coordinator.py:431-440 | one finished probe with the languages due to it ends as due exactly when no kill hit it or it would have delivered the same when left alone |
| Schedule.QuietSpares | src/codegenie/coordinator/coordinator.py:431-440 | if no probe times out, or if there is only one slot and whatever times out, every run is spared |
| Schedule.QuietIsolation | src/codegenie/coordinator/coordinator.py:421-454 | so under either condition failures are isolated, timeouts included in the second case |
| Schedule.TimeoutReachesSibling | src/codegenie/coordinator/coordinator.py:434-436 | two concrete probes and the same four moves in two orders: where the runs overlap, the timeout of one makes the other fail |
| Exposure.HitsExactly | src/codegenie/coordinator/coordinator.py:166-178 | told before the gather: no run during a window has a hit exactly when no two dispatched probes of a wave, with two slots, are such that one times out |
| Exposure.TimeoutUpsets | src/codegenie/coordinator/coordinator.py:434-436 | whenever a probe is so exposed and a single hit changes what it delivers, there is a finished gather, all at one moment, in which it does not end as due |
| Exposure.StruckOnce | src/codegenie/coordinator/coordinator.py:431-440 | that gather, move by move: everything before the wave in turn, both started, one times out, the other delivers what one hit leaves |
| Exposure.DueExactly | src/codegenie/coordinator/coordinator.py:421-454 | among probes that would feel some single hit, all finished gathers end as due exactly when nobody is exposed |
| Schedule.RunsAreTrue | src/codegenie/coordinator/coordinator.py:290-412 | in every run, whatever times out and whoever is hit: a waiting probe's record is untouched, a running one missed the old cache, and a finished one has the fate of its languages and hits |
| Schedule.SteadyMeans | src/codegenie/cache/store.py:242-245 | lookups are stable in a window of time exactly when each record is fresh to its end or stale from its start |
| Schedule.OneEntryPerProbe | src/codegenie/coordinator/coordinator.py:540-600 | with distinct names each probe has its own execution, and an output exactly when it was not skipped |
| Gather.GatherIsSafe | src/codegenie/coordinator/coordinator.py:495-497 | in every reachable state at most min(cpu, config, 8) dispatches hold a slot, and no probe of a wave has started before the earlier waves are finished |
| Gather.PreludeFirst | src/codegenie/coordinator/coordinator.py:534-582 | nothing outside the prelude starts before the whole prelude has finished |
| Gather.TailIsSerial | src/codegenie/coordinator/coordinator.py:588-600 | runs-last probes start one at a time, in order, after everything before them has finished |
| Gather.GatherProgresses | src/codegenie/coordinator/coordinator.py:534-602 | with a positive bound an unfinished gather can always move |
| Gather.GatherEnds | src/codegenie/coordinator/coordinator.py:534-602 | no run makes more than two effective moves per probe |
| Gather.GatherCompletes | src/codegenie/coordinator/coordinator.py:534-602 | from any point every gather can be brought to its end |
| Gather.TakesSlotOnce | src/codegenie/coordinator/coordinator.py:290-293 | no probe is dispatched twice |
| Gather.RunIsControl | src/codegenie/coordinator/coordinator.py:290-412 | every gather run, seen through its slots, is a run of the generic bounded fork-join |
| Gather.StepTouches | src/codegenie/coordinator/coordinator.py:173-178 | of the slots a move touches its own and, by a kill, running siblings, whose phase and languages stay |
| Gather.StartsExactly | src/codegenie/coordinator/coordinator.py:490-602 | exactly when a probe takes its slot: it waits, fewer run than processors, configuration and eight allow, and finished are, for one after the prelude, the whole prelude, and for a runs-last one all before it |
| Gather.KeepInOrder | src/codegenie/coordinator/coordinator.py:503-513 | each bucket holds exactly the probes its condition selects, in the order given |
| Gather.DispatchOrder | src/codegenie/coordinator/coordinator.py:503-514 | the k-th probe to be dispatched is the one the buckets say: prelude, rest, runs-last, each in the order given |
| Gather.BucketsPartition | src/codegenie/coordinator/coordinator.py:503-514 | every probe is in exactly one of the three buckets: runs-last by its name, prelude by its tier, and the rest |
| Gather.MergedIsLast | src/codegenie/coordinator/coordinator.py:544-550 | of the clean prelude runs that report a language the last one decides its count |
| Gather.MergedIsReported | src/codegenie/coordinator/coordinator.py:544-550 | and no language is merged that none of them reports |
| Gather.LanguagesReported | src/codegenie/coordinator/coordinator.py:263-273 | a slice reports languages when its `language_stack` has a nonempty dictionary of `counts`, and only then |
| Gather.NoLanguages | src/codegenie/coordinator/coordinator.py:263-273 | a slice without such a stack reports none |
| Gather.CountsAreRead | src/codegenie/coordinator/coordinator.py:273 | each count is read as `int()` reads it |
| Gather.DeliveredIsTold | src/codegenie/coordinator/coordinator.py:335-387 | what a run delivers is its ending told: the accepted output with every string value, warning and error scrubbed at its place, or the failure that a timeout, an exceeded budget, a crash or a rejection stands for |
| Dispatch.DispatchOne | src/codegenie/coordinator/coordinator.py:276-412 | one dispatch against the real cache store, spelled out: skipped, answered from the plain map within the time to live, or run; the ending told and scrubbed; stored at its key only if clean; the plain map changes there or not at all |
| Dispatch.OpenFresh | src/codegenie/cache/store.py:181-198 | a store on an empty directory is in order, so there are stores that the contracts below speak of |
| Dispatch.RunSchedule | src/codegenie/coordinator/coordinator.py:276-412 | any interleaving of dispatches carried out against the real store object ends in the slots and the plain map of the step system, and breaks off exactly when it comes to an index record that is too long, in the state reached so far |
| Dispatch.MakeMove | src/codegenie/coordinator/coordinator.py:290-412 | one move of it, for any slots and any store in order, refused exactly when its record is too long |
| Dispatch.KillTracked | src/codegenie/coordinator/coordinator.py:173-178 | the loop over the tracked children hits exactly the running probes that have one |
| Dispatch.StartDispatch | src/codegenie/coordinator/coordinator.py:290-313 | a dispatch up to its first suspension, spelled out: filter and lookup; the plain map behind the store stays |
| Dispatch.FinishDispatch | src/codegenie/coordinator/coordinator.py:335-412 | a dispatch from the end of its probe's run: the ending told and scrubbed, stored only if clean, or the error of an over-long record |
| Dispatch.GatherInTurn | src/codegenie/coordinator/coordinator.py:531-602 | a whole gather with one slot against the real store, with its collection loops: every probe ends as due whatever times out, and it breaks off exactly when a probe would run and end clean with a record that is too long |
| Dispatch.DispatchInTurn | src/codegenie/coordinator/coordinator.py:534-600 | dispatching a stretch of probes in turn ends each as due, keeps the store in order and the later probes' records untouched, and breaks off exactly at an over-long record |
| Dispatch.CollectPrelude | src/codegenie/coordinator/coordinator.py:534-552 | the prelude loop builds both maps, merges languages only from clean runs, and lists exactly who failed and who was skipped |
| Dispatch.CollectLater | src/codegenie/coordinator/coordinator.py:583-600 | the later loops extend the same two maps |
| Warm.WarmReplay | src/codegenie/coordinator/coordinator.py:309-315 | a second gather over unchanged inputs never runs a probe that ended clean: it is a hit with the same key and an equal output exactly when it applies to the languages that the second gather gives it, else skipped; timeouts in either gather do not matter |
| Warm.BlindProbesHit | src/codegenie/coordinator/coordinator.py:404-412 | a probe whose `applies` ignores languages is then always a hit |
| Warm.RunRemembers | src/codegenie/coordinator/coordinator.py:309-315 | a clean result stays under its own key whatever other probes do |
| Warm.HitsReportNoLanguages | src/codegenie/coordinator/coordinator.py:544-552 | a cached prelude result contributes no languages where the fresh one did |
| Warm.WarmSkip | src/codegenie/coordinator/coordinator.py:544-562 | two concrete probes, two gathers over unchanged inputs in any interleaving: the later probe runs clean in the first and is skipped in the second |
| Warm.WarmSkipHappens | src/codegenie/coordinator/coordinator.py:544-562 | and there are such gathers |
| Warm.DegradedPrelude | src/codegenie/coordinator/coordinator.py:554-562 | after a prelude that merged no languages the later probes see none; that is the original snapshot exactly when it had none |
| Warm.DegradedForgets | src/codegenie/coordinator/coordinator.py:554-562 | a concrete gather in which the original snapshot had some: a probe that applies to it is skipped |
| ForkJoin.RunsAreSafe | src/codegenie/plugins/bundle.py:485-496 | the generic semaphore system: slot bound and wave order at every moment of every run |
| ForkJoin.HeldCounts | src/codegenie/plugins/bundle.py:494-496 | the number of slots that the bounds speak of is the number of tasks inside the semaphore |
| ForkJoin.SomeMoveEnabled | src/codegenie/plugins/bundle.py:485-496 | with a positive bound something can always move until all tasks are done |
| ForkJoin.RunsEnd | src/codegenie/plugins/bundle.py:485-496 | changes are bounded by the work there was at the start |
| ForkJoin.NeverBack | src/codegenie/plugins/bundle.py:485-496 | a task that left the queue never returns to it |
| Protocol.EveryLineNamesItsBlob | src/codegenie/cache/store.py:339-375 | with any number of processes interleaving, crashing anywhere and tearing their lines, every index line that parses names a blob that is present and matches both digests of the line |
| Protocol.DirectoryIsLatest | src/codegenie/cache/store.py:221-264 | in every such state the directory answers like a plain map of the survivors in order: the finished puts except those appended right behind an unterminated line, and a put that lacks only its newline |
| Protocol.LossesAreCounted | src/codegenie/cache/store.py:370-375 | a torn line costs at most one finished put |
| Protocol.UntornIsComplete | src/codegenie/cache/store.py:370-375 | without torn lines no finished put is lost |
| Protocol.TornLineTakesNext | src/codegenie/cache/store.py:291-313 | the put that appends behind an unterminated line finishes and cannot be read back |
| Protocol.SizeTells | src/codegenie/cache/store.py:282-289 | no step changes the lines of the index without making the file longer, which is what the size guard relies on |
| Protocol.StepKeepsInv | src/codegenie/cache/store.py:121-138 | what each step of a put, a crash, or a tear keeps |
| Protocol.PutGoesThrough | src/codegenie/cache/store.py:339-375 | undisturbed, the five steps of a put leave the process idle, the put recorded as done, the blob under its hash, and the index ended by a newline |
| Protocol.BeginsOnlyIdle | src/codegenie/cache/store.py:350-356 | a record of more than 4096 bytes begins nothing |
| Protocol.TearShows | src/codegenie/cache/store.py:370-375 | behind a newline, a torn line shows its put exactly if only the newline is missing, and nothing otherwise |
| Store.CalmRunsStayTrue | src/codegenie/cache/store.py:266-289 | whatever others append and whenever, torn lines included, also between stat and load: if each put starts in step with the file and behind a newline and is not raced, the size-guarded view is true to the log |
| Store.CalmPutExact | src/codegenie/cache/store.py:370-389 | a put in step with the file and not raced leaves a true view exactly when the file ended behind a newline, or neither its record nor that of the unterminated line it is glued to was news |
| Store.NewPutNeedsNewline | src/codegenie/cache/store.py:370-389 | so with a record that the file does not hold yet: exactly when the file ended behind a newline |
| Store.AfterAppends | src/codegenie/cache/store.py:370-375 | behind a newline appended text stands on lines of its own, whatever is torn in it |
| Store.LookOnAnswers | src/codegenie/cache/store.py:282-289 | every answer is the last record of the key as of the stat or as of the load |
| Store.AloneLooksAreExact | src/codegenie/cache/store.py:383-389 | in every single-process run the answer is the last record appended for the key |
| Store.PutExact | src/codegenie/cache/store.py:383-389 | a put, behind a newline, over lines the process has not seen leaves its view true exactly when those lines are no news about other keys and none about its own came later |
| Store.PutHidesForeignRecord | src/codegenie/cache/store.py:383-389 | a concrete run in which a foreign record is missed for good |
| Store.ReplayIsLast | src/codegenie/cache/store.py:291-313 | replaying the index means: the last line about a key decides, and other keys are absent |
| Store.LoadIndex | src/codegenie/cache/store.py:291-313 | the loading loop computes the replay, skipping torn and blank lines |
| Store.PutUpdatesContents | src/codegenie/cache/store.py:339-375 | storing an output changes what the store holds under its key and nothing else, shared blobs included |
| Store.PutBehindTorn | src/codegenie/cache/store.py:370-375 | a put behind an unterminated line leaves the plain map of the lines before that one |
| Store.CacheStore.GetIndexRecord | src/codegenie/cache/store.py:266-289 | the object follows the step system; with a true view it returns the last record of the key |
| Store.CacheStore.Get | src/codegenie/cache/store.py:221-264 | with a true view, an output exactly when the last record of the key is young enough, the blob it names is present, its SHA-256 is the recorded one and it decodes; so it answers like a plain map with an expiry |
| Store.CacheStore.Put | src/codegenie/cache/store.py:317-389 | refuses an over-long record and changes nothing; otherwise places the blob under its hash, appends one line with these fields, glued to an unterminated one, and updates its view, whatever others append before it looks at the size again; the plain map afterwards in either case |
| Store.CacheStore.constructor | src/codegenie/cache/store.py:181-198 | a new store starts with a cold view, which is true to any log |
| Store.BlobNameIsHash | src/codegenie/cache/store.py:367-370 | the blob path derived from a record is the hash of the blob that was written |
| PlainText.CodecExists | src/codegenie/cache/store.py:89-115 | digests without collisions and blobs that round-trip for every output do exist together: the assumptions are met by a codec |
| Audit.RecordedRunVerifies | src/codegenie/audit.py:325-372 | a run recorded right after its gather, with index, blobs and YAML untouched, verifies with zero mismatches |
| Audit.RecordedBlobsAreGuarded | src/codegenie/audit.py:325-436 | after a recorded gather, changing or removing the blob behind the key of any probe that was delivered without errors makes the count positive |
| Audit.CountIsZero | src/codegenie/audit.py:345-372 | the count is zero exactly when every anchor of every readable record holds |
| Audit.TamperingCounts | src/codegenie/audit.py:375-436 | a changed or removed anchored blob makes the count positive, whatever else changed among the blobs |
| Audit.ChangedYamlCounts | src/codegenie/audit.py:439-461 | so does a changed or missing YAML |
| Audit.LaterOutputUnsettlesOldRow | src/codegenie/audit.py:377-436 | after a later put under its key an old row matches exactly when the new output is equal, duration included |
| Audit.VerifyRuns | src/codegenie/audit.py:325-372 | the nested loops count exactly the rows whose anchor fails and the records whose YAML fails, and modify nothing |
| Audit.VerifyOneBlob | src/codegenie/audit.py:375-436 | one row, spelled out: it counts unless record, blob name, readable blob file and hash are all in order |
| Audit.BuildRunRecord | src/codegenie/audit.py:126-158 | one row per execution, spelled out: the key, the duration, the status, and the anchor of what was delivered for every cache hit and every run without errors, the empty one otherwise |
| Audit.StatusTellsOutcome | src/codegenie/audit.py:126-145 | the recorded status tells how the probe ended, through the real path scrub; it is a timeout exactly for a timeout, a crash of a class of that name, or a reported error that reads so once scrubbed |
| Audit.PathBeforeTheWord | src/codegenie/audit.py:126-145 | a concrete error for which a probe that did not time out is recorded as timed out |
| Audit.PrefixSurvives | src/codegenie/audit.py:141-145 | the scrub changes what the prefix test says only of texts with a slash among their first characters |
| Scrubber.ScrubKeepsFront | src/codegenie/output/sanitizer.py:142-193 | removing path prefixes never touches what stands before the first slash |
| Scrubber.ScrubRemoves | src/codegenie/output/sanitizer.py:142-193 | behind text without a slash, the longest text of the first of the four prefix forms that fits is removed, and scrubbing goes on behind it |
| Scrubber.ScrubKeepsSlash | src/codegenie/output/sanitizer.py:142-193 | a slash at which no form fits stays |
| Audit.TagsAgree | src/codegenie/audit.py:387-400 | store and verifier take the tagged digest apart differently and agree on what `put` writes |
| Bundle.BundleIsDetermined | src/codegenie/plugins/bundle.py:457-482 | when no query raises, every finished interleaving gives the same entries: must, then should, then may, each as its chain resolves alone |
| Bundle.ChainsAreSerial | src/codegenie/plugins/bundle.py:485-496 | in every interleaving a query's outcome and its own event stream are its serial ones |
| Bundle.EventsAreAPrefix | src/codegenie/plugins/bundle.py:350-413 | at any moment what a query has emitted is a beginning of its serial stream |
| Bundle.SlotsBounded | src/codegenie/plugins/bundle.py:451-478 | at most the configured number of chains hold a slot |
| Bundle.ConcurrencyMeans | src/codegenie/plugins/bundle.py:101-133 | the bound: the variable if it is a positive number, otherwise none; without it the processors, at least one and at most four |
| Bundle.TakesSlotOnce | src/codegenie/plugins/bundle.py:485-496 | no chain takes a slot twice |
| Bundle.BuildersProgress | src/codegenie/plugins/bundle.py:101-133 | whatever the environment variable says, a builder that exists never gets stuck |
| Bundle.BuildEnds | src/codegenie/plugins/bundle.py:477-482 | no build makes more than six effective moves per query |
| Fallback.ResolveChain | src/codegenie/plugins/bundle.py:338-413 | the loop, with its four variables, computes the recursive walk |
| Fallback.ChainResolves | src/codegenie/plugins/bundle.py:382-413 | the entry is the first trusted answer among the first four, or the last answer if the chain ends by then; one degraded event per advance; `fallback_used` exactly when it advanced |
| Fallback.ResolvedExactly | src/codegenie/plugins/bundle.py:355-413 | the query resolves exactly when some position of the chain counts: the trusted answer behind known untrusted ones, or the last of a chain that is short enough |
| Fallback.EventsSpelled | src/codegenie/plugins/bundle.py:355-413 | every event but a final too-deep one names the primitive, the adapter and the reason of the untrusted answer at its place in the chain |
| Fallback.TooDeepExactly | src/codegenie/plugins/bundle.py:355-381 | too-deep exactly when four untrusted answers are followed by a fifth query, after four degraded events and one too-deep event |
| Fallback.MissingExactly | src/codegenie/plugins/bundle.py:382-390 | missing-dispatch exactly when the walk reaches a primitive without an adapter |
| Jsonc.MachineMeetsGrammar | src/codegenie/parsers/jsonc.py:207-277 | on every well-formed token list the machine gives the rendering without comments, newlines of line comments kept, or the right error |
| Jsonc.LineCommentGoes | src/codegenie/parsers/jsonc.py:207-277 | from two slashes to the newline everything goes and the newline stays |
| Jsonc.BlockCommentGoes | src/codegenie/parsers/jsonc.py:207-277 | block comments go, nested ones included |
| Jsonc.StringStays | src/codegenie/parsers/jsonc.py:207-277 | strings stay, comment markers in them included |
| Jsonc.EveryInput | src/codegenie/parsers/jsonc.py:207-277 | every byte string is the rendering of exactly one well-formed token list, so the previous row speaks of every input |
| Jsonc.Unambiguous | src/codegenie/parsers/jsonc.py:207-277 | a well-formed token list is recovered from its rendering |
| Jsonc.ErrorsExactly | src/codegenie/parsers/jsonc.py:267-270 | each error is signalled exactly on inputs that end inside a string, or inside a block comment |
| Jsonc.StripIdempotent | src/codegenie/parsers/jsonc.py:214-274 | stripping succeeds on its own output and returns it unchanged |
| Jsonc.DropWellFormed | src/codegenie/parsers/jsonc.py:214-227 | removing comments never brings two bytes together into a new comment marker |
| Jsonc.StripComments | src/codegenie/parsers/jsonc.py:192-277 | the loop over `i`, `state`, `block_depth` and `escaped` computes the machine |
| Depth.WalkSound | src/codegenie/parsers/_depth.py:71-109 | on any graph, shared or cyclic: each container expanded at most once; a raise means a path deeper than the cap; a return means the expanded containers are the reachable ones and each has a path within the cap |
| Depth.WalkExact | src/codegenie/parsers/_depth.py:71-109 | on every graph and for every cap the walk returns exactly when no leading chain, one that no earlier sibling overtakes, is too deep to hold another container; the condition does not speak of the walk |
| Depth.CapExactIff | src/codegenie/parsers/_depth.py:71-109 | so the cap means what it says exactly when no chain is too deep, or some leading chain with a further link is |
| Depth.WalkReaches | src/codegenie/parsers/_depth.py:85-88 | a walk adds to the memo exactly what can be reached around the containers still open |
| Depth.TreeExact | src/codegenie/parsers/_depth.py:82-88 | on trees the walk returns exactly when no path is deeper than the cap |
| Depth.LayeredExact | src/codegenie/parsers/_depth.py:82-88 | the same on every graph whose containers each lie at one depth |
| Depth.SharingHidesDepth | src/codegenie/parsers/_depth.py:82-88 | a shared graph deeper than the cap on which the walk returns, and raises with the children swapped |
| Depth.WalkInto | src/codegenie/parsers/_depth.py:71-109 | the recursive walker over the shared memo, in place, is the specified walk; it terminates |
| Depth.AssertMaxDepth | src/codegenie/parsers/_depth.py:43-68 | the entry point: returns exactly when all leading chains fit, and what raising and returning tell about the graph |
| Budget.CapConserved | src/codegenie/fallback/budget.py:320-351 | over every run with fresh ids, consumption plus reservations stay within the cap plus the total settlement overrun |
| Budget.CapHolds | src/codegenie/fallback/budget.py:393-398 | when no settlement exceeds its precharge the cap itself holds and the snapshot constructs |
| Budget.SnapshotExact | src/codegenie/fallback/budget.py:111-152 | the snapshot constructs exactly when commitments are within the cap, and then consumed, outstanding and remaining add up to it |
| Budget.TokensSettleOnce | src/codegenie/fallback/budget.py:386-433 | under any replays each minted id settles at most once, is outstanding or settled and never both, and consumption is the sum of the first settlements |
| Budget.FirstReportsCount | src/codegenie/fallback/budget.py:386-421 | told of the calls: consumption is the sum, per id, of the actual of the first report after its minting |
| Budget.SettlementKeepsCap | src/codegenie/fallback/budget.py:393-398 | a settlement keeps the cap exactly when it overruns its precharge by no more than what remained |
| Budget.OverrunBreaksSnapshot | src/codegenie/fallback/budget.py:141-151 | one concrete overrun after which the guard cannot report |
| Budget.OnlyMintsAndSettlementsCount | src/codegenie/fallback/budget.py:309-342 | refused precharges, duplicates, unknown tokens and bad arguments leave the state as it was |
| Budget.RunsAreSound | src/codegenie/fallback/budget.py:295-433 | the invariant behind these, in every run |
| Budget.AppendKeepsSound | src/codegenie/fallback/budget.py:351-410 | every event the guard may append keeps the invariant |
| Budget.NoOverrunIsZero | src/codegenie/fallback/budget.py:393-398 | the total overrun is zero when no settlement exceeds its charge |
| Budget.LlmInvocationGuard.Precharge | src/codegenie/fallback/budget.py:295-362 | exactly when a call is minted and when and why it is refused, in the requested tokens, the per-call maximum, the rate, the caps and what is consumed and outstanding; and the new state and log |
| Budget.LlmInvocationGuard.Reconcile | src/codegenie/fallback/budget.py:364-433 | settles once, reports duplicates and unknown tokens, refuses negative numbers; and the new state and log |
| Budget.LlmInvocationGuard.Report | src/codegenie/fallback/budget.py:435-457 | the snapshot, or none exactly when its constructor would refuse |
| Budget.LlmInvocationGuard.OutstandingSum | src/codegenie/fallback/budget.py:320-334 | the sum over the open tokens does not depend on their order |
| Budget.LlmInvocationGuard.constructor | src/codegenie/fallback/budget.py:261-291 | a new guard is the empty ledger |
| Budget.SumTakeOut | src/codegenie/fallback/budget.py:320-334 | summing a map does not depend on which key is taken first |
| Budget.PriceIsProduct | src/codegenie/fallback/budget.py:330 | the price of n tokens is n times the rate |
| Patterns.MatchFinds | src/codegenie/output/sanitizer.py:285-301 | each of the six matchers finds what its regular expression describes: the longest word, or the shortest for the lazy block pattern |
| Patterns.KeysSpelled | src/codegenie/output/sanitizer.py:285-301 | the words of the four patterns with a fixed front, character by character |
| Patterns.JwtSpelled | src/codegenie/output/sanitizer.py:288-291 | the words of the token pattern: three nonempty runs parted by dots |
| Patterns.RsaSpelled | src/codegenie/output/sanitizer.py:292-298 | the words of the block pattern: two headers around at least one character |
| Redaction.NamedFixpoint | src/codegenie/output/sanitizer.py:477-495 | after all substitutions no pattern matches anywhere in the output, also across markers; a second application is the identity with no findings |
| Redaction.SubClears | src/codegenie/output/sanitizer.py:477-495 | one pass of one pattern leaves no word of it |
| Redaction.SubKeepsClean | src/codegenie/output/sanitizer.py:477-495 | a pass of one pattern creates no word of another |
| Redaction.SubReplaces | src/codegenie/output/sanitizer.py:388-399 | one pass: words of the class are replaced by markers with their fingerprints and reported in order, everything else stays, and no word is left |
| Redaction.Lift | src/codegenie/output/sanitizer.py:388-399 | a secret found in the output stood in the input: none is formed from a marker and its surroundings |
| Redaction.BlockLifts | src/codegenie/output/sanitizer.py:291-297 | the same for private-key blocks, whose two headers may have a marker between them |
| Redaction.RedactRawArtifactBytes | src/codegenie/output/sanitizer.py:454-495 | the byte redactor: no secret of any class is left, nothing is found exactly when there was none, and the output comes from the six classes replaced in turn |
| Redaction.StringRule | src/codegenie/output/sanitizer.py:345-378 | one string of a slice: its named secrets if it has any, otherwise the whole string if it is long and surprising |
| Redaction.EntropyRule | src/codegenie/output/envelope_redactor.py:198-221 | the entropy pass on one string: replaced as a whole exactly when it shows no marker, is at least 32 bytes long and surprising |
| Redaction.RedactNamedInString | src/codegenie/output/envelope_redactor.py:151-171 | the pattern loop: the same of one string, with its findings appended |
| Redaction.RedactStringIdempotentIff | src/codegenie/output/sanitizer.py:345-378 | the per-probe redactor is idempotent on a string exactly when no named secret was found in it or the rest is not suspicious |
| Redaction.RedactStringNotIdempotent | src/codegenie/output/sanitizer.py:362-378 | a concrete string it redacts twice |
| Envelope.RedactSecretsIdempotentIff | src/codegenie/output/sanitizer.py:404-446 | lifted to a whole slice: redacting the result again changes and finds nothing exactly when no string had both a named secret and a suspicious rest |
| Envelope.EnvelopeIdempotent | src/codegenie/output/envelope_redactor.py:237-294 | for every entropy function the envelope redactor succeeds, keeps the tree's shape, and returns its own output unchanged with no findings |
| Envelope.LeafSettles | src/codegenie/output/envelope_redactor.py:198-221 | after both passes a string is left alone by both |
| Envelope.WalkKeepsShape | src/codegenie/output/envelope_redactor.py:174-182 | a sweep changes nothing but the contents of string values |
| Envelope.WalkIsLeafWise | src/codegenie/output/envelope_redactor.py:174-182 | a sweep rewrites every string value at its place and reports in document order |
| Envelope.RedactSecretsLeafWise | src/codegenie/output/sanitizer.py:404-446 | the per-probe redactor on a slice: every string value by the rule for one string, all findings told |
| Envelope.WalkTwice | src/codegenie/output/envelope_redactor.py:174-182 | a sweep is the identity on its own output exactly when its leaf rewriting settles every string |
| Envelope.CloseAccepts | src/codegenie/output/redacted_slice.py:85-105 | the closing constructor never refuses: fingerprints are well-formed and no more than the findings |
| Envelope.DedupKeepsAll | src/codegenie/output/envelope_redactor.py:246 | each fingerprint is kept once, in the order of first occurrence |
| Envelope.RedactEnvelopeInPasses | src/codegenie/output/envelope_redactor.py:274-294 | the passes as they run: every string value is rewritten at its place by the pattern table and then by the entropy rule, the count is that of all findings and each fingerprint is named once |
| Envelope.Sweep | src/codegenie/output/envelope_redactor.py:174-182 | the recursive sweep that appends findings as it goes |
| Encodings.IdentityExact | src/codegenie/hashing.py:79-82 | two part lists have the same payload exactly when their capped arities agree and they show the same fields |
| Encodings.IdentitySpelled | src/codegenie/hashing.py:71-82 | the payload: an arity capped at 255 and the parts with a unit separator between two |
| Encodings.IdentityInjective | src/codegenie/hashing.py:79-82 | without separators in parts the payload determines the list |
| Encodings.IdentityCollides | src/codegenie/hashing.py:79-82 | with one it does not |
| Encodings.TreeRoundTrip | src/codegenie/hashing.py:183-191 | decoding the digest stream gives the files back, whatever bytes the bodies hold |
| Encodings.TreeInjective | src/codegenie/hashing.py:183-191 | so the stream determines the files |
| Encodings.TreeExact | src/codegenie/hashing.py:183-191 | for any paths, two streams coincide exactly when their records show the same fields |
| Encodings.TreeSpelled | src/codegenie/hashing.py:183-191 | the digest stream, character by character |
| Encodings.FileExact | src/codegenie/hashing.py:189-191 | and two records exactly when path, size and body show the same fields |
| Encodings.TreeCollides | src/codegenie/hashing.py:183-191 | not so with a separator in a path |
| Encodings.TreeStream | src/codegenie/hashing.py:183-191 | the loop with its `first` flag feeds exactly that stream |
| Encodings.ParseDecimal | src/codegenie/hashing.py:189 | the decimal length field is read back |
| Encodings.SortCorrect | src/codegenie/hashing.py:209 | the manifest is sorted and a permutation of the inputs |
| Encodings.ManifestExact | src/codegenie/hashing.py:209-211 | two manifests are equal exactly when they hold the same entries, in any order |
| Encodings.ManifestSpelled | src/codegenie/hashing.py:205-211 | the manifest, character by character: the entries in order of path and size |
| Encodings.KeyExact | src/codegenie/cache/keys.py:278-284 | two probe keys have equal payloads exactly when everything that went in agrees |
| Encodings.KeySpelled | src/codegenie/cache/keys.py:278-284 | the key payload, part by part: name, version, schema, inputs, tokens |
| Encodings.TokensSpelled | src/codegenie/cache/keys.py:121-138 | which input patterns are special tokens, and which of them are known |
| Encodings.SpecialTokenValues | src/codegenie/cache/keys.py:142-245 | one value per special token, in order, empty when unresolved; an unknown token is an error that names the first one |
| Encodings.ComposeBundleKey | src/codegenie/plugins/cache.py:172-191 | accepts exactly the separator-free tuples, names the first offending input otherwise, and the payload splits back into the tuple |
| Encodings.BundleKeyInjective | src/codegenie/plugins/cache.py:172-191 | accepted tuples are determined by their payloads |

## Left out

- Command line, logging, schema validation plumbing, event ids, file modes, directory creation, `fsync`, partial `os.write`: no logic of their own. A write is one step, though a crash may leave a torn temporary file or index line.
- BLAKE3, SHA-256, the JSON and YAML codecs and `uuid4`: functions with the assumptions named above.
- Shannon entropy: any predicate on strings. No theorem needs its value.
- Scrubber.ScrubText: applying the scrub twice is not studied; the source applies it once.
- Subprocess execution: which siblings have a child alive when a timeout kills, and how a run ends that loses one, are arguments of the model (`Gather.Move`, `Gather.Probe`).
- Cancellation of a whole gather, and exceptions that escape a dispatch, except the over-long index record (Dispatch.FinishDispatch).
- Registries, configuration merging, the cache's garbage collection, raw-artifact truncation, schema scripts: no theorem here speaks of them.
- Gather.Step: the index record of every clean output fits its size limit; Dispatch.RunSchedule says exactly when a run meets one that does not.
- Gather.LanguageCounts: a count on which `int()` raises ends the gather in the source and reads as zero here; of digits and white space only the ASCII ones (space, and tab to carriage return) are modelled, of floating-point numbers not negative zero, NaN and infinities.
- Store.LoadIndex: an index line either is a full record or is skipped; a JSON line that has a key but lacks other fields raises later in the source.
- Store.CalmRunsStayTrue: the index only grows; a file that someone shortens is outside the model.
- Dispatch.RunSchedule, and the other methods of Dispatch: over a store in order whose index file ends behind a newline; Store.CacheStore.Put says what a put does to one that does not.
- Bundle.ChainsAreSerial: a query that raises is given its serial error; which of several errors `asyncio.gather` reports first is not modelled.
- Bundle.ReadConcurrency: takes the environment variable as already read by `int()`.
- Fallback.Walk: arguments are taken in their canonical encoding.
- Dispatch.GatherInTurn: one slot and dispatches in turn; Dispatch.RunSchedule is every interleaving.
- Dispatch.DispatchInTurn: likewise.
- Encodings.KeyExact: file globbing and the schema lookup are inputs.
- Budget.LlmInvocationGuard.constructor: the four argument checks that raise in the source are its precondition, since a constructor returns nothing else.
- Budget.PriceIsProduct: decimals are exact; rounding to the context precision of `Decimal` is not modelled.
- Jsonc.StripComments: the file reading, size cap, decoding and JSON parse around the stripper.
- Plugin resolver, plugin loader, event log chain and retrieval store are not part of this model.
