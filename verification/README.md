# Verified models of the OpenClaw release and developer tooling

This project models the parts of OpenClaw's scripts that carry real logic (the translation sync of the
Control UI, the supervision of child processes, the restart benchmark, the temp-path guardrail, the
post-publish import check, the Swift protocol generator, the Sparkle build numbers and the marked-block
rewriter) and proves what each of them promises. `dafny verify dfyconfig.toml` checks everything.

Code that changes things step by step is written as classes and loops, each proved against a specification
function; the lemmas then say what the specification means. Pure code is written as functions.

| File | What it covers |
|---|---|
| `Common.dfy` | JavaScript maps in insertion order, trimming, decimal numerals, stable sorting |
| `NestedKeys.dfy` | nested translation objects and their dotted keys |
| `TranslationMemory.dfy` | loading, indexing and rendering a translation memory |
| `LocaleSync.dfy`, `SyncRun.dfy`, `SyncLocale.dfy` | the decision chain of one locale, a whole run against its files, and the imperative run |
| `TranslationBatches.dfy`, `BatchTranslator.dfy` | cutting pending items into prompts; retry and split on timeout |
| `ProcessRun.dfy` | one child process: timers, bounded output, one promise |
| `CommandSupervisor.dfy` | any number of supervised commands, the kill registry and signal forwarding |
| `RestartProbe.dfy`, `OutputLines.dfy`, `ProcessTree.dfy` | the restart benchmark: probe, line buffers, CPU of a process tree |
| `ArgumentScanner.dfy`, `ReadPool.dfy` | the guardrail: quote- and bracket-aware scanning, and the workers that share an index |
| `ImportClosure.dfy` | the zod artifact check over relative imports |
| `CanonicalJson.dfy`, `SchemaRegistry.dfy`, `DiscriminatedUnion.dfy`, `ProtocolUnion.dfy` | schema signatures, the registry of names, discriminated unions, and unions named by the registry |
| `SparkleBuild.dfy` | version texts and build numbers |
| `MarkedBlock.dfy` | rewriting the text between two markers |

What the proofs found, beyond confirming the design:

- For source keys without a segment that every JavaScript object inherits (such as `constructor`), the sync
  settles in one run exactly when the keys are unambiguous (no key is a segment prefix of another and none starts
  with a dot) and either a provider is configured or no two keys are equal under `localeCompare`. For every other
  such source there is a disk on which the next run is not quiet: a key is lost, or the fallback list is reordered.
- `--force` never changes the result of a sync: an item that is still open when it is read, after the translation
  phase, has no existing text.
- Greedy batching is optimal: no legal cut of the pending items needs fewer prompts, and the cut is unique.
- A bounded capture is the tail of its stream for every positive limit and not for limit 0
  (`slice(-0)` keeps everything), which is why the limit is forced to at least 1.
- A command spawned after the first forwarded signal survives the forced exit, unless it has timed out.
- An argument survives being printed next to another exactly when it is closed under both scanners.
- The default arm of a generated decoder is left out exactly when the other arms cover the type.
- Build numbers keep the release order exactly up to patch 99 (dated releases), 10000 (monthly releases) and
  890000 (December); a patch beyond that builds at or above the next month's first build.
- Rewriting a marked block is idempotent exactly when the end marker occurs neither in the start marker nor in
  an indented inserted line.

## Model

| member | source | states |
|---|---|---|
| `NestedKeys.JoinSplit` | scripts/control-ui-i18n.ts:371-372 | joining the segments of a key with dots gives the key back |
| `NestedKeys.SplitJoin` | scripts/control-ui-i18n.ts:371-372 | dot-free segments are recovered from the key they spell |
| `NestedKeys.FlattenIsLookup` | scripts/control-ui-i18n.ts:359-369 | flattening a nested object assigns to every dotted key exactly the text found by walking its segments |
| `NestedKeys.SetPathLookup` | scripts/control-ui-i18n.ts:371-386 | setting one nested value changes the text at its own path and drops only the paths that run through or below it |
| `NestedKeys.FlattenRebuildIff` | scripts/control-ui-i18n.ts:1597-1600 | building the nested object key by key and flattening it returns exactly the assigned values if and only if the keys are unambiguous |
| `NestedKeys.AmbiguousLosesKey` | scripts/control-ui-i18n.ts:371-386 | with ambiguous keys some assigned key is missing after flattening |
| `NestedKeys.RebuildFlatten` | scripts/control-ui-i18n.ts:359-386 | setting the flattened keys of a well-formed object, in any order, reproduces the object up to property order |
| `TranslationMemory.LoadValid` | scripts/control-ui-i18n.ts:517-536 | every loaded entry is complete and stored under its own cache key, no key twice |
| `TranslationMemory.LoadKeepsLast` | scripts/control-ui-i18n.ts:517-536 | the memory holds exactly the cache keys of the usable lines, each with the last such line |
| `TranslationMemory.RenderLoad` | scripts/control-ui-i18n.ts:517-546 | rendering and loading keep every entry |
| `TranslationMemory.RenderAgain` | scripts/control-ui-i18n.ts:538-546 | a rendered file, loaded and rendered again, is the same file |
| `TranslationMemory.RenderOrdered` | scripts/control-ui-i18n.ts:538-546 | the rendered lines are the entries, in the order of their cache keys |
| `TranslationMemory.ByTextHash` | scripts/control-ui-i18n.ts:548-560 | the index holds exactly the text hashes of usable entries of the locale, each with such an entry |
| `TranslationMemory.ByTextLast` | scripts/control-ui-i18n.ts:548-560 | for each text hash the index holds the last usable entry of the locale |
| `LocaleSync.PlanDecides` | scripts/control-ui-i18n.ts:1453-1498 | each key is decided by the priority chain on the memory as it was before the loop: no key's decision disturbs another's |
| `LocaleSync.PlanFollowsChain` | scripts/control-ui-i18n.ts:1453-1498 | on the inputs alone: its own entry gives the text and stays, unless a provider refreshes the key; failing that a same-text entry does, copied under the key, when the key is a fallback or has no text; failing that the existing text, unless a provider refreshes the key; otherwise, and only then, the key is pending |
| `LocaleSync.PendingInOrder` | scripts/control-ui-i18n.ts:1488-1498 | the pending items are those of the pending source keys, in source order |
| `LocaleSync.MergedFollowsChain` | scripts/control-ui-i18n.ts:1457-1591 | the final text, fallback mark and memory entry of every source key by the same chain, with the fresh answer or the English text at its end |
| `LocaleSync.MergedSlots` | scripts/control-ui-i18n.ts:1457-1591 | the final text, fallback mark and memory entry of every source key |
| `LocaleSync.MergedKeys` | scripts/control-ui-i18n.ts:1574-1591 | after the merge exactly the source keys have a text, and only source keys are fallbacks |
| `LocaleSync.MergedElsewhere` | scripts/control-ui-i18n.ts:1457-1548 | memory entries that belong to no source text stay as they were |
| `LocaleSync.NextChoice` | scripts/control-ui-i18n.ts:1457-1498 | the next run takes every key from the memory or the locale file, with the text and fallback mark of the run before |
| `LocaleSync.MergeAgain` | scripts/control-ui-i18n.ts:1457-1498 | the next run ends with the same texts and the same fallback keys |
| `SyncRun.SecondRunChangesNothing` | scripts/control-ui-i18n.ts:1431-1694 | for unambiguous keys, which without a provider must not collate equal, after a successful writing run a second run, with any options, clock and provider, has no pending key, reports no change and leaves all four files, `generatedAt` included |
| `SyncRun.FixpointIff` | scripts/control-ui-i18n.ts:1431-1694 | the second run is guaranteed to be quiet if and only if the source keys are unambiguous and, without a provider, no two of them collate equal |
| `SyncRun.TiedSecondRunNotQuiet` | scripts/control-ui-i18n.ts:1606-1619 | without a provider, for any two source keys that collate equal a disk from which two runs list them in different orders |
| `SyncRun.AmbiguousSecondRunNotQuiet` | scripts/control-ui-i18n.ts:1597-1600 | for every ambiguous source a disk on which the second run still asks or changes something |
| `SyncRun.WrittenCounts` | scripts/control-ui-i18n.ts:1602-1631 | the written metadata adds up: translated plus fallback keys are all keys, fallback keys are source keys, and with a provider there are none |
| `SyncRun.SyncWrites` | scripts/control-ui-i18n.ts:1431-1694 | on the files, for unambiguous keys: after a writing run every source key has its text, fallback mark and memory entry by the chain and no other key has a text; the metadata keeps its date exactly when nothing else in it changed; the glossary is kept unless it is empty; memory lines are in order, foreign entries as before |
| `SyncRun.OptionsDecideWriting` | scripts/control-ui-i18n.ts:1649-1694 | with a check, or without writing, the same change is reported and the files stay |
| `SyncRun.FailsIff` | scripts/control-ui-i18n.ts:1550-1595 | a run is skipped exactly on an allowed authorization failure, and throws exactly on another provider failure or when a final text loses its placeholders |
| `SyncRun.FallbackAccounting` | scripts/control-ui-i18n.ts:1606-1609 | the reported fallback count never exceeds the source keys and is zero after a provider run |
| `SyncRun.ForceHasNoEffect` | scripts/control-ui-i18n.ts:1574-1591 | `--force` does not change the result of a run |
| `SyncLocale.PlanKeys` | scripts/control-ui-i18n.ts:1453-1498 | the decision loop computes the specified plan |
| `SyncLocale.SettlePending` | scripts/control-ui-i18n.ts:1574-1591 | the merge loop computes the specified settlement |
| `SyncLocale.TranslateBatches` | scripts/control-ui-i18n.ts:1522-1549 | failure, answers and prompts are those of the provider's outcomes, batch after batch; without a failure all items are recorded as if by one reply |
| `SyncLocale.PhaseComplete` | scripts/control-ui-i18n.ts:1522-1549 | a translation phase without failure answers exactly the keys of its batches, with non-blank texts |
| `SyncLocale.PhaseFailure` | scripts/control-ui-i18n.ts:1522-1569 | a failure is the error of the last prompt issued, which asked for a part of one batch |
| `SyncLocale.PhaseCosts` | scripts/control-ui-i18n.ts:1522-1549 | whatever the provider does, a phase costs at most four prompts per item less two per batch |
| `SyncLocale.PhaseCostIsReached` | scripts/control-ui-i18n.ts:1393-1409 | that bound is reached by a phase that still succeeds, for all batches |
| `SyncLocale.ProviderSucceeds` | scripts/control-ui-i18n.ts:1522-1549 | with a provider that answers every prompt the run is the translated one, at one prompt for each batch |
| `SyncLocale.TranslatePending` | scripts/control-ui-i18n.ts:1511-1569 | the reply and the prompt count are the ones the provider's outcomes determine |
| `SyncLocale.SyncLocale` | scripts/control-ui-i18n.ts:1431-1694 | the imperative run equals the specified run for the reply that the provider's outcomes determine, and issues exactly their prompts, at most four per pending item less two per batch; a failed phase skips or throws |
| `SyncLocale.SecondSyncQuiet` | scripts/control-ui-i18n.ts:1431-1694 | for unambiguous keys, which without a provider must not collate equal, behind a finished first run the specified second run asks nothing and changes nothing |
| `SyncLocale.SyncTwice` | scripts/control-ui-i18n.ts:1431-1694 | for the same keys, run twice, the second run issues no prompt and changes nothing |
| `TranslationBatches.BuildTranslationBatches` | scripts/control-ui-i18n.ts:1237-1261 | the loop with its running character count computes the specified batches |
| `TranslationBatches.BatchesGreedy` | scripts/control-ui-i18n.ts:1237-1261 | the batches concatenate to the items, are non-empty, at most 20 long, within the budget unless single, and each is full or the next item would overflow it |
| `TranslationBatches.BatchesWithin` | scripts/control-ui-i18n.ts:1237-1261 | on the texts: a batch holds 1 to 20 items, and several only when all characters of their keys and texts, ten more for each item and two, are within the budget; with the first item of the next batch that would no longer hold |
| `TranslationBatches.GreedyMinimal` | scripts/control-ui-i18n.ts:1237-1261 | no legal cut of the items has fewer batches |
| `TranslationBatches.GreedyUnique` | scripts/control-ui-i18n.ts:1237-1261 | there is only one greedy cut |
| `BatchTranslator.TranslateBatch` | scripts/control-ui-i18n.ts:1360-1422 | the retry loop with its recursive halves computes the specified answer, prompt count and depth |
| `BatchTranslator.TranslateIsWork` | scripts/control-ui-i18n.ts:1360-1422 | the recursion issues the prompts of a flat work list: an answered part leaves it, a part of several keys that times out is replaced by its two halves, longer first, any other first failure is asked again, and a second one, or a timed-out single key, is final |
| `BatchTranslator.AskIs` | scripts/control-ui-i18n.ts:1371-1387 | a prompt answers exactly when its reply has a non-blank text for every item, with those texts; otherwise the error names the first item without one |
| `BatchTranslator.TranslateComplete` | scripts/control-ui-i18n.ts:1377-1387 | a successful batch returns exactly its keys, each with a non-blank text that a prompt of this run gave for it |
| `BatchTranslator.TranslateCosts` | scripts/control-ui-i18n.ts:1393-1409 | at most 4n - 2 prompts, and a split depth of at most the rounded-up binary logarithm of n |
| `BatchTranslator.CostIsReached` | scripts/control-ui-i18n.ts:1393-1409 | both bounds, of prompts and of split depth, are reached by one run of a provider that fails each first attempt and then times out while two or more items are left |
| `BatchTranslator.TranslateFailure` | scripts/control-ui-i18n.ts:1410-1422 | a batch fails only with the error of the last prompt it issued, for a part of its items |
| `BatchTranslator.CeilLog2Bounds` | scripts/control-ui-i18n.ts:1395 | repeated halving with rounding up is the rounded-up binary logarithm |
| `ProcessRun.CaptureIsTail` | scripts/control-ui-i18n.ts:974-985 | for every chunking the capture is the newest characters of the whole stream and counts exactly the dropped ones |
| `ProcessRun.CaptureIsTailIff` | scripts/control-ui-i18n.ts:974-985 | that holds for every stream exactly when the limit is positive |
| `ProcessRun.OutputLimit` | scripts/control-ui-i18n.ts:966-972 | the default for an absent or non-positive limit, otherwise the whole part of the limit, and at least one |
| `ProcessRun.RunExplained` | scripts/control-ui-i18n.ts:1010-1166 | in every interleaving every closure variable, both captures, the sent signals and the settlement included, is a function of the trace |
| `ProcessRun.SettlesAtMostOnce` | scripts/control-ui-i18n.ts:1076-1087 | the promise settles at most once, exactly when a settling event has happened |
| `ProcessRun.SettlementIsFinal` | scripts/control-ui-i18n.ts:1076-1087 | no later event changes the settlement |
| `ProcessRun.CloseNeverStranded` | scripts/control-ui-i18n.ts:1119-1133 | a received close that is not settled has the kill timer armed, and the timer settles it |
| `ProcessRun.TimedOutNeverResolves` | scripts/control-ui-i18n.ts:1088-1096 | a run whose timeout fired never resolves |
| `ProcessRun.ResolvedOutput` | scripts/control-ui-i18n.ts:1088-1117 | a resolve hands out a tail of the concatenated stdout, and with code 0 all of it |
| `ProcessRun.ResolvesIff` | scripts/control-ui-i18n.ts:1088-1117 | exactly when a settled run resolves |
| `ProcessRun.SettlementIs` | scripts/control-ui-i18n.ts:1088-1158 | from the trace: which settlement it is; a rejection for a failed exit carries the trimmed stderr, else the trimmed stdout, else the signal; a resolve carries the child's code, or 1 without one, and both streams as the limit shows them |
| `ProcessRun.SignalsEscalate` | scripts/control-ui-i18n.ts:1018-1142 | in every run the group gets SIGTERM at the timeout and SIGKILL only after it, with the first parent signal of an open promise in its place among them and no other |
| `ProcessRun.Supervisor.SettleWith` | scripts/control-ui-i18n.ts:1076-1087 | settles once, disarms both timers and stops relaying |
| `ProcessRun.Supervisor.FinishClose` | scripts/control-ui-i18n.ts:1088-1117 | settles with the verdict on the close, which `ProcessRun.SettlementIs` explains from the trace |
| `ProcessRun.Supervisor.OnStdout` | scripts/control-ui-i18n.ts:1144-1146 | a stdout chunk keeps the variables those of the run |
| `ProcessRun.Supervisor.OnStderr` | scripts/control-ui-i18n.ts:1147-1149 | a stderr chunk keeps the variables those of the run |
| `ProcessRun.Supervisor.OnTimeout` | scripts/control-ui-i18n.ts:1119-1142 | the timeout keeps the variables those of the run |
| `ProcessRun.Supervisor.OnKillTimer` | scripts/control-ui-i18n.ts:1124-1132 | the kill timer keeps the variables those of the run |
| `ProcessRun.Supervisor.OnClose` | scripts/control-ui-i18n.ts:1160-1166 | a close, deferred or not, keeps the variables those of the run |
| `ProcessRun.Supervisor.OnError` | scripts/control-ui-i18n.ts:1150-1154 | a spawn error keeps the variables those of the run |
| `ProcessRun.Supervisor.OnParentSignal` | scripts/control-ui-i18n.ts:1051-1063 | a relayed parent signal keeps the variables those of the run |
| `CommandSupervisor.RunExplained` | scripts/openclaw-cross-os-release-checks.ts:51-83 | in every interleaving registry, exit, armed timer, kills and forwards are functions of the trace |
| `CommandSupervisor.RegistryIsLive` | scripts/openclaw-cross-os-release-checks.ts:3572-3581 | the kill registry is exactly the children spawned and neither closed nor errored |
| `CommandSupervisor.SignalsReachLiveChildren` | scripts/openclaw-cross-os-release-checks.ts:67-83 | each signal is forwarded to exactly the children live when it arrives |
| `CommandSupervisor.FirstSignalDecides` | scripts/openclaw-cross-os-release-checks.ts:69 | the exit code is 128 plus the number of the first signal and never changes |
| `CommandSupervisor.ExitLeavesNoKnownChild` | scripts/openclaw-cross-os-release-checks.ts:70-81 | at exit every child registered at the first signal is gone or was sent SIGKILL |
| `CommandSupervisor.ExitOrphans` | scripts/openclaw-cross-os-release-checks.ts:70-81 | an exit leaves behind exactly the live children spawned after the first signal that have not timed out |
| `CommandSupervisor.OrphanExample` | scripts/openclaw-cross-os-release-checks.ts:73-81 | a run that leaves such a child |
| `CommandSupervisor.SignalLeadsToExit` | scripts/openclaw-cross-os-release-checks.ts:77-82 | after a signal the process has exited or the force-kill timer is armed and exits with the first signal's code |
| `CommandSupervisor.ChildrenExplained` | scripts/openclaw-cross-os-release-checks.ts:3809-3966 | in every interleaving every variable of a command is determined by its events and the first signal |
| `CommandSupervisor.ResolvesIff` | scripts/openclaw-cross-os-release-checks.ts:3861-3963 | a command resolves with a code if and only if its log ended well, what finalized it is a close with that code before any signal, it had not timed out, and the code is accepted |
| `CommandSupervisor.SettlementIs` | scripts/openclaw-cross-os-release-checks.ts:3861-3963 | a command settles when its log ends, and which settlement it is follows from how the log ended, what finalized the command, its timeout and whether its code is checked |
| `CommandSupervisor.FinalizedByFirst` | scripts/openclaw-cross-os-release-checks.ts:3861-3874 | what finalizes a command is the first finalizing event of its trace |
| `CommandSupervisor.SettlesAtMostOnce` | scripts/openclaw-cross-os-release-checks.ts:3861-3874 | a command's promise settles at most once |
| `CommandSupervisor.TimedOutNeverResolves` | scripts/openclaw-cross-os-release-checks.ts:3943-3947 | a timed-out command never resolves |
| `CommandSupervisor.CloseAfterSignalNeverResolves` | scripts/openclaw-cross-os-release-checks.ts:3932-3936 | only a close delivered before the first signal can lead to a resolve |
| `CommandSupervisor.TimedOutIsFinalized` | scripts/openclaw-cross-os-release-checks.ts:3895-3914 | a timed-out command is never stuck: its second timer is armed until it is finalized, and firing it finalizes |
| `CommandSupervisor.Supervisor.SpawnChild` | scripts/openclaw-cross-os-release-checks.ts:3806-3836 | spawning keeps the variables those of the run |
| `CommandSupervisor.Supervisor.OnSignal` | scripts/openclaw-cross-os-release-checks.ts:67-83 | the signal handler keeps the variables those of the run |
| `CommandSupervisor.Supervisor.OnForceKill` | scripts/openclaw-cross-os-release-checks.ts:77-82 | the force-kill timer keeps the variables those of the run |
| `CommandSupervisor.Supervisor.OnTimeout` | scripts/openclaw-cross-os-release-checks.ts:3895-3914 | the timeout keeps the variables those of the run |
| `CommandSupervisor.Supervisor.OnKillWait` | scripts/openclaw-cross-os-release-checks.ts:3901-3911 | the second timer keeps the variables those of the run |
| `CommandSupervisor.Supervisor.OnClose` | scripts/openclaw-cross-os-release-checks.ts:3932-3963 | a close keeps the variables those of the run |
| `CommandSupervisor.Supervisor.OnError` | scripts/openclaw-cross-os-release-checks.ts:3927-3930 | an error keeps the variables those of the run |
| `CommandSupervisor.Supervisor.OnLogFinished` | scripts/openclaw-cross-os-release-checks.ts:3847-3874 | the log stream's end settles with the verdict and keeps the variables those of the run |
| `RestartProbe.KeyTextInjective` | scripts/bench-gateway-restart.ts:682 | comparing state texts is comparing status and kind |
| `RestartProbe.StateKeyIff` | scripts/bench-gateway-restart.ts:682-696 | the state changes exactly when status or error kind do, so a changed kind under one status is a transition; the transition records that attempt |
| `RestartProbe.WaitForRestartProbe` | scripts/bench-gateway-restart.ts:643-728 | the loop stops where the rules say and reports what the attempts alone determine |
| `RestartProbe.ReportsTimeIff` | scripts/bench-gateway-restart.ts:706-727 | a time is reported exactly when the probe recovered, or never failed and succeeded once; a downtime exactly when it recovered |
| `RestartProbe.ReportIs` | scripts/bench-gateway-restart.ts:697-727 | the whole report from the attempts: last status, times of the last request where they are due, downtime from the first failure |
| `RestartProbe.RecoveredOutage` | scripts/bench-gateway-restart.ts:700-718 | on recovery the outage is one solid stretch from the first failure to the last request, and the downtime is its non-negative length |
| `RestartProbe.FirstKindMeaning` | scripts/bench-gateway-restart.ts:697-699 | the reported kind is that of the first attempt with a non-empty one |
| `RestartProbe.TransitionsAreRuns` | scripts/bench-gateway-restart.ts:682-696 | the attempts fall into maximal runs of one status and error kind, and the transitions are the first attempts of the runs |
| `OutputLines.SplitCuts` | scripts/bench-gateway-restart.ts:1086-1092 | the parts are the lines of the text, each with its own line ending removed, and the unfinished rest |
| `OutputLines.CutsUnique` | scripts/bench-gateway-restart.ts:1086-1092 | a text has only one such cut |
| `OutputLines.CollectOutputLines` | scripts/bench-gateway-restart.ts:1086-1092 | the lines handed on and the carry cut the old carry with the chunk behind it |
| `OutputLines.ChunkingDoesNotMatter` | scripts/bench-gateway-restart.ts:1086-1092 | for every way of cutting a text into chunks, even between carriage return and line feed, all lines and the last carry are the cut of the whole text |
| `OutputLines.OutputBuffers.OnChunk` | scripts/bench-gateway-restart.ts:1369-1385 | whatever the interleaving of the streams, each stream's lines and its buffer cut its own text |
| `OutputLines.OutputBuffers.FlushBuffers` | scripts/bench-gateway-restart.ts:1094-1111 | a partial flush hands on each non-empty rest once, stdout first, and empties both buffers |
| `ProcessTree.ReadProcessTreeCpuMs` | scripts/bench-gateway-restart.ts:956-1004 | the total is the CPU time of exactly the non-zero processes reachable from the root, each once, for any rows |
| `ProcessTree.CollectRows` | scripts/bench-gateway-restart.ts:968-984 | the two maps hold the children in row order and the last CPU time of each process |
| `ProcessTree.CpuIsLast` | scripts/bench-gateway-restart.ts:968-984 | the CPU time of a process is that of its last row |
| `ProcessTree.SumCpuInsert` | scripts/bench-gateway-restart.ts:998 | the sum over a set does not depend on the order of its elements |
| `ProcessTree.CycleExample` | scripts/bench-gateway-restart.ts:990-1003 | two processes that are each other's parents, one listed twice, are counted once each |
| `ArgumentScanner.QuoteScanState.BeginQuotedSection` | scripts/check-temp-path-guardrails.ts:47-53 | opens a quote and nothing else |
| `ArgumentScanner.QuoteScanState.ConsumeQuotedChar` | scripts/check-temp-path-guardrails.ts:55-71 | inside quotes, and only there, steps the quote automaton |
| `ArgumentScanner.FindMatchingParen` | scripts/check-temp-path-guardrails.ts:73-96 | returns the first closing parenthesis that balances the one at the given position, or -1 when there is none |
| `ArgumentScanner.SplitTopLevelArguments` | scripts/check-temp-path-guardrails.ts:98-162 | the loop computes the trimmed pieces between top-level commas |
| `ArgumentScanner.CutAppend` | scripts/check-temp-path-guardrails.ts:98-162 | cutting a text is cutting its beginning and going on with the rest |
| `ArgumentScanner.QuotedSkipped` | scripts/check-temp-path-guardrails.ts:47-71 | a quoted text, with quotes and backslashes escaped, changes neither scanner, whatever brackets and commas it holds |
| `ArgumentScanner.PlainParens` | scripts/check-temp-path-guardrails.ts:73-96 | without quotes the depth is the number of opening less closing parentheses |
| `ArgumentScanner.PlainNesting` | scripts/check-temp-path-guardrails.ts:114-149 | without quotes each kind of bracket is counted by itself, and a closing bracket never counts below zero |
| `ArgumentScanner.RoundTrip` | scripts/check-temp-path-guardrails.ts:73-162 | printed in parentheses after any prefix and before any suffix, safe arguments are found and split back exactly |
| `ArgumentScanner.ArgumentsJoined` | scripts/check-temp-path-guardrails.ts:98-162 | safe arguments joined by comma and space are split back exactly |
| `ArgumentScanner.EnclosedCloses` | scripts/check-temp-path-guardrails.ts:73-96 | behind an opening parenthesis an enclosed text is followed by the matching one |
| `ArgumentScanner.SurvivesIff` | scripts/check-temp-path-guardrails.ts:73-162 | a trimmed argument survives next to another if and only if it is safe |
| `ReadPool.Pool.Claims` | scripts/check-temp-path-guardrails.ts:233-244 | a worker claims the next indices, skipping empty paths, up to its next read or its return |
| `ReadPool.Pool.Resume` | scripts/check-temp-path-guardrails.ts:232-255 | a worker stores what it read at the index it claimed and goes on |
| `ReadPool.ReadRuntimeSourceFiles` | scripts/check-temp-path-guardrails.ts:223-263 | under every schedule the pool ends, each index is claimed exactly once, and the files are those of a sequential read, in order |
| `ReadPool.PresentIsSequential` | scripts/check-temp-path-guardrails.ts:262 | dropping the missing entries of the output gives the sequential read |
| `ReadPool.SequentialIs` | scripts/check-temp-path-guardrails.ts:223-263 | that read has one file for each non-empty path that can be read, in the order of the paths |
| `ReadPool.WorkerCount` | scripts/check-temp-path-guardrails.ts:257-261 | one worker for a path, but at least one and at most 24 |
| `ImportClosure.ResolveInstalledDistRelativeImport` | scripts/openclaw-npm-postpublish-verify.ts:228-262 | the first of the seven candidates that exists inside the dist directory |
| `ImportClosure.ResolveIff` | scripts/openclaw-npm-postpublish-verify.ts:228-262 | a specifier resolves to a path exactly when it starts with a dot and the path is the first that exists inside among the joined path, the same with .js, .mjs and .cjs, and the index files of that directory with these extensions |
| `ImportClosure.EdgeIff` | scripts/openclaw-npm-postpublish-verify.ts:296-312 | a file leads to exactly the files that its specifiers resolve to |
| `ImportClosure.FirstInside` | scripts/openclaw-npm-postpublish-verify.ts:247-261 | a result is an existing candidate inside, and there is none exactly when no candidate is |
| `ImportClosure.FirstInsideIsFirst` | scripts/openclaw-npm-postpublish-verify.ts:247-261 | no candidate before the chosen one qualifies |
| `ImportClosure.CheckFile` | scripts/openclaw-npm-postpublish-verify.ts:278-312 | an error is true of the file; without one the file is self-contained and its resolved imports are returned |
| `ImportClosure.ReachableInside` | scripts/openclaw-npm-postpublish-verify.ts:247-261 | everything reachable but the entry exists inside the dist directory |
| `ImportClosure.CollectInstalledPluginSdkZodArtifactErrors` | scripts/openclaw-npm-postpublish-verify.ts:264-317 | no error if and only if every file reachable from the entry is self-contained; an error names a reachable offender; the missing-file error exactly for a missing entry; cyclic imports terminate |
| `CanonicalJson.StringifyInjective` | scripts/protocol-gen-swift.ts:164-166 | equal JSON texts are texts of equal values |
| `CanonicalJson.StableKeeps` | scripts/protocol-gen-swift.ts:149-162 | sorting keys at every level keeps the meaning and yields the canonical form |
| `CanonicalJson.CanonicalUnique` | scripts/protocol-gen-swift.ts:149-162 | values of one meaning have one canonical form |
| `CanonicalJson.SignatureIff` | scripts/protocol-gen-swift.ts:149-166 | signatures agree if and only if the schemas are equal up to the order of object keys |
| `SchemaRegistry.Registry.RegisterNamedSchema` | scripts/protocol-gen-swift.ts:168-180 | keeps names for exactly the signatures registered once and duplicates for exactly those registered more often |
| `SchemaRegistry.Registry.NamedSchema` | scripts/protocol-gen-swift.ts:182-187 | exactly which name is returned: the object's own, otherwise that of the only definition of the same meaning when structure may decide; the definition behind it always means the same |
| `SchemaRegistry.RegisterAll` | scripts/protocol-gen-swift.ts:144-180 | after any sequence of registrations a shape is named exactly when it occurred once and a duplicate exactly when it occurred twice or more |
| `SchemaRegistry.OccurrencesMean` | scripts/protocol-gen-swift.ts:168-180 | counting signatures is counting meanings |
| `DiscriminatedUnion.EmitDiscriminatedUnion` | scripts/protocol-gen-swift.ts:447-536 | the search loop computes the specified union |
| `DiscriminatedUnion.LiteralIff` | scripts/protocol-gen-swift.ts:404-412 | a property has a literal exactly when it has that constant or, without a constant, lists that one value and it is not null; it admits nothing else |
| `DiscriminatedUnion.EmittedIff` | scripts/protocol-gen-swift.ts:447-498 | a union is emitted if and only if there are two or more object branches that some property of the first branch tells apart |
| `DiscriminatedUnion.FirstUnionIff` | scripts/protocol-gen-swift.ts:456-498 | the discriminator is the first property that tells the branches apart |
| `DiscriminatedUnion.SeparatesIff` | scripts/protocol-gen-swift.ts:483-490 | the set-size test is pairwise difference, and the type test holds for all literals |
| `DiscriminatedUnion.EmittedSound` | scripts/protocol-gen-swift.ts:477-508 | one arm per branch, literals pairwise distinct and of one Swift type, which is never AnyCodable |
| `DiscriminatedUnion.EmittedArm` | scripts/protocol-gen-swift.ts:457-472 | arm i carries the name of branch i and its literal for the discriminator |
| `DiscriminatedUnion.ArmAdmits` | scripts/protocol-gen-swift.ts:457-498 | the literal of arm i is the only value that branch i admits for the discriminator |
| `DiscriminatedUnion.TypeIsNarrowest` | scripts/protocol-gen-swift.ts:414-424 | the Swift type of a literal decodes it and is the narrowest that does; only null needs AnyCodable |
| `DiscriminatedUnion.TextsTell` | scripts/protocol-gen-swift.ts:483-490 | literals of one Swift type differ exactly when their texts do |
| `DiscriminatedUnion.DecodesTo` | scripts/protocol-gen-swift.ts:515-525 | an object decodes to a value of branch i if and only if its discriminator is literal i and the struct of the branch decodes it to that value |
| `DiscriminatedUnion.ValidGoesTo` | scripts/protocol-gen-swift.ts:515-525 | an object whose discriminator branch i admits goes to branch i, and the struct of the branch decides |
| `DiscriminatedUnion.DecodeFailsIff` | scripts/protocol-gen-swift.ts:500-525 | decoding throws if and only if no branch's literal is carried, or the struct of the branch it names throws |
| `DiscriminatedUnion.RoundTripIff` | scripts/protocol-gen-swift.ts:515-533 | a value survives encoding and decoding if and only if its struct round-trips and writes its branch's literal |
| `DiscriminatedUnion.DefaultIff` | scripts/protocol-gen-swift.ts:491-508 | the default arm is left out if and only if the other arms cover every value of the type |
| `ProtocolUnion.NameBranches` | scripts/protocol-gen-swift.ts:461 | each branch gets exactly the name the registry has for its object or, failing that, for the only definition of its meaning |
| `ProtocolUnion.UnionIff` | scripts/protocol-gen-swift.ts:447-498 | a union is emitted if and only if there are two or more objects, each registered or of a meaning registered once and named by a non-empty name, that some property of the first tells apart |
| `ProtocolUnion.UnionFits` | scripts/protocol-gen-swift.ts:457-472 | the arms carry the candidates' names and literals, one each, in order |
| `ProtocolUnion.UnionAdmits` | scripts/protocol-gen-swift.ts:457-498 | the literal of arm i is the only value that candidate i admits for the discriminator |
| `ProtocolUnion.EmitUnion` | scripts/protocol-gen-swift.ts:447-536 | on the registry's names: exactly when a union is emitted; every arm decodes into a definition that means what its branch means, and its literal is the only value its branch admits |
| `SparkleBuild.ScanIff` | scripts/sparkle-build.ts:13 | the version expression accepts exactly the printed well-formed fields and reads them back |
| `SparkleBuild.LegacyKeyArithmetic` | scripts/sparkle-build.ts:41-43 | the concatenated key in arithmetic form, for a patch of any length |
| `SparkleBuild.LegacyFloorsArithmetic` | scripts/sparkle-build.ts:93-96 | concatenating a zero or the padded lane is multiplying by ten or a hundred and adding |
| `SparkleBuild.OrderIff` | scripts/sparkle-build.ts:49-97 | builds rise strictly with year, month, patch and lane from a version on if and only if its patch is within the cap of its encoding (or no later month exists) |
| `SparkleBuild.BuildEmbedsOrder` | scripts/sparkle-build.ts:20-97 | across both encodings and the switch, capped versions compare exactly as their builds do |
| `SparkleBuild.BeyondCap` | scripts/sparkle-build.ts:41-47 | a patch beyond the cap builds at or above the first version of the next month |
| `SparkleBuild.SuffixedBelowStable` | scripts/sparkle-build.ts:71-80 | every suffixed version text, padded or not, builds strictly below every stable text of the same patch |
| `SparkleBuild.BuildExact` | scripts/sparkle-build.ts:20-104 | the build number of every version text: for a suffix that ends in a numeral the lane is its value, at most 89; for another suffix 1; without a suffix 90 |
| `SparkleBuild.BuildsIff` | scripts/sparkle-build.ts:49-70 | exactly the spelled versions with a month from 1 to 12 have a build number |
| `SparkleBuild.NumberedOrder` | scripts/sparkle-build.ts:71-80 | of two numbered versions of one patch, whatever their heads, the one with the smaller number builds strictly below, up to 89 |
| `MarkedBlock.FailsIff` | scripts/sync-moonshot-docs.ts:22-29 | the rewrite fails exactly when the start marker is missing or no end marker follows it |
| `MarkedBlock.OutsideKept` | scripts/sync-moonshot-docs.ts:31-52 | the text before the start-marker line and behind the end-marker line is kept; between them stands the new block |
| `MarkedBlock.LineInserted` | scripts/sync-moonshot-docs.ts:41-47 | every inserted line stands in its place, with the indent and a line end |
| `MarkedBlock.IdempotentIff` | scripts/sync-moonshot-docs.ts:16-52 | the same rewrite again changes nothing if and only if the end marker occurs neither in the start marker nor in an indented line |
| `MarkedBlock.ForgetsIff` | scripts/sync-moonshot-docs.ts:16-52 | under exactly that condition a second rewrite, whatever it inserts, gives what it would have given without the first |

## Left out

- Nested translation objects are values here (`NestedKeys.SetPath` returns the changed object); the sharing of objects that `setNestedValue` mutates in place is not modelled.
- Property names that JavaScript objects inherit: `setNestedValue` walks into a shared built-in object when such a name stands before the last segment of a key (`constructor.label`), and loses the key or throws; the models treat these names like any other. Also the reordering of integer-like property names in translation objects.
- Files, the network, subprocesses and `ps` output: their contents are parameters or events. Dynamic import, oxfmt and printing are taken to be faithful, so a file is what it parses to and whether its bytes are canonical.
- Cache keys (SHA-256 of key, text hash and locale) are a parameter without collisions, text hashes an arbitrary function, and `localeCompare` any total preorder: different strings may be equal under it.
- The language model is an oracle from prompt number and items to parsed values or an error; prompt texts, progress logging and retry delays are left out. So is the splitting of the memory file into lines and its JSON parsing.
- Placeholder comparison is a parameter; `SyncRun.FixpointIff` asks that a text matches itself.
- Time is a parameter (`generatedAt`, `updated_at`) or an event; timers may fire at any moment while armed.
- Whether a kept translation still matches the English text is not claimed: the code keeps an existing text when the source text changed.
- Windows `taskkill` branches, process-group id reuse, and heartbeats. Log-stream errors before a command is finalized are left out; one failure at its end is an event.
- The byte-bounded capture of `appendBoundedCommandOutput`, which is an exact tail only on ASCII text.
- Decoding of partial UTF-8 chunks: the models work on characters.
- The benchmark's event list and its other measurements.
- The other checks of the guardrail (comment stripping, tmpdir detection, weak randomness) and `git` listing.
- A read in `ReadPool` returns one result per position; the order in which reads complete is arbitrary, their timing is not modelled.
- `node:path` functions are parameters of `ImportClosure`; the import extractor is given as its result, and a file that cannot be read after it was seen is left out.
- Swift source layout and case names, which the generator does not keep distinct; in discriminators a number that is not whole stands for its printed text, and `undefined` values in schemas are left out.
- Swift compares strings by canonical equivalence, the generator and the model by code units: two literals that differ only in that respect share an arm of the generated decoder.
- The fields of an object that a generated decoder reads are literals; nested values do not take part in the dispatch, and the struct coders behind it are arbitrary.
- Numbers beyond 2^53 in version texts, which the code reads inexactly.
- Start markers that are empty or begin with a line end, and end markers that are empty or contain one: `MarkedBlock.ReplaceBlockLines` and `MarkedBlock.FailsIff` cover them, `MarkedBlock.OutsideKept` covers every end marker, the laws about rewriting twice cover neither. The repository's markers are one-line comments.
- Command lines, usage texts, reports, installers, GitHub and Discord clients: easy or bound to input and output.
