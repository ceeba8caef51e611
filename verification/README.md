# Tool Evolver: proofs about its core algorithms

A Dafny model of the hardest small algorithms and state machines of the repository, and
proofs of what they promise. Each file models one piece; each piece can be read alone.
`dafny verify dfyconfig.toml` checks everything.

| files | piece |
|---|---|
| `schema_diff.dfy`, `schema_meaning.dfy`, `schema_findings.dfy`, `schema_soundness.dfy` | the semantic schema diff, the set of values a descriptor accepts, what a diff lists, and soundness |
| `canonical_text.dfy`, `canonical_json.dfy`, `canonical_unique.dfy`, `canonical_grammar.dfy`, `canonical_graph.dfy`, `canonical_faults.dfy` | canonical JSON: strings, values, unambiguity, the text spelled out, the cycle check on object graphs, and which error is raised |
| `startup_order.dfy`, `supervisor.dfy`, `supervisor_outcome.dfy`, `restart_budget.dfy` | daemon modules: start and stop order, rollback, restart budget |
| `utf8.dfy`, `transcript_lines.dfy`, `tailers.dfy`, `tail_runs.dfy`, `tail_bytes.dfy`, `tail_overlap.dfy`, `tail_rotation.dfy` | the three transcript tailers and exactly-once delivery: over whole characters, over single bytes, with reads that overlap, and with a file replaced |
| `lock.dfy` | the single-instance lock as steps of many processes over one file |
| `token_bucket.dfy`, `in_flight.dfy`, `gateway.dfy`, `admission.dfy`, `admission_steps.dfy`, `admission_reference.dfy`, `id_reuse.dfy` | gateway admission: token bucket, request table, concurrency caps |
| `text_search.dfy`, `managed_block.dfy`, `managed_block_clean.dfy`, `toml_section.dfy`, `toml_laws.dfy`, `toml_verifier.dfy` | the two text editors |
| `decoder.dfy`, `decoder_chain.dfy`, `decoder_names.dfy`, `decoder_reference.dfy` | the Codex decoder's causal chain, call names and events |
| `statistics.dfy` | Wilson interval and interpolated quantiles over exact reals |
| `wrappers.dfy`, `sequences.dfy`, `reals.dfy` | what several pieces share |

Code that works by changing things step by step is a class or a method with loops, proved
against a specification function; the laws are lemmas about that function or about whole
runs of it.

## What the proofs found

Where a promise does not hold of the code as written, the code is modelled as it is, and
the exact condition is proved.

- Schema diff: key and value sets are plain JavaScript objects, so names such as
  `constructor` or `toString` count as present. A new required field or a dropped enum value
  with such a name is not reported (`HiddenBreakExample`), nor is a part the comparer never
  reads, such as the bounds of an array (`UnreadBoundExample`); the verdict is sound exactly
  when no old value reaches such a place (`DiffSoundIff`). Non-breaking is transitive
  exactly through descriptors whose arrays name their items (`DiffTransitiveIff`,
  `TransitivityExample`).
- Startup order: a module whose id is empty makes the start report a cycle, because the loop
  that takes ids from the queue stops at an empty one (`OrderEmptyId`).
- Supervisor: a module whose start failure was tolerated is marked degraded and is told to
  stop at shutdown although it never started (`StopCoversStart`, `StopsWhatNeverStarted`). A
  failed ordering, which happens exactly when the modules cannot be ordered (`Start`,
  `Stop`), leaves the supervisor in state `starting`, so that every later start is refused,
  and one during shutdown fails every later stop (`OrderingFails`).
- Lock: no live holder judged stale, atomic creation and no heartbeat in flight at release
  are not enough. Two processes that judge the same stale file can both end up holding the
  lock (`RecoverersRace`). With a fourth condition, that a process removes only the file it
  looked at, mutual exclusion holds (`MutualExclusion`), and none of the four can be dropped
  (`EachIsNeeded`). Heartbeats may overlap, and then the time in the file can go back
  (`HeartbeatGoesBack`).
- Tailers: the Oh My Pi and Codex tailers have no guard against overlapping reads; two that
  overlap deliver a line twice exactly when both fetched a complete line that is not blank
  (`OverlapTwiceIff`), and move the offset by both batches, so that it is right only if no
  complete line was waiting (`OverlapDelivers`, `OverlapIff`, for every batch size). With a
  line written twice and batches of one, the second line is never read (`OverlapRepeats`).
  The Claude Code tailer's guard keeps delivery exactly once (`GuardedExactlyOnce`). The Oh
  My Pi tailer numbers records by line, blank lines counted.
- Tailers: rotation is noticed by size alone. A file replaced by a shorter one is read from
  its start (`RotationRestarts`); one replaced by a file at least as long is read from the
  old offset, and what stands before that is never read (`RereadIff`, `MissedReplacement`).
- Request table: completion goes by request id. A handler that finishes after its id was
  given to a new request drops the new request from the table (`ReuseLosesRequest`); this is
  the only way the table goes wrong (`TableIff`). The caps on tracked requests hold
  regardless (`CapsHold`).
- Managed block: applying the same block again is not a no-op when text follows the block:
  the file grows by a newline each time (`ReapplyIff`, `ReapplyExample`). A stray marker in
  the file hides the block or takes text into it (`InsertFoundIff`).
- TOML section: an empty url is written but never recognised, so a second update changes a
  freshly appended section again (`UpdateTwiceIff`), and the verifier refuses the file
  unless it has a url line outside the section (`VerifyIff`, `EmptyUrlExample`). Replacing a
  section drops its other keys (`ReplacedParts`, `LosesKeyExample`), although the function's
  comment speaks of preserving structure.
- Decoder: a record that throws after taking a header spends a sequence number without
  emitting an event, and leaves a gap for a caller that goes on (`UnbrokenIff`,
  `BrokenChainExample`): content with a null part or an inline call that is null or whose id
  cannot be turned into a string does so. A readable call in front of an unreadable one is
  remembered without being emitted, and a later result can take its name (`NamesRightIff`,
  `LostCallExample`). A line that is the JSON text `null` throws.
- Token bucket: with refill rate zero a refused request is told to wait forever, and waiting
  indeed never helps.

## Model

| member | source | states |
|---|---|---|
| `SchemaDiff.SchemaDiffer.CompareDescriptors` | fixtures/test-fixtures/src/schema-diff.ts:321-588 | the recursive comparer appends exactly the changes of the pair, in order, whatever the depth |
| `SchemaDiff.SchemaDiffer.ComparePresence` | fixtures/test-fixtures/src/schema-diff.ts:353-397 | optional-to-required and nullable-to-strict are reported, with the loosenings |
| `SchemaDiff.SchemaDiffer.CompareProperties` | fixtures/test-fixtures/src/schema-diff.ts:399-451 | removed, added and common properties, seen through key sets that are plain objects |
| `SchemaDiff.SchemaDiffer.CompareVariants` | fixtures/test-fixtures/src/schema-diff.ts:453-489 | removed and added enum values, seen through the same kind of key set |
| `SchemaDiff.SchemaDiffer.CompareConstraints` | fixtures/test-fixtures/src/schema-diff.ts:498-587 | bounds and patterns, tightened or loosened |
| `SchemaDiff.RollUp` | fixtures/test-fixtures/src/schema-diff.ts:592-620 | breaking exactly when some change is; additive exactly when none is breaking or conditional; the counts add up to the total |
| `SchemaFindings.DiffSchemaDescriptors` | fixtures/test-fixtures/src/schema-diff.ts:313-620 | the verdict of the whole comparison: breaking exactly when the structural comparison fails, else conditionally compatible exactly when a required part may now be left out, else additive |
| `SchemaFindings.AssertCompatible` | fixtures/test-fixtures/src/schema-diff.ts:701-725 | accepts exactly when the structural comparison passes and, unless allowed, no required part became omittable |
| `SchemaFindings.DiffFinds` | fixtures/test-fixtures/src/schema-diff.ts:321-588 | which changes are listed, each with its path, kind and category, read off the two descriptors at any depth |
| `SchemaFindings.ConditionalIff` | fixtures/test-fixtures/src/schema-diff.ts:367-376 | a conditionally compatible change is reported if and only if a required part that the comparison reaches may now be left out |
| `SchemaFindings.VariantsSpelledOut` | fixtures/test-fixtures/src/schema-diff.ts:455-490 | one change per enum value, the removed ones first |
| `SchemaFindings.LimitsSpelledOut` | fixtures/test-fixtures/src/schema-diff.ts:492-588 | a bound raised, a bound raised and a pattern lost, in order; an empty pattern lost is no change |
| `SchemaFindings.DiffSpelledOut` | fixtures/test-fixtures/src/schema-diff.ts:321-588 | the list for one pair of schemas, in order |
| `SchemaMeaning.VerdictMatchesChanges` | fixtures/test-fixtures/src/schema-diff.ts:321-588 | a diff reports a breaking change if and only if a structural comparison of the two descriptors finds one, at any depth |
| `SchemaSoundness.DiffSound` | fixtures/test-fixtures/src/schema-diff.ts:321-588 | a diff without breaking change means every value the old schema accepts is accepted by the new one, when no inherited name hides a change and no part the comparer never reads became tighter |
| `SchemaSoundness.DiffSoundIff` | fixtures/test-fixtures/src/schema-diff.ts:404-412 | for any two schemas, a diff without breaking change is sound if and only if, where some old value reaches, no field or enum value named like an inherited object property slips through the key sets and no part the comparer never reads (literals, integer flags, array bounds, union members, items of arrays that named none) became tighter |
| `SchemaSoundness.TightenedLoss` | fixtures/test-fixtures/src/schema-diff.ts:491-496 | where an unread part became tighter a value is lost |
| `SchemaSoundness.UnreadBoundExample` | fixtures/test-fixtures/src/schema-diff.ts:491-496 | raising the least length of an array gives an empty diff and loses the empty array; lowering it gives an empty diff and loses nothing |
| `SchemaSoundness.HiddenLoss` | fixtures/test-fixtures/src/schema-diff.ts:456-463 | when such a name hides a change, a value is lost: one the old schema accepts and the new one does not |
| `SchemaSoundness.InhabitedIff` | fixtures/test-fixtures/src/schema-diff.ts:399-451 | a descriptor has a value exactly when every property that is neither optional, nullable nor defaulted has one and every array may be empty or has items |
| `SchemaSoundness.HiddenBreakExample` | fixtures/test-fixtures/src/schema-diff.ts:404-435 | a new required field called constructor gives an empty diff and loses every old value |
| `SchemaSoundness.SelfDiffEmpty` | fixtures/test-fixtures/src/schema-diff.ts:321-588 | a descriptor compared with itself gives no change |
| `SchemaSoundness.NonBreakingTransitive` | fixtures/test-fixtures/src/schema-diff.ts:321-588 | the structural verdict composes |
| `SchemaSoundness.DiffTransitive` | fixtures/test-fixtures/src/schema-diff.ts:321-588 | if a to b and b to c are not breaking then neither is a to c, when arrays in b name their items |
| `SchemaSoundness.DiffTransitiveIff` | fixtures/test-fixtures/src/schema-diff.ts:491-496 | b composes with everything if and only if every array in it names its items |
| `SchemaSoundness.TransitivityExample` | fixtures/test-fixtures/src/schema-diff.ts:491-496 | arrays of strings, of anything, of numbers: both steps pass and the two together break |
| `CanonicalText.SortKeysIncreasing` | packages/contracts/src/canonical.ts:80-81 | key sorting gives the same keys in increasing UTF-16 order (section 3.2.3 of RFC 8785) |
| `CanonicalText.IncreasingUnique` | packages/contracts/src/canonical.ts:80-81 | there is one increasing order of a set of keys |
| `CanonicalText.ReadQuoted` | packages/contracts/src/canonical.ts:50-52 | a printed string, escapes and lone surrogates included, is read back exactly (section 7 of RFC 8259) |
| `CanonicalText.ReadPrintedInt` | packages/contracts/src/canonical.ts:43-48 | a printed integer is read back exactly |
| `CanonicalJson.ReadPrinted` | packages/contracts/src/canonical.ts:30-102 | a JSON reader takes exactly the printed text back to the value without its undefined parts, with anything behind it |
| `CanonicalUnique.RoundTrip` | packages/contracts/src/canonical.ts:30-102 | reading the canonical text of a value gives its normal form |
| `CanonicalUnique.EqualTextEqualNorm` | packages/contracts/src/canonical.ts:27-102 | equal texts come from equal values |
| `CanonicalUnique.EqualNormEqualText` | packages/contracts/src/canonical.ts:27-102 | values that differ only in key order, undefined properties and undefined items print alike |
| `CanonicalUnique.CanonicalIffSameNorm` | packages/contracts/src/canonical.ts:27-102 | two values print to the same text if and only if they are equal after dropping undefined properties, turning undefined items into null and ignoring key order |
| `CanonicalUnique.KeyOrderInvisible` | packages/contracts/src/canonical.ts:80-92 | the order properties were added in never shows |
| `CanonicalGraph.Serializer.Serialize` | packages/contracts/src/canonical.ts:30-99 | the recursive serializer with its set of open nodes: what it returns, that it ends, and that it leaves the set as it was |
| `CanonicalGraph.CanonicalJsonStringify` | packages/contracts/src/canonical.ts:27-103 | the entry point, undefined at the top included |
| `CanonicalGraphFacts.FailsIff` | packages/contracts/src/canonical.ts:43-98 | printing fails if and only if a cycle or an unprintable value can be reached from the root, and the error says which |
| `CanonicalFaults.FirstFaultWins` | packages/contracts/src/canonical.ts:30-99 | an error is raised if and only if it belongs to the fault met first in print order, objects before what they hold and keys sorted |
| `CanonicalFaults.FaultsReached` | packages/contracts/src/canonical.ts:65-95 | some place closes a cycle exactly when a cycle can be reached, and holds an unprintable value exactly when one can be |
| `CanonicalFaults.CyclicErrorIff` | packages/contracts/src/canonical.ts:65-95 | the cyclic error is raised if and only if the first fault closes a cycle; when nothing unprintable can be reached, if and only if a cycle can be; shared sub-objects never raise it |
| `CanonicalFaults.FirstFaultExample` | packages/contracts/src/canonical.ts:74-80 | an array that holds itself and a NaN: their order decides the error |
| `CanonicalGraphFacts.SuccessUnfolds` | packages/contracts/src/canonical.ts:65-95 | when printing succeeds the graph unfolds to a finite tree and its print is the text |
| `CanonicalGraphFacts.UnfoldingUnique` | packages/contracts/src/canonical.ts:65-95 | that tree is unique |
| `CanonicalGraphFacts.StringifyIsCanonical` | packages/contracts/src/canonical.ts:27-103 | the text of a graph is the canonical text of its unfolding |
| `CanonicalGraphFacts.StringifyUnambiguous` | packages/contracts/src/canonical.ts:27-103 | two graphs print alike if and only if their unfoldings are the same value |
| `CanonicalGrammar.CanonicalIff` | packages/contracts/src/canonical.ts:27-102 | the one text of a value, spelled out: the words, marks and separators, members that are defined in code-unit order of their keys, null for undefined items, and the word undefined at the top |
| `CanonicalGrammar.StringIff` | packages/contracts/src/canonical.ts:50-52 | a string is written between quotes with the short escapes, lower-case hex escapes for other control units and lone surrogates, and everything else as it is |
| `CanonicalGrammar.NumberIff` | packages/contracts/src/canonical.ts:43-48 | an integer is written in decimal without leading zeros |
| `CanonicalGrammar.PlainText` | packages/contracts/src/canonical.ts:50-52 | text without quotes, backslashes, control units and surrogates is written unchanged |
| `CanonicalGrammar.PrecedesIff` | packages/contracts/src/canonical.ts:80-81 | keys are compared by code units, a prefix first |
| `StartupOrder.CheckModules` | apps/observer/src/lifecycle.ts:84-101 | passes exactly with distinct ids and no missing dependency; otherwise names the first id that is registered again, or the first dependency that is missing and its module |
| `StartupOrder.BuildGraph` | apps/observer/src/lifecycle.ts:103-121 | in-degrees and dependent lists count every dependency once |
| `StartupOrder.SortModules` | apps/observer/src/lifecycle.ts:123-146 | the queue loop ends; what it emits has dependencies first and stands in the order in which the modules were freed, and what it leaves out is stuck |
| `StartupOrder.ComputeStartupOrder` | apps/observer/src/lifecycle.ts:83-154 | an order is returned if and only if ids are distinct and non-empty, nothing is missing and there is no cycle; it is a permutation with dependencies first, first freed first; a cyclic error lists, as registered, exactly the modules that a cycle keeps from starting |
| `StartupOrder.FreedOrderUnique` | apps/observer/src/lifecycle.ts:123-146 | there is one such order: by the module that frees, then by registration |
| `StartupOrder.OrderEmptyId` | apps/observer/src/lifecycle.ts:131-151 | one module whose id is the empty string and no dependencies: a cycle is reported, and there is none |
| `StartupOrder.OrderExcludesCycle` | apps/observer/src/lifecycle.ts:83-154 | a graph with a topological order has no cycle |
| `StartupOrder.StuckModulesCycle` | apps/observer/src/lifecycle.ts:148-151 | modules that all wait for one another contain a cycle |
| `StartupOrder.ComputeShutdownOrder` | apps/observer/src/lifecycle.ts:159-162 | the shutdown order exists exactly when a start order does, is that order from its end, and has dependents first |
| `StartupOrder.ReverseStops` | apps/observer/src/lifecycle.ts:159-162 | reversing a start order puts every dependent before what it depends on |
| `Supervisor.DaemonSupervisor.Start` | apps/observer/src/supervisor.ts:184-253 | which module calls a start makes, the states it leaves and its answer, for any pattern of failures; the ordering fails exactly when ids repeat or are empty, a dependency is missing or there is a cycle, and the error says which |
| `Supervisor.DaemonSupervisor.StartModules` | apps/observer/src/supervisor.ts:201-240 | starts follow the order and end at the first critical failure |
| `Supervisor.DaemonSupervisor.Rollback` | apps/observer/src/supervisor.ts:222-235 | every module that started is told to stop, even when a stop throws |
| `Supervisor.DaemonSupervisor.Stop` | apps/observer/src/supervisor.ts:258-313 | one shutdown per supervisor, whose outcome answers every later request; it fails exactly when the modules cannot be ordered, and else stops the active modules in shutdown order |
| `SupervisorFacts.OrderingFails` | apps/observer/src/supervisor.ts:184-266 | two modules that depend on each other: the first start leaves the state starting, the next is refused, and both stops fail |
| `Supervisor.DaemonSupervisor.ExecuteStop` | apps/observer/src/supervisor.ts:279-301 | one stop call per active module and the state it leaves |
| `SupervisorFacts.DependenciesSettleFirst` | apps/observer/src/supervisor.ts:203-213 | a module is started only after each of its dependencies has settled |
| `SupervisorFacts.RollbackStopsOnlyStarted` | apps/observer/src/supervisor.ts:222-235 | a rollback stops only modules that had started |
| `SupervisorFacts.RollbackStopsAllStarted` | apps/observer/src/supervisor.ts:222-235 | a rollback stops all modules that had started |
| `SupervisorFacts.RollbackReversesStarts` | apps/observer/src/supervisor.ts:222-235 | a rollback runs in reverse start order |
| `SupervisorFacts.DependentsStopFirst` | apps/observer/src/supervisor.ts:279-301 | a shutdown stops dependents before what they depend on |
| `SupervisorFacts.ShutdownReachesActive` | apps/observer/src/supervisor.ts:279-301 | a shutdown reaches every active module, each once |
| `SupervisorFacts.StopCoversStart` | apps/observer/src/supervisor.ts:203-301 | after a start, the modules a shutdown stops are those that reported an active state or whose tolerated failure left them degraded |
| `SupervisorFacts.StopsWhatNeverStarted` | apps/observer/src/supervisor.ts:219-301 | one module that tolerates its failure to start: it is told to stop |
| `SupervisorOutcome.StartOutcome` | apps/observer/src/supervisor.ts:203-253 | a start without critical failure, told by modules and failures: every module is called, tolerated failures are degraded, and the supervisor ends degraded exactly when a start failed or some state is degraded or failed, else ready |
| `SupervisorOutcome.AbortOutcome` | apps/observer/src/supervisor.ts:215-240 | a start with one: it ends at the first critical failure, which is the answer; what had started is stopped, and each module has its state |
| `SupervisorOutcome.ShutdownLeaves` | apps/observer/src/supervisor.ts:279-301 | a shutdown marks what it stops, stopped or failed, and nothing else |
| `SupervisorOutcome.CleanStart` | apps/observer/src/supervisor.ts:184-253 | a module that starts: ready, and a second start does nothing |
| `SupervisorOutcome.ToleratedStart` | apps/observer/src/supervisor.ts:215-246 | a module whose failure is tolerated: degraded |
| `RestartBudget.RestartBudgetTracker.CanRestart` | apps/observer/src/lifecycle.ts:170-179 | prunes to the window and answers by the count |
| `RestartBudget.RestartBudgetTracker.GetRemainingRestarts` | apps/observer/src/lifecycle.ts:188-196 | what is left, and nothing left exactly when no restart is allowed |
| `RestartBudget.KeptAnswersAsHistory` | apps/observer/src/lifecycle.ts:170-179 | the pruned list always answers as the full history would |
| `RestartBudget.BudgetHolds` | apps/observer/src/lifecycle.ts:167-201 | if every restart follows a yes, every closed window holds at most maxRestarts restarts |
| `RestartBudget.AllowedIff` | apps/observer/src/lifecycle.ts:170-179 | a restart is allowed if and only if the window up to now holds fewer than maxRestarts |
| `RestartBudget.Try` | apps/observer/src/lifecycle.ts:170-186 | asking and recording on the tracker is one step of the run, and touches no other module |
| `Tailers.ClaudeSessionEventSource.ReadNext` | adapters/claude-code/src/source.ts:62-65 | nothing happens when closed or already reading; otherwise one read step |
| `Tailers.ClaudeSessionEventSource.FetchRecords` | adapters/claude-code/src/source.ts:167-261 | the read step on the whole file, truncation included; the cursor becomes that of the last record |
| `Tailers.ClaudeSessionEventSource.ReadLines` | adapters/claude-code/src/source.ts:200-254 | the line loop stops when the batch is full and counts blank lines |
| `Tailers.OmpSessionEventSource.ReadNext` | adapters/omp/src/source.ts:72-177 | one read step from the byte offset |
| `Tailers.OmpSessionEventSource.ReadChunk` | adapters/omp/src/source.ts:116-176 | the newline loop takes complete lines only |
| `Tailers.CodexSessionEventSource.ReadNext` | adapters/codex-cli/src/source.ts:49-171 | one read step from the byte offset |
| `Tailers.CodexSessionEventSource.ReadText` | adapters/codex-cli/src/source.ts:77-84 | the trailing-newline case never adds a line |
| `Tailers.CodexSessionEventSource.ReadLines` | adapters/codex-cli/src/source.ts:86-160 | the line loop, blank lines skipped, offset moved once at the end |
| `Utf8.DecodeEncode` | adapters/claude-code/src/source.ts:194-195 | decoding what was encoded gives the text back |
| `Utf8.EncodeDrop` | adapters/codex-cli/src/source.ts:69-77 | the bytes behind a whole prefix decode to the text behind it |
| `Utf8.WholeAndTorn` | adapters/codex-cli/src/source.ts:69-77 | a file that stops anywhere in valid UTF-8 is whole characters and at most one torn one |
| `Utf8.TornDecodes` | adapters/codex-cli/src/source.ts:69-77 | a torn character decodes to the replacement character |
| `Utf8.BytesSpelledOut` | adapters/claude-code/src/source.ts:194-195 | the bytes of the first and last character of each length, written out |
| `Utf8.StrayByte` | adapters/claude-code/src/source.ts:194-195 | a byte of a longer character, alone, decodes to the replacement character |
| `TranscriptLines.SpaceIff` | adapters/omp/src/source.ts:135 | what trimming removes: the white space and line terminators of ECMA-262, one by one |
| `TextSearch.TrimIs` | adapters/omp/src/source.ts:135 | trimming takes away all the white space at both ends and nothing else |
| `TranscriptLines.AppendKeepsLines` | adapters/claude-code/src/source.ts:197-198 | appending to a file keeps every complete line, also when a chunk ends inside one |
| `TranscriptLines.TakenFillsBatch` | adapters/omp/src/source.ts:119-174 | a batch takes as many non-blank lines as asked for, or all that are left |
| `TailRuns.ExactlyOnce` | adapters/claude-code/src/source.ts:167-261 | over any interleaving of reads and appends of whole characters the offset is a line boundary and the records delivered are the non-blank complete lines before it, in order, none lost or repeated, with their numbers |
| `TailRuns.ReadDelivers` | adapters/omp/src/source.ts:72-177 | a read delivers as many ready lines as it may |
| `TailRuns.OmpSequence` | adapters/omp/src/source.ts:119-173 | the Oh My Pi tailer numbers a record by the line it came from, blank lines counted |
| `TailRuns.RecordAt` | adapters/codex-cli/src/source.ts:90-157 | each non-blank line has its record, made where the lines before it leave the reader |
| `TailRuns.SameDeliveries` | adapters/codex-cli/src/source.ts:232-244 | two readers apart by blank lines only deliver the same records ever after |
| `TailRuns.ResumeContinues` | adapters/claude-code/src/source.ts:93-102 | a new reader built from the cursor continues the same records and numbers, over any later appends and reads |
| `TailRotation.RecordSpelledOut` | adapters/codex-cli/src/source.ts:90-157 | each record spelled out: number, text and the cursor it carries, which points behind the line, or at its start for Codex |
| `TailRotation.RereadIff` | adapters/codex-cli/src/source.ts:58-62 | a file shorter than the offset is read from its start, with numbers going on for Codex and beginning again for the others; any other is read from the offset |
| `TailRotation.RotationRestarts` | adapters/omp/src/source.ts:92-97 | after a read that saw the file shorter, the reader delivers what a new reader of the new file delivers, over any later appends and reads |
| `TailRotation.MissedReplacement` | adapters/claude-code/src/source.ts:182-189 | a file replaced by another of the same size: its line is never read |
| `TailBytes.BytesAsText` | adapters/codex-cli/src/source.ts:69-84 | a file that grows byte by byte, wherever a read finds it, does to the reader what a run over whole characters does |
| `TailBytes.ExactlyOnceBytes` | adapters/omp/src/source.ts:72-177 | exactly once when bytes arrive in pieces of any size and reads happen inside a character, with the numbers of the records |
| `TailBytes.ResumeBytes` | adapters/codex-cli/src/source.ts:232-244 | a new reader built from the cursor continues the same records and numbers, wherever in the bytes the file stopped |
| `TailOverlap.OverlapDelivers` | adapters/omp/src/source.ts:72-177 | two overlapping unguarded reads, for all batch sizes: both batches are of lines from the old offset on, and the offset moves by the bytes of both |
| `TailOverlap.OverlapTwiceIff` | adapters/codex-cli/src/source.ts:49-171 | they deliver some line twice, counted by its place in the file, if and only if both fetched a complete line that is not blank |
| `TailOverlap.OverlapIff` | adapters/omp/src/source.ts:72-177 | for every batch size, two reads of the same bytes leave the numbers delivered and the offset as exactly once asks, if and only if no complete line was waiting |
| `TailOverlap.OverlapRepeats` | adapters/omp/src/source.ts:72-177 | a line written twice and batches of one: the first comes twice, the second never, and the offset is at the end of the file |
| `TailOverlap.OverlapExample` | adapters/codex-cli/src/source.ts:49-171 | the same at the file of two lines that read a |
| `TailOverlap.GuardedExactlyOnce` | adapters/claude-code/src/source.ts:167-170 | with the in-progress guard, delivery is exactly once however reads and appends overlap |
| `Lock.SafeIff` | apps/observer/src/lock.ts:102-231 | with whole creation and quiet release, all states of a run keep mutual exclusion if and only if no step removes the file of a live owner |
| `Lock.MutualExclusion` | apps/observer/src/lock.ts:102-289 | under four conditions, over every interleaving of any number of processes, each owner is the one the file names |
| `Lock.AtMostOneOwner` | apps/observer/src/lock.ts:102-183 | then at most one process holds the lock |
| `Lock.EachIsNeeded` | apps/observer/src/lock.ts:102-231 | dropping any one of the four conditions admits a run that ends with two owners |
| `Lock.RecoverersRace` | apps/observer/src/lock.ts:128-156 | two processes that judge one stale file: the slower removes the file the faster made |
| `Lock.LateHeartbeat` | apps/observer/src/lock.ts:128-140 | a live holder with a late heartbeat loses its file |
| `Lock.EmptyFile` | apps/observer/src/lock.ts:152-156 | a file created but not yet written looks corrupt and is removed, and what is then written is lost |
| `Lock.StrayHeartbeat` | apps/observer/src/lock.ts:188-231 | a heartbeat renamed into place after release overwrites the next file |
| `Lock.JudgedStaleIff` | apps/observer/src/lock.ts:236-289 | in every reachable state a live owner is judged stale exactly when its file cannot be read or its heartbeat is older than the threshold |
| `Lock.HeartbeatGoesBack` | apps/observer/src/lock.ts:188-212 | two heartbeats in flight that end in the other order leave the older time in the file |
| `Lock.AcquireAloneIsRun` | apps/observer/src/lock.ts:102-183 | an undisturbed acquire is what its steps do one after another |
| `Lock.InspectIff` | apps/observer/src/lock.ts:236-289 | a file is stale unless it can be read and names a live process whose heartbeat is not late, and only such a file makes acquire give up |
| `Lock.OpenThenWrite` | apps/observer/src/lock.ts:142-156 | opening the file and then writing it, with nothing in between, is creating it whole |
| `Lock.ComesTooLate` | apps/observer/src/lock.ts:157-171 | a process that finds the file already created changes nothing and answers already running with the holder, or fails if nobody holds the file |
| `Lock.AcquireAnswers` | apps/observer/src/lock.ts:115-183 | an undisturbed acquire gives up exactly before a held file, and is a recovery exactly when it replaces a file |
| `Lock.NextGetsLockIff` | apps/observer/src/lock.ts:115-123 | after one process takes the lock, another gets it exactly when the file cannot be read, the first is dead or its heartbeat is late; otherwise it is told who runs |
| `Lock.DaemonLock.Acquire` | apps/observer/src/lock.ts:102-183 | an undisturbed acquire: the file, the answer and whether the lock is held |
| `Lock.DaemonLock.Heartbeat` | apps/observer/src/lock.ts:188-212 | only a holder replaces the file |
| `Lock.DaemonLock.ReleaseLock` | apps/observer/src/lock.ts:217-231 | removes the file only if it still names this process |
| `Lock.LockFile.CreateExclusive` | apps/observer/src/lock.ts:152-156 | creation refuses to touch a file that exists |
| `TokenBucket.TokenBucketRateLimiter.TryConsume` | apps/gateway/src/connection.ts:32-46 | one call: refill, verdict and new state |
| `TokenBucket.AdmittedIff` | apps/gateway/src/connection.ts:32-46 | a request is admitted if and only if, with it, no stretch of requests ending with it costs more than the capacity and what is refilled meanwhile, nor the whole run more than was held and is refilled |
| `TokenBucket.WithinHoldings` | apps/gateway/src/connection.ts:38-41 | requests that cost no more than the bucket holds are all admitted |
| `TokenBucket.ExactAccount` | apps/gateway/src/connection.ts:32-46 | as long as no refill is cut off, tokens left and spent add up to tokens held and refilled |
| `TokenBucket.TwoAtOnce` | apps/gateway/src/connection.ts:24-41 | two calls at once on the default bucket: both admitted, 48 tokens left |
| `TokenBucket.Conservation` | apps/gateway/src/connection.ts:32-46 | what is admitted never exceeds what the bucket held plus what flowed in |
| `TokenBucket.AdmittedBound` | apps/gateway/src/connection.ts:32-46 | in every stretch of calls, admitted cost is at most capacity plus rate times the time between first and last |
| `TokenBucket.RefusedInvisible` | apps/gateway/src/connection.ts:32-46 | leaving out a refused call changes no other verdict |
| `TokenBucket.RetryIsLeast` | apps/gateway/src/connection.ts:43-45 | waiting retryAfterMs is the least wait that gets the same request admitted; with rate zero there is none |
| `InFlight.McpConnection.RegisterInFlightRequest` | apps/gateway/src/connection.ts:134-167 | replaces and aborts a request with the same id, arms the timer, ignores null |
| `InFlight.McpConnection.CompleteInFlightRequest` | apps/gateway/src/connection.ts:172-179 | forgets whatever is tracked under the id |
| `InFlight.McpConnection.CancelRequest` | apps/gateway/src/connection.ts:184-194 | aborts and forgets, and says whether there was one |
| `InFlight.McpConnection.TimeOut` | apps/gateway/src/connection.ts:149-154 | the timer callback |
| `InFlight.McpConnection.Close` | apps/gateway/src/connection.ts:216-225 | aborts every tracked request exactly once and empties the table |
| `McpGateways.McpGateway.GetTotalActiveRequests` | apps/gateway/src/gateway.ts:229-235 | the summing loop |
| `McpGateways.McpGateway.HandleRequest` | apps/gateway/src/gateway.ts:288-326 | a request is refused for concurrency exactly when a count has reached its cap, registered exactly when neither has and the rate limiter agrees, and otherwise refused for its rate; a refusal changes nothing |
| `McpGateways.ActiveIsTotal` | apps/gateway/src/gateway.ts:229-235 | the sum over connection objects is the total of their tables |
| `Admission.CapsHold` | apps/gateway/src/gateway.ts:294-307 | in every reachable state no connection and no total exceeds its cap, whatever ids clients choose; closed connections track nothing |
| `Admission.InvStep` | apps/gateway/src/gateway.ts:288-378 | every step keeps the invariant: entries have running handlers, timers belong to entries, open connections are exactly those not closed |
| `Admission.AbortStep` | apps/gateway/src/connection.ts:134-225 | a step aborts a signal only while its handler runs and only if it was not aborted before |
| `AdmissionSteps.EventExact` | apps/gateway/src/connection.ts:134-225 | at each event a request stays tracked unless something ends it, its signal is aborted exactly when it is replaced, cancelled, timed out or its connection closed while tracked, and its timer stops with it |
| `AdmissionSteps.NewRequest` | apps/gateway/src/gateway.ts:321-326 | a request that goes through is tracked unless its id is null, not aborted, and its timer runs |
| `Admission.AbortsOnce` | apps/gateway/src/connection.ts:134-225 | each signal aborts at most once, and never after its request completed |
| `AdmissionReference.SameVerdict` | apps/gateway/src/gateway.ts:294-321 | admission by table sizes is admission by the number of live requests |
| `AdmissionReference.CountAll` | apps/gateway/src/gateway.ts:229-235 | the total counts every live request once |
| `AdmissionReference.TableIff` | apps/gateway/src/connection.ts:172-179 | in every state of a run the table is exactly the started requests not completed, cancelled, timed out or closed, if and only if no handler finishes under an id already given to a later live request |
| `AdmissionReference.FreshIdsAgree` | apps/gateway/src/gateway.ts:288-378 | clients that never reuse an id always find the table exact |
| `IdReuse.ReuseLosesRequest` | apps/gateway/src/gateway.ts:375-377 | cancel, reuse the id, let the old handler finish: the new request is no longer tracked |
| `ManagedBlock.BuildBlock` | adapters/omp/src/instructions.ts:29-50 | the lines of the block, joined |
| `ManagedBlockClean.BlockSpelledOut` | adapters/omp/src/instructions.ts:29-50 | a block from its first character to its last, for any tools |
| `ManagedBlockClean.SnippetSpelledOut` | adapters/omp/src/instructions.ts:15-22 | the two lines about a tool |
| `ManagedBlockClean.DeviceSpelledOut` | adapters/omp/src/instructions.ts:15-18 | the device path of a tool on a server with a dash in its name |
| `ManagedBlock.ApplyOmpCatalogInstructions` | adapters/omp/src/instructions.ts:126-174 | which block is wanted and what becomes of the file |
| `ManagedBlock.Rewrite` | adapters/omp/src/instructions.ts:144-166 | the branches on file, markers and block |
| `ManagedBlockClean.ActionIff` | adapters/omp/src/instructions.ts:144-174 | unchanged is reported exactly when the file is as before; created exactly when there was no file and is one; removed exactly when a block was found and none is wanted |
| `ManagedBlockClean.WantedIff` | adapters/omp/src/instructions.ts:134-141 | no block is wanted exactly when the catalog is missing or white space alone |
| `ManagedBlock.UpsertKeepsOutside` | adapters/omp/src/instructions.ts:151-163 | after an upsert the block is found again and the text around it survives up to white space next to it |
| `ManagedBlock.LastBlockWins` | adapters/omp/src/instructions.ts:151-163 | of two upserts the second counts; text behind the block gains one newline |
| `ManagedBlock.ReapplyIff` | adapters/omp/src/instructions.ts:154-156 | applying the same block again is unchanged if and only if only white space follows the block; otherwise the file grows by one newline |
| `ManagedBlockClean.ReapplyExample` | adapters/omp/src/instructions.ts:154-156 | a built block with a note behind it: applying the block again adds a newline |
| `ManagedBlock.InsertThenRemove` | adapters/omp/src/instructions.ts:157-163 | inserting and removing gives back the file up to white space at its end |
| `ManagedBlock.RemoveForgets` | adapters/omp/src/instructions.ts:157-161 | what is left after removal does not depend on the block that was there |
| `ManagedBlock.InsertFoundIff` | adapters/omp/src/instructions.ts:144-146 | after an insertion the inserted block is what is found, if and only if the file had neither marker |
| `ManagedBlockClean.BlockCleanIff` | adapters/omp/src/instructions.ts:29-50 | a built block can be found again exactly when neither the catalog text nor a tool name holds the end marker; server names never matter |
| `ManagedBlockClean.SnippetContains` | adapters/omp/src/instructions.ts:15-22 | an invocation snippet holds the end marker only if the tool name does |
| `TomlSection.HeaderAtIff` | adapters/codex-cli/src/config-planner.ts:40-45 | a header match at a place is a text of the header language there, and only one length fits |
| `TomlSection.SectionLenIsFirst` | adapters/codex-cli/src/config-planner.ts:51-56 | the section reaches to the first break |
| `TomlSection.UrlComplete` | adapters/codex-cli/src/config-planner.ts:61 | the url expression reads every spacing of a url line |
| `TomlLaws.UpdateThenRead` | adapters/codex-cli/src/config-planner.ts:28-79 | after an update the section gives the url, or none when the url is empty |
| `TomlLaws.UpdateKeepsOutside` | adapters/codex-cli/src/config-planner.ts:67-78 | everything outside the section is kept: a new section goes behind the whole file, an old one is replaced where it stands |
| `TomlLaws.ReplacedParts` | adapters/codex-cli/src/config-planner.ts:67-73 | a section with another url keeps its header and becomes that url line alone |
| `TomlLaws.OnlyUrlLeft` | adapters/codex-cli/src/config-planner.ts:67-73 | a file of one section and no such url yet becomes the header and the url line, whatever else the section held |
| `TomlLaws.LosesKeyExample` | adapters/codex-cli/src/config-planner.ts:67-73 | a section with a url and another key, updated: the key is gone |
| `TomlLaws.AppendSpelledOut` | adapters/codex-cli/src/config-planner.ts:33-36 | a new file or an appended section, character by character |
| `TomlLaws.AppendedParts` | adapters/codex-cli/src/config-planner.ts:76-78 | a file without the section gets it at its end, with the plain header |
| `TomlLaws.UpdateTwiceIff` | adapters/codex-cli/src/config-planner.ts:28-79 | updating twice is updating once, if and only if the url is not empty or the section was there |
| `TomlVerifier.VerifyIff` | adapters/codex-cli/src/config-planner.ts:218-230 | the verifier accepts an updated file if and only if the url is not empty or the file had a url line outside the section |
| `TomlVerifier.EmptyUrlFile` | adapters/codex-cli/src/config-planner.ts:226-230 | where the url lines of a file with an empty url line in its section can be: opened in front of the section, or behind it |
| `TomlVerifier.EmptyUrlExample` | adapters/codex-cli/src/config-planner.ts:28-79 | an empty file updated to an empty url is refused by the verifier, and a second update changes it again |
| `Decoder.CodexSessionDecoder.Reset` | adapters/codex-cli/src/decoder.ts:106-113 | a reset keeps the session id unless a new one is given |
| `Decoder.CodexSessionDecoder.NextEvent` | adapters/codex-cli/src/decoder.ts:129-150 | a header takes the next number and has the last event as parent |
| `Decoder.CodexSessionDecoder.DecodeCalls` | adapters/codex-cli/src/decoder.ts:365-389 | the loop over inline calls; an entry that is null or cannot be turned into text throws part-way |
| `Decoder.CodexSessionDecoder.DecodeAssistantMessage` | adapters/codex-cli/src/decoder.ts:315-392 | reasoning, then the message unless it is empty and calls tools, then the calls |
| `Decoder.CodexSessionDecoder.DecodeRecord` | adapters/codex-cli/src/decoder.ts:155-181 | one record: events, or what is thrown and the state left behind |
| `Decoder.CodexSessionDecoder.DecodeTranscript` | adapters/codex-cli/src/decoder.ts:186-203 | a list of records ends at the first record that throws |
| `Decoder.CodexSessionDecoder.DecodeTranscriptText` | adapters/codex-cli/src/decoder.ts:191-195 | a text is split at its line breaks and decoded line by line |
| `DecoderReference.TranscriptIs` | adapters/codex-cli/src/decoder.ts:155-482 | a transcript throws if and only if a record cannot be read, and otherwise gives exactly the events its records stand for: which ones, in what order, with which id, session, number, parent and content |
| `DecoderReference.FirstOfIs` | adapters/codex-cli/src/decoder.ts:367-371 | the first field that is not empty, or the fallback |
| `DecoderReference.TurnSpelledOut` | adapters/codex-cli/src/decoder.ts:286-482 | the events of a question, a thought with a call and a result without a name |
| `DecoderChain.TranscriptLinks` | adapters/codex-cli/src/decoder.ts:129-203 | the events of a transcript carry consecutive numbers from the decoder's next one, each with the event just before as parent |
| `DecoderChain.PiecesInTurn` | adapters/codex-cli/src/decoder.ts:186-203 | two lists of records decoded in turn give what their concatenation gives |
| `DecoderChain.LinesOfPiecesIff` | adapters/codex-cli/src/decoder.ts:192 | a newline between two texts splits them into their own lines if and only if no carriage return stands in front of it |
| `DecoderChain.TextPiecesInTurn` | adapters/codex-cli/src/decoder.ts:186-203 | two texts decoded in turn give what the text put together with a line break gives |
| `DecoderChain.UnbrokenIff` | adapters/codex-cli/src/decoder.ts:155-203 | when a caller goes on after exceptions, the events form one unbroken chain if and only if no record threw after taking a header |
| `DecoderChain.BrokenChainExample` | adapters/codex-cli/src/decoder.ts:353-388 | a message with an inline call that cannot be read, then another message: one number is spent for nothing |
| `DecoderChain.ThrowSpendsIff` | adapters/codex-cli/src/decoder.ts:365-389 | which throwing records spend sequence numbers, over texts and calls that cannot be read |
| `DecoderNames.ResultTakesLatestName` | adapters/codex-cli/src/decoder.ts:418-450 | a result without a name takes that of the latest earlier call with its id, or unknown_tool |
| `DecoderNames.NamesRightIff` | adapters/codex-cli/src/decoder.ts:365-450 | when a caller goes on after exceptions, every result without a name takes that of the latest emitted call, at every point, if and only if no throwing record leaves another name behind |
| `DecoderNames.SpoilsOnlyLosing` | adapters/codex-cli/src/decoder.ts:365-389 | only a message with an unreadable inline call behind a readable one can leave a name behind |
| `DecoderNames.LostCallExample` | adapters/codex-cli/src/decoder.ts:365-450 | such a message, then a result: it takes the name of a call that was never emitted |
| `Wilson.WilsonBounds` | scripts/e2e-real-omp/adoption_probe.py:984-994 | 0 <= lo <= k/n <= hi <= 1, and the two clamps never change the value |
| `Wilson.WilsonMirror` | scripts/e2e-real-omp/adoption_probe.py:984-994 | n - k successes give the mirrored interval |
| `Wilson.WilsonIsScoreInterval` | scripts/e2e-real-omp/adoption_probe.py:984-994 | the interval holds exactly the proportions the score test does not reject |
| `Quantiles.QuantileInRange` | scripts/e2e-real-omp/adoption_probe.py:997-1009 | a quantile lies between the bounds of its list |
| `Quantiles.QuantileOrderInvisible` | scripts/e2e-real-omp/adoption_probe.py:997-1009 | a quantile does not depend on input order |
| `Quantiles.QuantileMonotone` | scripts/e2e-real-omp/adoption_probe.py:997-1009 | a quantile never decreases in q |
| `Quantiles.QuantileAlone` | scripts/e2e-real-omp/adoption_probe.py:997-1009 | the quantile of a single value is that value |
| `Quantiles.QuantileCurve` | scripts/e2e-real-omp/adoption_probe.py:997-1009 | the quantile runs straight from each value in ascending order to the next, in equal steps of q |
| `Quantiles.StatsSpelledOut` | scripts/e2e-real-omp/adoption_probe.py:1012-1029 | the statistics of four values, one of them missing |
| `Quantiles.MedianIsQuantile` | scripts/e2e-real-omp/adoption_probe.py:1012-1029 | the median is the quantile at one half |
| `Quantiles.QuartilesOrdered` | scripts/e2e-real-omp/adoption_probe.py:1012-1029 | quartiles and median come in order and the IQR is their distance, never negative; with no values all are absent |

## Left out

- Schema diff: descriptions, before and after payloads and messages of a change, the `direction` option, `formatSchemaDiff`, and reading descriptors from Zod or JSON Schema; numbers are exact reals, and a pattern is a set of strings given as a parameter.
- SchemaSoundness.DiffSoundIff: whether union members became tighter, which the comparer never looks at, is put as a value that some old member and no new one accepts, not read off the members.
- Canonical JSON: `toJSON`, hashing, and numbers other than integers; symbols and functions are treated as undefined.
- Startup order: log messages and the wording of errors.
- Supervisor: health, reload, diagnostics, signals and the overall shutdown deadline; a timeout of one module counts as its failure, and a start and a stop do not overlap.
- Restart budget: a budget that changes between calls, and `reset` inside a run.
- Tailers: record types and JSON parsing of a line, timers, listeners, file handles, inode numbers; the file is a beginning of valid UTF-8, and except in `TailRotation` it only grows.
- TailRuns.ResumeContinues: resumes from what `getCursor` hands out; the Codex cursor attached to one record points at the start of its own line, and resuming from that is not covered.
- Lock: two `acquire` calls that overlap inside one process, errors of the exclusive create other than an existing file, creating the directory, and pids that are not whole numbers.
- Gateway: connection ids are unique among open connections; workspace, routing, protocol methods, responses and the message writers are not modelled, and the rate limiter's answer is an input of the admission step.
- AdmissionReference.FreshIdsAgree: requests with a null id are never tracked by the code and are not part of the table's claim.
- Managed block: reading and writing the file, fetching the catalog, and finding tool names in it.
- TomlLaws.UpdateTwiceIff: stated, like every law of the TOML section, for names without quotes, brackets and newlines and urls without quotes and newlines; TOML itself is not modelled, only the expressions the editor uses.
- TOML: the JSON variant of the planner, backups and rollback.
- Decoder: JSON parsing (what a line is read as is a given function), time stamps, tool parameters, results and the other payload fields; the type word of a record is given as its kind, and the fields tried in turn as lists of strings. Random ids are a given table.
- Statistics: means and standard deviations; the square root is a given number whose square is the radicand, and `q` is between 0 and 1.
- Observer and cloud wiring, the canary router, redaction, discovery and configuration loading: plumbing around these pieces.
- Deployment and module transition tables: their run properties follow from reading one table.
