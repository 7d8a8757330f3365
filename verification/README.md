# Symphonika: models and proofs

Symphonika is a daemon that polls GitHub issues, prepares Git workspaces and runs
coding agents in them. Most of it is I/O. This project models the algorithms and
protocols inside it and proves what they promise, for every input, every schedule
and every sequence of events.

`dafny verify dfyconfig.toml` checks everything.

- `AbortCleanup.dfy`, `FetchLocks.dfy`: the two concurrency mechanisms of workspace
  preparation. Each is a step system whose events the runtime orders freely, with a
  class that performs the events on the source's own fields.
- `WorkChain.dfy`, `WorkChainEvents.dfy`, `WorkerPool.dfy`: the daemon's serial work
  chain with its two flags and the runtime's job queue, and the bounded worker pool
  with the shared rate-limit flag, in the same form.
- `SystemdMemory.dfy`, `MemoryValues.dfy`: the evaluator of systemd memory limits: a
  scanner with its uint64 arithmetic, and the relative values; then what written
  values mean to it.
- `SystemdQuoting.dfy`, `ServiceUnit.dfy`, `UnitReaders.dfy`: the printers of the
  systemd unit and the separately written readers in the doctor, up to the text of
  the whole unit; then the readers on text that was not generated.
- `Redaction.dfy`, `DeepRedaction.dfy`: secret redaction against a definition that
  looks at one position of the text at a time, and of structured values, path by path.
- `ProviderTemplate.dfy`, `TemplateCommands.dfy`: the template parser, renderer and
  reference analysis, and what particular commands render to.
- `PollStatus.dfy`, `PollAnswers.dfy`, `BackoffLedger.dfy`: the poll status as a cache
  of the last answer per identity, and the rate-limit ledger as a function of its
  history.
- `WorkspacePaths.dfy`: slugs, branch names and the adoption check.
- `Reload.dfy`, `RoutinePlacement.dfy`: routine declarations across reloads.
- `Wrappers.dfy`, `Strings.dfy`: `Option` and `Result`, and shared string helpers.

The methods follow the source's loops and field updates and are proved equal to
specification functions; the lemmas say what those functions mean. For the step
systems, the `HistoryExact` lemmas derive every recorded field from the events of the
run alone, and the theorems over runs speak about events.

## Where a claim needs a condition

- A memory limit with a fraction is not accepted exactly when its exact total is in
  range. Besides the wrap-around corner, the guard refuses the edge term of a unit
  (its integer part is the largest the unit allows and a fraction follows), although
  its exact value can be in range. `SystemdMemory.ValueAcceptedExactly` has the exact
  condition for all values, `SystemdMemory.FractionsBreakTheRange` the two inputs.
- A poll-now caller that arrives in an event-loop turn of its own is served by a tick
  that is not over when it asks. A caller whose own continuation waits in the job
  queue can share a finished tick: exactly if a poll-now link ends while it waits
  (`WorkChain.PostedCallerServed`). The queue is first-in-first-out, and
  `WorkChain.FinishedTickIsShared` is such a run.
- A redacted text is free of secrets when none can overlap the marker
  (`Redaction.RedactedTextClean`, `Redaction.ApartExactly`). A secret inside the
  marker always survives (`Redaction.FragmentSurvives`), and each of the other three
  overlaps has an input (`Redaction.OverlapsSurvive`). For secrets
  inside the marker the condition is exact; for the other overlaps it is only shown
  to be sufficient.
- "Refused if and only if engaged within the window" needs a clock that does not step
  back. `BackoffLedger.WindowExact` says what happens for every clock,
  `BackoffLedger.ClockMattersExactly` when the rule fails.
- `GeneratedUnitRoundTrip` needs non-empty runtime and script paths: an empty
  argument is no word to the reader (`SystemdQuoting.ExecStartRoundTrip` is an
  equivalence).
- A comment beside the adoption check (`src/daemon.ts:1678-1679`) says that the
  trailing slug can be anything; the code below it accepts only a slug that is its
  own slug. The model follows the code.

## Model

| member | source | states |
|---|---|---|
| `AbortCleanup.StepInvariant` | src/workspace.ts:85-148 | Every event keeps the invariant: one settle check at most is queued, every active operation still has its completion callback due, every inactive tracked one has settled, and whenever the promise may resolve a check is queued. |
| `AbortCleanup.RunInvariant` | src/workspace.ts:85-148 | The invariant survives every sequence of events. |
| `AbortCleanup.ReachableInvariant` | src/workspace.ts:85-148 | It holds in every state reachable from construction, with a live or an already aborted signal. |
| `AbortCleanup.NeverResolvesEarly` | src/workspace.ts:122-147 | In every reachable state, the promise resolves only in a queued check, after abort or finish, with nothing active, and then every operation tracked so far has settled. |
| `AbortCleanup.ResolutionIsFinal` | src/workspace.ts:100-103 | After resolving, in every continuation the active set stays empty, nothing more is tracked and the promise is not resolved again. |
| `AbortCleanup.InternalStepsRunOut` | src/workspace.ts:122-147 | Settlements, completion callbacks and checks strictly use up a measure, so every schedule of them is finite. |
| `AbortCleanup.UnresolvedCanMove` | src/workspace.ts:117-148 | After abort or finish, an unresolved object always has such a step to take; with nothing active its check is queued and resolves. |
| `AbortCleanup.QuiescentIsResolved` | src/workspace.ts:122-147 | No wakeup is lost: when abort or finish happened and no such step is left, the promise is resolved. |
| `AbortCleanup.HistoryExact` | src/workspace.ts:95-120 | What is recorded is what happened: until the promise resolves, an operation is active exactly when it was tracked and its completion has not been reported since, and finished, aborted and the pending callbacks are as the events left them. |
| `AbortCleanup.ResolvesAfterAllWork` | src/workspace.ts:100-147 | In every run: the event that resolves is a queued check, there was an abort or the end of the preparation before it, every operation tracked before it has settled before it, and its callback has run since it was last tracked. |
| `AbortCleanup.RestingIsResolved` | src/workspace.ts:100-147 | In every run: with no step left that needs no caller, the promise has been resolved if and only if there was an abort or the preparation ended. |
| `AbortCleanup.WorkspaceAbortCleanup.constructor` | src/workspace.ts:85-93 | The new object is the initial state, a check already queued when the signal was aborted. |
| `AbortCleanup.WorkspaceAbortCleanup.FinishPreparation` | src/workspace.ts:95-98 | Performs the finish event on every field. |
| `AbortCleanup.WorkspaceAbortCleanup.TrackOperation` | src/workspace.ts:100-110 | Performs the track event: nothing once resolved, else active with its callback registered. |
| `AbortCleanup.WorkspaceAbortCleanup.OnAbort` | src/workspace.ts:112-115 | Performs the abort event, once. |
| `AbortCleanup.WorkspaceAbortCleanup.Complete` | src/workspace.ts:117-120 | Performs a completion callback. |
| `AbortCleanup.WorkspaceAbortCleanup.QueueSettle` | src/workspace.ts:122-135 | Queues exactly one check, exactly when it could resolve. |
| `AbortCleanup.WorkspaceAbortCleanup.RunImmediate` | src/workspace.ts:135-147 | Performs the queued check, which tests everything again before resolving. |
| `FetchLocks.StepInvariant` | src/workspace.ts:775-825 | Every arrival, turn, settlement, release, abort and departure keeps the invariant that ties the lock table to the chain of invocations behind each path. |
| `FetchLocks.RunInvariant` | src/workspace.ts:775-825 | The invariant survives every interleaving. |
| `FetchLocks.MutualExclusion` | src/workspace.ts:781-807 | In every reachable state at most one invocation per cache path is inside the exists/clone/fetch section, and while one is, every later one on that path is still waiting for its turn. |
| `FetchLocks.TurnsInArrivalOrder` | src/workspace.ts:781-808 | Turns on one path are taken in arrival order, each at most once. |
| `FetchLocks.AbsentMeansSettled` | src/workspace.ts:808-819 | A path absent from the table has only settled invocations; a present path names its last arrival, whose release is still due. |
| `FetchLocks.AbortedNeverEnters` | src/workspace.ts:786-789 | An invocation whose signal fires before its turn never does the guarded work. |
| `FetchLocks.LeavingKeepsThePlace` | src/workspace.ts:815-824 | Over every run: erasing all departures of callers (giving up or returning) leaves a possible run with the same table, the same phases and the same turns in the same order, so nobody overtakes through an abandoned place. |
| `FetchLocks.UnsettledCanMove` | src/workspace.ts:781-807 | No deadlock: behind every unsettled invocation some invocation on its path can take a step. |
| `FetchLocks.InternalStepsRunOut` | src/workspace.ts:781-819 | Turns, ends and releases use up a measure, so every schedule of them is finite. |
| `FetchLocks.QuiescentIsEmpty` | src/workspace.ts:808-819 | When none of them is left, every invocation has settled and the table is empty: it does not leak. |
| `FetchLocks.HistoryExact` | src/workspace.ts:781-825 | What is recorded is what happened: after any run, the path, phase, signal, release and caller of each call, the turns taken and the whole table are those that the order of the events determines. A callback takes a turn exactly if its signal had not fired before, and a call has settled exactly if its section ended or its callback was skipped. |
| `FetchLocks.BeginWaitsForAll` | src/workspace.ts:781-789 | In every run, a callback runs only after every earlier call on its path has settled. |
| `FetchLocks.SectionsDoNotOverlap` | src/workspace.ts:786-807 | In every run, between the starts of two turns on one path lies the end of the first, and they start in arrival order. |
| `FetchLocks.AtRestAllSettled` | src/workspace.ts:808-819 | In every run that has come to rest, every arrival has settled and cleared its slot. |
| `FetchLocks.FetchLockTable.constructor` | src/workspace.ts:736 | The table starts empty. |
| `FetchLocks.FetchLockTable.EnsureRepositoryCache` | src/workspace.ts:781-808 | Queues behind the tail and becomes the tail. |
| `FetchLocks.FetchLockTable.TakeTurn` | src/workspace.ts:786-789 | The queued callback runs; an aborted one settles without entering. |
| `FetchLocks.FetchLockTable.EndTurn` | src/workspace.ts:800-807 | The guarded section ends, well or badly. |
| `FetchLocks.FetchLockTable.ReleaseLock` | src/workspace.ts:809-819 | Clears the slot only if no later caller has overwritten it. |
| `FetchLocks.FetchLockTable.AbortCaller` | src/workspace.ts:815-820 | The signal fires, without touching table or turns. |
| `FetchLocks.FetchLockTable.StopWaiting` | src/workspace.ts:820 | The caller gives up because of its signal: before its turn, or just after its aborted callback settled without one. |
| `FetchLocks.FetchLockTable.LearnOutcome` | src/workspace.ts:820-824 | The caller learns how its own section ended. |
| `SystemdMemory.ScanSound` | src/doctor.ts:1385-1413 | A value the scanner accepts is exactly the concatenation of the terms it reports, each legally spelled. |
| `SystemdMemory.ScanComplete` | src/doctor.ts:1168-1186 | Every list of terms, printed with any separators, signs and gaps that tell a bare term from the next one (so `5 5`, `5 1K` and `5+5` too), scans back to exactly those terms. |
| `SystemdMemory.UnitsExact` | src/doctor.ts:1411-1419 | Along the text `BKMGTPE` the ranks grow, an omitted suffix below all, and the multipliers are 1024 to the position, with 1 for an omitted suffix. |
| `SystemdMemory.SuffixesAreUnits` | src/doctor.ts:1276 | The suffixes are exactly the letters of that text. |
| `SystemdMemory.PassingTermExact` | src/doctor.ts:1453-1468 | Outside the corner, a term that passes the guard contributes its exact value: nothing wraps. |
| `SystemdMemory.FailingTermTooBig` | src/doctor.ts:1453-1458 | Outside the corner, a term the guard refuses is out of range, or is the edge term of its unit. |
| `SystemdMemory.CornerTermWraps` | src/doctor.ts:1445-1468 | With the integer part exactly 2^64-1 and a positive fraction, the guard wraps, and the bytes are the exact value modulo 2^64. |
| `SystemdMemory.AcceptedIffInRange` | src/doctor.ts:1385-1475 | Without corner terms and over-long numerators, a unit-ordered value is accepted if and only if its exact total lies in 1..2^64-2 and no term is an edge term. |
| `SystemdMemory.AcceptedExactly` | src/doctor.ts:1385-1475 | The exact condition for every list of terms: units in order, numerators in uint64, no edge term but the corner, and the total, with corner terms taken modulo 2^64, in 1..2^64-2. |
| `SystemdMemory.ValueAcceptedExactly` | src/doctor.ts:1385-1475 | The same for every value, on the text itself: it is a sequence of terms, their positions in `BKMGTPE` descend, each numerator fits uint64, no fraction follows the largest integer of a unit below 2^64-1, and the sum of magnitude times 1024 to the position plus the truncated fraction, modulo 2^64 after 2^64-1, lies in 1..2^64-2. |
| `SystemdMemory.LongDigitsRefused` | src/doctor.ts:1428-1440 | A value with an integer part or fraction digits beyond uint64 is refused, however little they stand for. |
| `SystemdMemory.FractionsBreakTheRange` | src/doctor.ts:1453-1468 | Whatever double the tenth widens to (above 0, below 0.99): `18014398509481983.1K` is in range and refused, `18446744073709551615.1K` is out of range and accepted, with the wrapped total the source computes. |
| `SystemdMemory.IntegerValueAccepted` | src/doctor.ts:1385-1475 | For every list of integer terms in any such spelling: accepted if and only if the units strictly descend and the exact sum is in 1..2^64-2; any repeated or increasing unit is refused. |
| `SystemdMemory.IntegersAccepted` | src/doctor.ts:1385-1475 | The same of any text at all that scans to integer terms. |
| `SystemdMemory.VerdictMeaning` | src/doctor.ts:1389-1475 | The early exits change nothing: the loop refuses exactly when the declarative check on the whole scanned value does. |
| `SystemdMemory.AddTerm` | src/doctor.ts:1415-1472 | The checks before one term is added refuse exactly when the term does not pass or the total would reach 2^64-1. |
| `SystemdMemory.ReadTerm` | src/doctor.ts:1390-1473 | One round of the loop moves the verdict to the rest of the value, or refuses exactly when the whole is refused; it always advances. |
| `SystemdMemory.AbsoluteInvalid` | src/doctor.ts:1385-1475 | The scanning loop with its offset, previous rank and running total returns that verdict. |
| `SystemdMemory.RelativeExact` | src/doctor.ts:1224-1242 | Every legal relative spelling (percent, permille or permyriad; hexadecimal, binary, octal or decimal; separators, sign and decimals) is read back, and accepted if and only if its sign fits and its exact amount is above zero and at most the whole. |
| `SystemdMemory.PercentAccepted` | src/doctor.ts:1355-1384 | In particular a plain percentage is accepted exactly from 1% to 100%. |
| `SystemdMemory.RelativeInvalid` | src/doctor.ts:1368-1382 | The three exits for relative values refuse exactly the others. |
| `SystemdMemory.IsDefinitelyInvalid` | src/doctor.ts:1354-1476 | Relative patterns first, then the loop: refused exactly when neither reading is accepted. |
| `SystemdMemory.WinningByteSizeAssignment` | src/doctor.ts:1107-1131 | The result is the last assignment of the name whose value is not invalid, unless that one is empty or `infinity`, which resets the limit. |
| `MemoryValues.WrittenValue` | src/doctor.ts:1250-1267 | A number written in base 2, 8, 10 or 16 is read as that number. |
| `MemoryValues.LimitExact` | src/doctor.ts:1411-1475 | A decimal number with one of the units is accepted if and only if it times 1024 to the position of the unit is in 1..2^64-2. |
| `MemoryValues.CompoundExact` | src/doctor.ts:1411-1475 | Two such numbers with a space between are accepted if and only if the second unit is the smaller one and the sum is in that range. |
| `MemoryValues.MaximaExact` | src/doctor.ts:1224-1242 | A plain percentage is accepted from 1 to 100, a permille to 1000, a permyriad to 10000. |
| `MemoryValues.BasesExact` | src/doctor.ts:1250-1267 | The same percentages with the hexadecimal, binary and both octal prefixes. |
| `MemoryValues.DecimalsExact` | src/doctor.ts:1380-1382 | Up to two decimals of a percentage and one of a permille count. |
| `MemoryValues.DecimalsLimited` | src/doctor.ts:1224-1242 | More decimals are refused. |
| `MemoryValues.SignsExact` | src/doctor.ts:1362-1379 | A plus changes nothing for decimal and hexadecimal numbers and refuses binary and lettered octal ones; a minus is refused unless the whole number is zero. |
| `MemoryValues.RelativeIsNotAbsolute` | src/doctor.ts:1354-1384 | No value that ends in one of the three signs can be a sum of terms. |
| `Redaction.UniqueSecrets` | src/redaction.ts:32-36 | Exactly the non-empty secrets, each once. |
| `Redaction.IndexOf` | src/redaction.ts:119-124 | The least occurrence at or after a position, or -1 exactly when there is none. |
| `Redaction.FindOccurrences` | src/redaction.ts:118-125 | Exactly all occurrences of all secrets, overlapping ones included. |
| `Redaction.SortSpans` | src/redaction.ts:130 | A permutation, multiplicities included, in ascending order. |
| `Redaction.AppendStep` | src/redaction.ts:140 | Appending a span that does not strictly overlap keeps cover and boundaries right. |
| `Redaction.WidenStep` | src/redaction.ts:136-138 | Widening the last span by a strictly overlapping one does so too. |
| `Redaction.UniqueSecretSpans` | src/redaction.ts:114-143 | The merged spans are non-empty, ascending and disjoint, cover exactly the positions inside some occurrence, and have a boundary inside the cover exactly where no occurrence straddles it. |
| `Redaction.AscendingSpansDetermined` | src/redaction.ts:130-142 | Cover and straddled boundaries determine an ascending span list. |
| `Redaction.MergedSpansUnique` | src/redaction.ts:114-143 | Hence the span list is a function of the text and the set of secrets: their order and repetitions cannot matter. |
| `Redaction.SecretSpans` | src/redaction.ts:107-112 | The exported span list has the same characterization on the raw secret list. |
| `Redaction.MaskNextSpan` | src/redaction.ts:44-49 | Up to the end of the next span, the position-by-position mask is the plain text followed by one marker. |
| `Redaction.RedactUnique` | src/redaction.ts:38-51 | The spliced text is the position-by-position mask. |
| `Redaction.RedactAll` | src/redaction.ts:23-28 | The entry point computes the mask for the set of its secrets; empty ones, order and repetition are invisible. |
| `Redaction.PlainOutputIsInput` | src/redaction.ts:44-50 | A marker-free stretch of output is a stretch of uncovered input. |
| `Redaction.ResidueTouchesMarker` | src/redaction.ts:38-51 | For all secrets: an occurrence of a secret in the output always touches a marker. |
| `Redaction.RedactedTextClean` | src/redaction.ts:38-51 | If no secret can overlap the marker, the output contains no secret. |
| `Redaction.ApartExactly` | src/redaction.ts:46-49 | Not overlapping the marker means exactly: not inside it, not holding it, not ending with its beginning, not beginning with its end. |
| `Redaction.DisjointIsApart` | src/redaction.ts:46-49 | Secrets that share no character with the marker are a special case. |
| `Redaction.RedactionFixedPoint` | src/redaction.ts:38-51 | Under the same condition, redacting the output again changes nothing. |
| `Redaction.UncoveredTextKept` | src/redaction.ts:44-50 | Without its markers the output is exactly the uncovered characters of the input, in order. |
| `Redaction.FragmentSurvives` | src/redaction.ts:46-49 | Every secret inside the marker survives the redaction of itself, whatever the other secrets are. |
| `Redaction.OverlapsSurvive` | src/redaction.ts:46-49 | For each of the other three overlaps, a secret and a text in whose redaction it occurs again. |
| `DeepRedaction.RedactUnknownDeep` | src/redaction.ts:64-99 | The recursive walk with its loops computes the structural specification, key collisions included. |
| `DeepRedaction.RedactValueDeep` | src/redaction.ts:57-62 | The entry point computes it for the set of its secrets; empty and repeated ones are invisible. |
| `DeepRedaction.PathRedacted` | src/redaction.ts:64-99 | Whatever a path of indices and property names leads to, its redaction stands at the masked path of the result, unless a later property with the same masked name took the place. |
| `DeepRedaction.PathOrigin` | src/redaction.ts:64-99 | And nothing else is there: everything in the result stands at the masked path of something in the input and is its redaction. |
| `DeepRedaction.ShapeKept` | src/redaction.ts:53-99 | At that place stands, for a text, its mask; for a number or boolean, itself, or the marker if its spelling changes; null for null; for a list, one of the same length; for an object, one with exactly the masked names. |
| `DeepRedaction.NamesInOrder` | src/redaction.ts:84-95 | The properties of a redacted object come in the order in which the input first has their names. |
| `DeepRedaction.RedactedValueClean` | src/redaction.ts:64-99 | If no secret can overlap the marker, no string, number or boolean leaf and no property name of the result contains a secret. |
| `DeepRedaction.CleanValueUnchanged` | src/redaction.ts:71-98 | A value without secrets comes back as it was. |
| `DeepRedaction.DeepRedactionFixedPoint` | src/redaction.ts:57-99 | Deep redaction is a fixed point too. |
| `ProviderTemplate.LexLossless` | src/provider-command-template.ts:17-62 | The tags and the text between them spell the command: nothing is lost. |
| `ProviderTemplate.ParseTemplate` | src/provider-command-template.ts:45-107 | The single pass with its section stack computes the specification, error for error. |
| `ProviderTemplate.ParseSound` | src/provider-command-template.ts:54-106 | A successful parse is a forest of known fields without self-nesting whose tokens are the command's, up to the optional hash of closers. |
| `ProviderTemplate.ParseComplete` | src/provider-command-template.ts:54-106 | Every command whose tokens spell such a forest parses to it. |
| `ProviderTemplate.ParseAccepts` | src/provider-command-template.ts:54-100 | So parsing succeeds if and only if all tags are known and the sections are well nested without self-nesting. |
| `ProviderTemplate.RunForest` | src/provider-command-template.ts:54-93 | From any parser state, the tokens of a well-nested forest add exactly its nodes. |
| `ProviderTemplate.RunKeeps` | src/provider-command-template.ts:54-93 | Every parser state reached has consumed tokens that its tree and open sections account for. |
| `ProviderTemplate.LexPrint` | src/provider-command-template.ts:17 | Printed tokens with non-empty, separated, tag-free text are lexed back. |
| `ProviderTemplate.ParsePrint` | src/provider-command-template.ts:45-107 | Printing a tree with such text and parsing it returns the tree. |
| `ProviderTemplate.PrintParse` | src/provider-command-template.ts:45-107 | Printing a parsed command returns the command with every hashed closer spelled without its hash; without hashed closers, unchanged. |
| `ProviderTemplate.RenderIsInterpretation` | src/provider-command-template.ts:109-130 | Rendering the parsed tree equals a one-pass interpreter over the tags that skips text under any undefined section. |
| `ProviderTemplate.RenderReadsReferenced` | src/provider-command-template.ts:109-145 | Values that agree on the referenced fields render alike. |
| `ProviderTemplate.UnreferencedHasNoEffect` | src/provider-command-template.ts:154-165 | A field is reported exactly when it is a provided model or effort that no tag names, and then changing its value never changes the command. |
| `ProviderTemplate.ReferencedAreTags` | src/provider-command-template.ts:132-145 | A field counts as referenced exactly when some tag of the tree names it. |
| `ProviderTemplate.RenderProviderCommandTemplate` | src/provider-command-template.ts:167-178 | Fails exactly when parsing does; otherwise returns the interpreted command and the exact report. |
| `TemplateCommands.TagShowsValue` | src/provider-command-template.ts:109-130 | Between any tag-free texts, the tag of a field renders to the value given for it, or to nothing. |
| `TemplateCommands.SectionShowsText` | src/provider-command-template.ts:109-130 | A section with text and a tag inside renders to its inside exactly if its field is given, and to nothing otherwise. |
| `TemplateCommands.ReportedExactly` | src/provider-command-template.ts:147-165 | Reported are exactly `model` and `effort`, in this order, when given and named by no tag of the command. |
| `SystemdQuoting.SplitSystemdWords` | src/doctor-execution-environment.ts:385-429 | The character loop computes the word splitter's specification. |
| `SystemdQuoting.FeedQuoteEscaped` | src/service.ts:419-438 | Inside double quotes the splitter reads an escaped value back exactly. |
| `SystemdQuoting.UnescapeDoubled` | src/doctor.ts:892-896 | The doctor's unescaping undoes the printer's doublings of `$` and `%`, whatever the home directory. |
| `SystemdQuoting.SplitArguments` | src/service.ts:419-429 | A list of quoted arguments splits into exactly its non-empty members. |
| `SystemdQuoting.ShellBodyQuotable` | src/service.ts:191 | The embedded shell text is safe inside single quotes. |
| `SystemdQuoting.ExecStartWords` | src/service.ts:191 | The words of the generated `ExecStart=` value. |
| `SystemdQuoting.ExecStartRoundTrip` | src/doctor.ts:864-885 | Parsing the generated value returns exactly the runtime and script paths if and only if both are non-empty, for every config path and home directory. |
| `SystemdQuoting.WinningServiceAssignment` | src/doctor.ts:923-952 | The line loop computes the scan that the next row characterizes. |
| `SystemdQuoting.WinnerIs` | src/doctor.ts:923-952 | An assignment in an open section after which nothing speaks of its name wins. |
| `SystemdQuoting.UnitRoundTrip` | src/service.ts:191 | Whatever lines surround it, the generated `ExecStart=` line is found and yields exactly the paths. |
| `SystemdQuoting.SystemdEnvironmentPath` | src/doctor-execution-environment.ts:354-380 | The nested loops compute the fold over lines and words that the two rows below characterize. |
| `SystemdQuoting.EnvironmentRoundTrip` | src/service.ts:168 | The generated `Environment=` line assigns exactly the PATH it was made from, with backslashes, quotes, spaces, `$`, `%` and `%h` in it. |
| `SystemdQuoting.EnvironmentUnitRoundTrip` | src/doctor-execution-environment.ts:354-380 | The same inside any unit whose later lines assign no environment. |
| `UnitReaders.SpecifiersExact` | src/doctor.ts:892-896 | For every text: `%%` becomes a percent sign and `%h` the home directory; any other text, other specifiers and a last single `%` included, stays. |
| `UnitReaders.DollarsExact` | src/doctor.ts:892-894 | `$$` becomes a dollar sign; a single one stays. |
| `UnitReaders.CommandsExact` | src/doctor.ts:864-885 | Of all quoted command lines exactly those are taken for generated ones whose first word is `sh` in some directory, the second `-c`, the fourth `symphonika`, with two more, which are the paths; all others are refused. |
| `UnitReaders.WordsExact` | src/doctor-execution-environment.ts:385-429 | The word splitter on all lines written as segments (plain, in double or single quotes, or one escaped character): segments that touch make one word, whitespace outside quotes ends it, and an empty word is none. |
| `UnitReaders.LastBackslash` | src/doctor-execution-environment.ts:385-429 | A backslash at the very end stands for itself. |
| `UnitReaders.TrimExact` | src/doctor.ts:923-952 | Trimming removes the whitespace at both ends and nothing else. |
| `UnitReaders.AssignmentLine` | src/doctor.ts:923-952 | An assignment is recorded, without the whitespace around name and value, exactly when the section is open and the name is the wanted one. |
| `UnitReaders.HeaderLine` | src/doctor.ts:923-952 | A header opens the `[Service]` section and closes any other. |
| `UnitReaders.CommentLine` | src/doctor.ts:923-952 | A comment changes nothing. |
| `UnitReaders.OtherEnvironment` | src/doctor-execution-environment.ts:354-380 | An empty environment line forgets the path; one that assigns another variable keeps it. |
| `ServiceUnit.SplitJoin` | src/service.ts:113-208 | Lines without terminators survive joining with newlines and splitting at `\r?\n`. |
| `ServiceUnit.GeneratedUnitRoundTrip` | src/service.ts:113-208 | From the install's paths to the text of the unit and back: both scanners recover exactly the runtime path, the script path and PATH, whatever they contain besides line terminators. |
| `PollStatus.MergeBands` | src/issue-polling.ts:1457-1503 | For every configuration: per identity, the merged bands are the carried entries then the new ones, candidates only for the selected declaration. |
| `PollStatus.SuppressKeepsHeld` | src/issue-poll-publication.ts:163-215 | Suppression only moves issues between the bands: what an identity holds is the same multiset. |
| `PollStatus.PublishHeld` | src/issue-poll-publication.ts:29-116 | One tick: a polled identity holds what the tick found, a configured one what it held, any other nothing. |
| `PollStatus.HeldSinceLastPoll` | src/issue-poll-publication.ts:29-116 | Over every sequence of the daemon's ticks with unique names, whatever the ledger holds back, GitHub answers and a newer run suppresses: an identity holds exactly what the latest tick that polled it found, as long as it stayed configured and enabled. |
| `PollStatus.NothingHeldAfterRemoval` | src/issue-polling.ts:1462-1467 | Over the same sequences, an identity removed or disabled and not polled since holds nothing. |
| `PollStatus.PublishReports` | src/issue-polling.ts:1457-1503 | One tick, for every configuration: a polled identity has this tick's reports, a configured one keeps its own (outcome, error and fetched count), any other has none. |
| `PollStatus.ReportsSinceLastPoll` | src/issue-polling.ts:1457-1503 | Over every sequence of ticks, duplicate names included, the status is a map from identity to the reports of the latest tick that polled it, while it stayed configured. |
| `PollStatus.EveryErrorListed` | src/issue-polling.ts:1475-1482 | After every sequence of ticks every report's error is in the shared list: a backing-off project's error survives ticks in which only others are polled. |
| `PollStatus.PublishKeepsSound` | src/issue-poll-publication.ts:163-215 | Fetched = candidate + filtered survives a tick, duplicate declarations included. |
| `PollStatus.EveryReportSound` | src/issue-poll-publication.ts:163-215 | It holds in every report after every sequence of ticks, without any condition. |
| `PollStatus.CountsAlwaysMatch` | src/issue-poll-publication.ts:163-229 | With unique names, every report's candidate count is the number of its candidates in the shared list, after every sequence of ticks. |
| `PollStatus.PollOneKeeps` | src/issue-polling.ts:1690-1734 | Polling one more project keeps reports sound and matching and every entry reported; what the ticks above assume of a poll result. |
| `PollStatus.PassIsFair` | src/issue-polling.ts:1553-1574 | In every pass: enabled projects are asked in order, none after its credential's first rate-limit report, and one is skipped only because of such a report. |
| `PollStatus.PassKeeps` | src/issue-polling.ts:1553-1574 | Every pass leaves sound reports with listed errors that match the lists and belong to the projects it was given. |
| `PollStatus.SortPermutes` | src/issue-polling.ts:1576-1577 | The final sort keeps both lists' entries, and so what every identity holds. |
| `PollStatus.SortSorts` | src/issue-polling.ts:1576-1577 | With a comparator of a total preorder it puts them in order. |
| `PollStatus.TickIsProper` | src/daemon.ts:761-789 | Although only the projects the ledger lets through are asked, the result of a tick is proper against the whole configuration; nothing is assumed but unique names, and those only for the counts and the publishing. |
| `PollStatus.FirstByNumberUnique` | src/issue-poll-publication.ts:347-359 | The persisted rows have one row per issue number, its first, so a candidate wins over a filtered duplicate. |
| `PollStatus.SnapshotRows` | src/issue-poll-publication.ts:280-360 | The seen-set filter computes those rows for one project. |
| `PollStatus.IssuePollStatus.constructor` | src/issue-polling.ts:1371-1378 | The status starts empty. |
| `PollStatus.IssuePollStatus.Replace` | src/issue-polling.ts:1433-1441 | Overwrites the four lists. |
| `PollStatus.IssuePollStatus.PollProject` | src/issue-polling.ts:1582-1734 | The counting loop appends entries, error and report of one poll, in order. |
| `PollStatus.IssuePollStatus.PollConfigured` | src/issue-polling.ts:1543-1580 | The pass starts from the configuration's errors, asks exactly the projects the specification asks, and sorts. |
| `PollStatus.IssuePollStatus.PollEnabled` | src/issue-polling.ts:1553-1574 | The loop over the projects with its set of exhausted credentials. |
| `PollStatus.IssuePollStatus.RunTick` | src/daemon.ts:761-789 | A whole tick: polls what the ledger lets through and publishes against everything declared. |
| `PollStatus.IssuePollStatus.PublishTick` | src/issue-poll-publication.ts:29-116 | Merging and suppressing in place is one publish step; the tick's own result is suppressed too before it is persisted. |
| `PollStatus.IssuePollStatus.SuppressResolved` | src/issue-poll-publication.ts:163-215 | Moves the suppressed candidates and adjusts every report's counts. |
| `PollAnswers.AskedOnceAnswers` | src/issue-polling.ts:1690-1733 | For an identity that one asked project declares, a tick finds exactly what was answered: its candidates are the listed issues without reasons, its filtered entries the others with their reasons. |
| `PollAnswers.TickAnswers` | src/issue-polling.ts:1690-1733 | The same for every identity, over all its asked declarations. |
| `PollAnswers.TickReports` | src/issue-polling.ts:1515-1580 | One report for each asked project, in order, with the numbers of its answer or its error; the errors are those of the configuration, then those of the reports. |
| `PollAnswers.EntriesSinceLastPoll` | src/daemon.ts:761-779 | Over every sequence of ticks with unique names, entry by entry: an identity's candidates are those the latest tick that polled it found and no tick since then hid, in order; its filtered entries are those it found and the candidates hidden since. |
| `PollAnswers.EveryBandRight` | src/daemon.ts:761-779 | After every sequence of ticks a candidate has no reasons and a filtered entry has some. |
| `PollAnswers.SuppressExact` | src/issue-poll-publication.ts:163-215 | Exactly the hidden candidates move: none is left, every other one stays, and they come behind the filtered entries with the one reason. |
| `BackoffLedger.WindowExact` | src/github-backoff-ledger.ts:58-94 | For every history and every clock: a window ending at a time is on record if and only if some engagement set it and nothing displaced it since, neither another engagement nor a question at or after its end. |
| `BackoffLedger.RefusedExactly` | src/github-backoff-ledger.ts:58-79 | So a credential is refused exactly when an engagement not displaced since ends later than now. |
| `BackoffLedger.RefusedIffEngagedRecently` | src/github-backoff-ledger.ts:58-107 | With a clock that never steps back: if and only if it was engaged less than 300000 ms before. |
| `BackoffLedger.ClockMattersExactly` | src/github-backoff-ledger.ts:58-94 | For every clock: it is free although engaged recently exactly when every such engagement was displaced, by an engagement read from an earlier clock or a question at a later one. |
| `BackoffLedger.ReadAheadLengthens` | src/github-backoff-ledger.ts:88-94 | An engagement read from a clock that was ahead refuses for longer. |
| `BackoffLedger.AskingAheadShortens` | src/github-backoff-ledger.ts:63-68 | A question while the clock was ahead ends a window for good. |
| `BackoffLedger.SteppingBackShortens` | src/github-backoff-ledger.ts:88-94 | An engagement read from an earlier clock shortens a window. |
| `BackoffLedger.RateLimitedTokens` | src/issue-polling.ts:2107-2146 | Exactly the resolved tokens of every declaration whose identity reported a rate limit. |
| `BackoffLedger.LimitedExactly` | src/issue-polling.ts:2075-2146 | A credential is engaged exactly if it is declared for a project, by name and by repository in any case, with a report whose error has `rate limit` or `abuse detection` in it, in any case; no other error engages anything. |
| `BackoffLedger.PollableExactly` | src/github-backoff-ledger.ts:76-106 | Which projects a tick asks, whatever the clock does: those without a resolved token, and those for whose token every engagement not displaced since is over. |
| `BackoffLedger.PollableUnlessRecent` | src/github-backoff-ledger.ts:76-106 | With a clock that never steps back: those without a resolved token, and those whose token was not engaged in the last 300000 ms. |
| `BackoffLedger.GithubBackoffLedger.constructor` | src/github-backoff-ledger.ts:47 | The ledger starts empty. |
| `BackoffLedger.GithubBackoffLedger.IsActive` | src/github-backoff-ledger.ts:58-71 | Answers whether the window runs; deleting an elapsed window changes no answer from then on. |
| `BackoffLedger.GithubBackoffLedger.IsPollable` | src/github-backoff-ledger.ts:76-79 | A project without a resolved token is always pollable. |
| `BackoffLedger.GithubBackoffLedger.Pollable` | src/github-backoff-ledger.ts:103-106 | Filters a batch at one instant, in order, without changing any answer: the projects a tick asks; the questions it puts to the ledger are recorded. |
| `BackoffLedger.GithubBackoffLedger.Engage` | src/github-backoff-ledger.ts:88-101 | Opens the window of every rate-limited token; those without one running are the warned ones. |
| `BackoffLedger.GithubBackoffLedger.OpenWindows` | src/github-backoff-ledger.ts:90-100 | Every listed token gets the full window and no other token changes. |
| `WorkerPool.StepInvariant` | src/pull-request-polling.ts:261-278 | Every stretch of every worker keeps the invariant: items are handed out in order, no two workers hold one item, results are their own calls' values, and the flag tells whether a limit was seen. |
| `WorkerPool.CallsOnceAndBounded` | src/pull-request-polling.ts:261-278 | In every schedule each item is handed out at most once, in order, and at most min(concurrency, n) calls are in flight. |
| `WorkerPool.InFlightBound` | src/pull-request-polling.ts:274-276 | The awaited items number at most the workers. |
| `WorkerPool.StepsRunOut` | src/pull-request-polling.ts:268-273 | Every step uses up a measure: every schedule is finite. |
| `WorkerPool.StuckIsOver` | src/pull-request-polling.ts:268-273 | A schedule only ends when every worker has ended. |
| `WorkerPool.FinishedResults` | src/pull-request-polling.ts:261-278 | At the end without rejections every item was called exactly once and result i is what call i settled with; with a concurrency of zero nothing is done. |
| `WorkerPool.StepSeen` | src/pull-request-polling.ts:225-230 | Only the reaction to its own call lets a rate limit be seen. |
| `WorkerPool.FlagGoesUp` | src/pull-request-polling.ts:225-227 | The flag goes up exactly when an API call is seen to report a limit, and then fewer calls than workers are still awaited. |
| `WorkerPool.LimitStopsCalls` | src/pull-request-polling.ts:370-376 | Once the flag is up, in every continuation it stays up and no further call reaches the API. |
| `WorkerPool.HistoryExact` | src/pull-request-polling.ts:261-278 | In every schedule the pool is what the order of the events makes it: which items reached the API, whether the flag is up, which item each worker holds and which results are stored. |
| `WorkerPool.ReachesApiExactly` | src/pull-request-polling.ts:210-230 | An item reaches the API if and only if, when it is taken, it is not cached and no API call has been seen to report a limit. |
| `WorkerPool.EnrichmentPool.constructor` | src/pull-request-polling.ts:266-276 | The pool starts with min(concurrency, n) idle workers and empty results. |
| `WorkerPool.EnrichmentPool.TakeNext` | src/pull-request-polling.ts:268-271 | One turn of a worker's loop up to its await; the flag and the cache decide on the API call. |
| `WorkerPool.EnrichmentPool.Settle` | src/pull-request-polling.ts:224-230 | A call settles; the flag is raised before its worker goes on. |
| `WorkerPool.EnrichmentPool.StoreResult` | src/pull-request-polling.ts:271 | Stores the result at the call's own index. |
| `WorkChain.StepInvariant` | src/daemon.ts:606-609 | Every event-loop turn, posted reaction, answer and queued job keeps the invariant. |
| `WorkChain.RunInvariant` | src/daemon.ts:606-609 | In every run links begin once each, in order, one at a time; the watchdog flag is up exactly while a pass is queued or running; a poll-now link in progress is the pending one, and its clearing reaction is queued exactly while it is over. |
| `WorkChain.FrontReady` | src/daemon.ts:606-609 | The job at the front of the queue can always run: each link is begun, ended and settled once. |
| `WorkChain.OneAtATime` | src/daemon.ts:1005-1018 | In every reachable state a link that has begun finds all earlier ones settled, and at most one watchdog and one poll-now link are queued or running. |
| `WorkChain.PendingMeans` | src/daemon-poll-now.ts:8-32 | The poll-now flag is up exactly while its link is queued or running or its clearing reaction is in the queue. |
| `WorkChain.TurnCallerServed` | src/daemon-poll-now.ts:10-31 | In every run, a caller that arrives in an event-loop turn of its own is served by a tick that is not over. |
| `WorkChain.ServedTickEndsLater` | src/daemon-poll-now.ts:10-31 | And whenever that tick is over later in the run, its work ended after the caller asked. |
| `WorkChain.PostsAreEvents` | src/daemon-poll-now.ts:10-31 | A queued action was posted by the event of the run at its time. |
| `WorkChain.EndsAreEvents` | src/daemon-poll-now.ts:15-26 | The recorded ends are the events of the run that end a poll-now link's work. |
| `WorkChain.PostedCallerServed` | src/daemon-poll-now.ts:10-31 | In every run, a caller whose job was queued shares a finished tick if and only if the work of a poll-now link ended between the event that queued it and the event that runs it. |
| `WorkChain.FinishedTickIsShared` | src/daemon-poll-now.ts:28-30 | The first-in-first-out queue allows such runs: one in which tick and caller become ready together. |
| `WorkChain.ServedStays` | src/daemon-poll-now.ts:10-31 | What a caller waits for never changes afterwards. |
| `WorkChain.InternalStepsRunOut` | src/daemon.ts:606-609 | Queued jobs and the answers the work awaits use up a measure. |
| `WorkChain.UnfinishedCanMove` | src/daemon.ts:606-609 | Whatever failed before, an unfinished chain can always move on. |
| `WorkChain.QuiescentIsFinished` | src/daemon.ts:606-609 | When nothing is left to do, every enqueued link has run exactly once, the queue is empty and both flags are down. |
| `WorkChain.DaemonWork.constructor` | src/daemon.ts:566 | The chain starts empty with both flags down. |
| `WorkChain.DaemonWork.EnqueueScheduledWork` | src/daemon.ts:606-609 | Appends one link; its reaction is queued at once if the last link has settled. |
| `WorkChain.DaemonWork.ScheduleTick` | src/daemon.ts:1375-1380 | Enqueues a tick on every timer fire. |
| `WorkChain.DaemonWork.ScheduleWatchdogPass` | src/daemon.ts:1006-1018 | Enqueues a pass unless one is queued or running. |
| `WorkChain.DaemonWork.TriggerPollNow` | src/daemon-poll-now.ts:10-31 | Shares the pending poll or enqueues one; returns the link the caller gets. |
| `WorkChain.DaemonWork.TakeAction` | src/daemon.ts:1006-1018 | Performs a timer fire or a trigger. |
| `WorkChain.DaemonWork.EndWork` | src/daemon-poll-now.ts:15-26 | Ends a link's work: a pass lowers its flag on both exits, a shared poll settles before its link. |
| `WorkChain.DaemonWork.SettleLink` | src/daemon.ts:607 | A link settles like its work, well or badly, and its successor's reaction is queued. |
| `WorkChain.DaemonWork.RunTask` | src/daemon.ts:606-609 | Performs one queued job on every field. |
| `WorkChain.DaemonWork.RunFrontJob` | src/daemon.ts:606-609 | Takes the front job and runs it: one step, which is always possible. |
| `WorkChain.DaemonWork.RunTurn` | src/daemon.ts:606-609 | An event-loop turn, when the queue is empty. |
| `WorkChainEvents.EveryFireCounts` | src/daemon.ts:1375-1380 | In every run there is one tick link for each timer fire carried out, and one served caller for each trigger; the others are still queued. |
| `WorkChainEvents.SettlesAsCompleted` | src/daemon.ts:606-609 | In every run a link settles with the outcome its own work completed with, and not before. |
| `WorkChainEvents.RestingHasTicked` | src/daemon.ts:606-609 | In every run that has come to rest, every timer fire has had its tick link, every trigger its caller, and the work of every link has completed. |
| `WorkChainEvents.WatchdogFires` | src/daemon.ts:1005-1018 | A watchdog fire enqueues one pass if and only if none is queued or running, and after it one is. |
| `WorkspacePaths.SlugWellFormed` | src/workspace-paths.ts:64-77 | Every slug is made of words of lower-case letters and digits joined by single hyphens. |
| `WorkspacePaths.SlugKeepsWords` | src/workspace-paths.ts:64-77 | The slug has exactly the words of the simplified input, in order; the fallback stands exactly for an input without any. |
| `WorkspacePaths.SlugExact` | src/workspace-paths.ts:64-77 | The slug from the input: after normalization and without non-ASCII characters, its runs of ASCII letters and digits in lower case, joined by hyphens; the fallback stands exactly for an input without any. |
| `WorkspacePaths.DecimalExact` | src/workspace-paths.ts:50 | The digits of an issue number are read back as the number, without a leading zero. |
| `WorkspacePaths.SlugFixedPoints` | src/workspace-paths.ts:64-77 | Exactly the well-formed strings are their own slugs. |
| `WorkspacePaths.SlugIdempotent` | src/workspace-paths.ts:64-77 | Slugging a slug changes nothing, whatever the fallbacks. |
| `WorkspacePaths.BranchIdentity` | src/workspace-paths.ts:50-53 | Two planned branches are equal if and only if project slug, issue number and issue slug are: different issue numbers never share a branch. |
| `WorkspacePaths.PlanSpelled` | src/workspace-paths.ts:36-62 | The branch, directory and paths of a fresh plan, as text. |
| `WorkspacePaths.AdoptsPlannedBranches` | src/daemon.ts:1682-1707 | The branch check accepts a head ref if and only if some title makes it the branch planned for that project and issue number. |
| `WorkspacePaths.PlannedIsAdopted` | src/daemon.ts:1682-1707 | It accepts every planned branch and extracts its slug. |
| `WorkspacePaths.ReplanReproduces` | src/daemon.ts:1690-1707 | Planning with the extracted slug gives back the branch. |
| `WorkspacePaths.ReplanIsOriginalPlan` | src/daemon.ts:1690-1707 | And the whole original plan: directory and workspace path too. |
| `WorkspacePaths.ExistingPlanWins` | src/workspace-paths.ts:40-48 | Any persisted plan wins: its branch and path are returned whatever project, number and title are now. |
| `WorkspacePaths.PersistedPlanReproduced` | src/workspace-paths.ts:40-62 | Persisting a plan and planning again reproduces it whole, whatever the title was edited to. |
| `Reload.ReadRoutineDeclarations` | src/reload.ts:1437-1549 | The loop with its map of seen names returns exactly the accepted routines, new invalid ones and duplicates of the specification. |
| `Reload.ClaimsExact` | src/reload.ts:1452-1547 | A name is reserved exactly when some listed entry claims it. |
| `Reload.RoutinesBacked` | src/reload.ts:1456-1547 | A routine is accepted if and only if a listed entry offers it, targets its project and is the first to claim its name. |
| `Reload.OneEntryPerName` | src/reload.ts:1456-1547 | Each accepted name, and each path, is backed by exactly one listed entry and is one declaration. |
| `Reload.HomelessAimed` | src/reload.ts:831-855 | The target errors are exactly the routines whose target is not declared exactly once. |
| `Reload.EveryPairPlacedOnce` | src/reload.ts:831-938 | Each routine-target pair is placed exactly as often as listed, in exactly one of attached, tracker-less, template-rejected or target error. |
| `Reload.GroupByTarget` | src/reload.ts:789-798 | Groups routines by target, in order. |
| `Reload.GroupInvalidNames` | src/reload.ts:799-810 | Groups the recovered names of invalid declarations by target. |
| `Reload.CountNames` | src/reload.ts:824-830 | Counts the projects of each name. |
| `Reload.FindHost` | src/reload.ts:844 | The index of a project of the name. |
| `Reload.PlaceRoutines` | src/reload.ts:866-926 | Splits one project's routines into its three lists, in order. |
| `Reload.Decide` | src/reload.ts:867-925 | The tracker rule first, then the command-template check of the resolved provider. |
| `Reload.AttachTo` | src/reload.ts:863-937 | Assigns the lists to the one project of a name and to no other. |
| `Reload.AttachRoutines` | src/reload.ts:789-938 | The whole pass, in place, over every target. |
| `Reload.HostAllMembers` | src/reload.ts:831-938 | What is attached after the pass: exactly the given routines whose single project accepts them. |
| `Reload.LoadedMembers` | src/reload.ts:762-939 | What a live reload attaches: exactly the backed routines, with defaults, that are welcome. |
| `Reload.ReloadedCoherent` | src/reload.ts:762-939 | After every live reload, attached routines that share a name or a path are one declaration. |
| `Reload.KeptIffListedAndWelcome` | src/reload.ts:1472-1495 | With its file broken, an attached routine stays attached after a live reload if and only if its path is listed for its target, no earlier entry claims its name, and its target accepts it. |
| `Reload.ForgottenStaysForgotten` | src/reload.ts:764-766 | Once nothing from a path is attached, its broken file cannot bring it back. |
| `Reload.LastGoodStays` | src/reload.ts:522-582 | Across any number of reloads with a broken file, failed or live, the last good declaration stays attached under those conditions. |
| `Reload.CheckCommands` | src/reload.ts:664-680 | Every provider's command must parse, used or not. |
| `Reload.RuntimeConfigReloader.constructor` | src/reload.ts:439-456 | No snapshot at first. |
| `Reload.RuntimeConfigReloader.Reload` | src/reload.ts:522-582 | Installs the new snapshot or keeps the last known good one, which it reports exactly then; the snapshot stays coherent. |
| `Reload.RuntimeConfigReloader.LastKnownGoodOrNothing` | src/reload.ts:1564-1580 | Keeps the snapshot there is. |
| `RoutinePlacement.PlacedExactly` | src/reload.ts:860-926 | A routine is tracker-less if and only if it needs Git on a routine host without a tracker; of the others, rejected if and only if the command of its own provider, or else of the project, does not parse or never names a model or effort that it gives. |
| `RoutinePlacement.OwnValuesWin` | src/reload.ts:789-792 | A routine's own model, effort and permission mode win over the defaults, which fill in missing ones and change nothing else. |
| `RoutinePlacement.NewContentReplaces` | src/reload.ts:1500-1549 | After a live reload a file that loads has replaced what its path had: its declaration is attached if and only if the target welcomes it, and no other one from that path is. |

## Left out

- Redaction.RedactedTextClean: the condition is shown sufficient for every list of secrets. It is shown necessary for secrets inside the marker; each other overlap has one input, and which lists with such an overlap return a secret for some text is not characterised.
- SystemdMemory.RelativeExact: amounts are exact numbers; the source adds doubles, and their rounding is not modelled.
- SystemdMemory.AcceptedIffInRange: the double in `systemdFractionalValue` is an arbitrary value between 0 and 1 that is 0 for a zero numerator; its rounding is not modelled, and truncating its product with the multiplier is exact arithmetic over `real`.
- UnitReaders.CommandsExact: speaks of command lines made of quoted arguments; how other lines split is `WordsExact`.
- Redaction.RedactAll: texts are sequences of characters; that the runtime counts UTF-16 units is not modelled.
- DeepRedaction.RedactUnknownDeep: properties keep insertion order; integer-like keys first, `__proto__` and values outside JSON are not modelled.
- ServiceUnit.GeneratedUnitRoundTrip: the fixed lines of the unit are parameters constrained to what they are (comments, blank lines, other directives, section headers); drop-ins concatenated after the unit are not part of it.
- SystemdQuoting.ExecStartRoundTrip: `path.basename` is modelled for slash-separated paths.
- PollStatus.IssuePollStatus.RunTick: what GitHub answers for a project, whether an issue is eligible, the sort's comparator and which candidates a newer run suppresses are parameters; a reload without any snapshot, and an exception, which blank the status, are not part of this model.
- PollStatus.IssuePollStatus.PublishTick: the writes to the run store are not modelled, except for the rows of `SnapshotRows`.
- BackoffLedger.RefusedExactly: the clock's reading is a parameter of every call, and tokens are already resolved.
- WorkChain.PostedCallerServed: every work ends in a later job than it began in, and the jobs the runtime needs to chain a returned promise are one; other code's jobs only matter through the actions they post.
- PollStatus.MergeBands: identities are compared after lower-casing ASCII letters only, and as triples instead of their JSON text.
- WorkerPool.FinishedResults: what each call settles with is a parameter; when a call is rejected the pool's promise is rejected, and nothing is claimed about results.
- WorkspacePaths.AdoptsPlannedBranches: NFKD normalization is a parameter that leaves ASCII text alone; `path.resolve` of the workspace root is a parameter.
- Reload.RuntimeConfigReloader.Reload: starts from what the YAML and the declaration files yield; schemas, polling settings, warnings and message texts are not part of this model, and of the routine defaults only the three template values are. The order of error messages is not kept.
- Reload.AttachRoutines: visits targets in any order; the source visits them in insertion order, which only orders its messages.
- FetchLocks.MutualExclusion: the steps inside the guarded section (exists, clone, fetch) are one section that ends some time; Git processes, their teardown and file-system effects are not modelled.
- AbortCleanup.NeverResolvesEarly: operations are identities that settle some time.
- `BoundedGitOutput` of `src/workspace.ts` would only add an easy member.
- GitHub, SMTP, SQLite and HTTP calls, provider processes, timers and the watchdog, run admission and the workflow machine are not modelled.
- `work-history.ts`, enum mappings and column codecs would only add easy members.
