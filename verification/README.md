# MCP access stack: verified model

A Dafny model of the parts of the MCP access stack in which a mistake would be hardest to see by
reading, with proofs of what they promise. It covers eight components.

| files | component |
|---|---|
| `CommandLine.dfy` | Windows command-line quoting in the host launcher, against the argv rules of "Parsing C command-line arguments" (Microsoft Learn) |
| `CredentialWire.dfy` | the credential broker's binary format: C# writer, TypeScript reader |
| `JsonText.dfy`, `CanonicalJson.dfy`, `ConfirmationDigest.dfy` | canonical JSON and the text of confirmation digests; string escaping follows section 7 of RFC 8259 |
| `OperationQueue.dfy` | the per-key operation queue with bounded slots and cancellation |
| `Extraction.dfy`, `ExtractionValues.dfy`, `ExtractionRun.dfy` | merging of scroll samples, cutting to UTF-8 limits, and the extraction loop |
| `Rows.dfy`, `SessionRegistry.dfy`, `TaskRegistry.dfy`, `TabBinding.dfy` | recovery of the stored registry, and the live task, tab and binding indexes |
| `ContractRollout.dfy`, `EdgeSession.dfy` | the edge session: connector handover, contract rollout, in-flight relays, restarts |
| `FrameSequence.dfy`, `NavigationCache.dfy`, `IdempotencyRegistry.dfy` | frame sequences, the navigation cache against its usage log, and the idempotency registry |

`Text.dfy` holds UTF-16 strings and the Option and Result types.

Protocols are modelled as a state with a `Next` function over events; invariants are proved for every
step and carried over every run, and a class beside them does each event handler's work in place and is
proved to take the state where `Next` says. One event is what the original runs between two awaits. Storage
awaits do not end an event: while a Durable Object waits for its storage no other event is delivered to it, so
promotion, rollback and connector upgrade are one event each. Reading the body of a legacy request is not a storage
operation; there the event ends.
Algorithms with loops are methods proved against an independent specification.

Some obvious claims are false of the code. Each is stated with the condition under which it holds:

- `recoverV6Registry` throws on storage that passes the storage schema: `SessionRegistry.RecoversExactlyWhen`,
  `StrayTabExample`. `migrateV4Registry` throws for session ids of more than 123 characters, because the task
  id it makes is longer than its schema allows: `MigrateV4ExactlyWhen`, `LongSessionIdExample`.
- A task that is over can be given a tab by `attachExistingTab`: `TaskRegistry.RunHoldsNothingExactlyUnless`,
  `FinishedTaskGetsTabExample`.
- After reconciling, the expected contract may be unprepared: `ContractRollout.PreparedUnlessStale`.
- An extraction can say it is complete after a multi-byte character was cut:
  `ExtractionRun.CompleteIsWholeExactlyWhen`, `SlackRun`.
- A reply can come from another connector than the request went to: `EdgeSession.ReplyIsOwnExactlyWhenAlone`,
  `ForeignReplyExample`.
- A key can be run again within its time to live when the clock goes back: `IdempotencyRegistry.SpacedExactlyWhen`,
  `ClockBackExample`.
- Opening a task by its id does not always extend its life: `TaskRegistry.OpenedIsSparedExactlyWhen`,
  `OpenedTaskExpiresExample`.
- An argument with a NUL does not survive the command line: `CommandLine.RoundTrip`.
- A legacy request can be pending on a connector that has closed, because the connector is chosen before the
  body is read: `EdgeSession.OutlivesExactlyWhenRegisteredLate`, `LateRegistrationExample`.
- A second recovery can drop a session the first one kept: `SessionRegistry.RecoversForGoodExactlyWhen`,
  `FailedSessionExample`.
- A member named `__proto__` is lost before digesting: `ConfirmationDigest.PrototypeMemberLeavesNoTrace`; what
  does hold is `SameDigestExactlyWhenKeptEquivalent`, and without such members
  `SameDigestExactlyWhenEquivalentUnconfirmed`.

## Model

| member | source | states |
|---|---|---|
| `CommandLine.QuoteWindowsArgument` | mcp-access-stack/tooling/windows-host-launcher/McpNodeHostLauncher.cs:615-657 | the loop over the argument with its backslash counter writes exactly the quoted form: untouched, or in quotes with 2n + 1 backslashes before a quote and 2n before the closing one |
| `CommandLine.BuildCommandLine` | mcp-access-stack/tooling/windows-host-launcher/McpNodeHostLauncher.cs:601-613 | joins the quoted arguments with single spaces |
| `CommandLine.RoundTrip` | mcp-access-stack/tooling/windows-host-launcher/McpNodeHostLauncher.cs:601-657 | parsing the command line by the documented argv rules gives back the arguments, for every list, if and only if no argument holds a NUL |
| `CommandLine.Injective` | mcp-access-stack/tooling/windows-host-launcher/McpNodeHostLauncher.cs:601-657 | two different argument lists without NUL never share a command line |
| `CredentialWire.ByteStream.WriteResponse` | mcp-access-stack/tooling/windows-credential-broker/McpCredentialBroker.cs:139-162 | within the field limits the whole payload is written; otherwise the writer fails and has written exactly the part before the first field over its limit |
| `CredentialWire.ByteStream.WriteBuffer` | mcp-access-stack/tooling/windows-credential-broker/McpCredentialBroker.cs:164-172 | length word and bytes are appended, or nothing when the field is over its maximum |
| `CredentialWire.Int32RoundTrip` | mcp-access-stack/packages/mcp-core/src/windows-credential-broker.ts:329-332 | the four little-endian bytes of a signed 32-bit number read back as that number, the sign bit included |
| `CredentialWire.ParseBrokerPayload` | mcp-access-stack/packages/mcp-core/src/windows-credential-broker.ts:269-327 | reads what the specification says of the payload, whatever its bytes, and leaves only zeros in the buffer on every path |
| `CredentialWire.ReadPayload` | mcp-access-stack/packages/mcp-core/src/windows-credential-broker.ts:170-192 | chunks are collected whole up to 140000 bytes and refused as soon as the running total is larger |
| `CredentialWire.RoundTrip` | mcp-access-stack/packages/mcp-core/src/windows-credential-broker.ts:269-361 | the reader undoes the writer for every status, process id, nonce and credential within the limits |
| `CredentialWire.StatusIsUnderstood` | mcp-access-stack/tooling/windows-credential-broker/McpCredentialBroker.cs:244-251 | each of the five statuses the broker writes is read as what it means; a success without name or password is a mismatch |
| `CredentialWire.ReadsCut` | mcp-access-stack/packages/mcp-core/src/windows-credential-broker.ts:269-361 | of a written payload with anything after it, only the cut at its exact end is interpreted; shorter ones are truncated, longer ones a mismatch |
| `CredentialWire.SelfDelimiting` | mcp-access-stack/packages/mcp-core/src/windows-credential-broker.ts:300-361 | strict prefixes are rejected as truncated, strict extensions as a mismatch |
| `CredentialWire.OnlyWrittenPayloadsSucceed` | mcp-access-stack/packages/mcp-core/src/windows-credential-broker.ts:269-327 | a credential is returned only for the very bytes the writer emits for it, that nonce and that process |
| `CredentialWire.WritableFitsCap` | mcp-access-stack/packages/mcp-core/src/windows-credential-broker.ts:10 | the largest payload the writer can emit has 135200 bytes and fits under the cap of 140000 |
| `CredentialWire.Exchange` | mcp-access-stack/packages/mcp-core/src/windows-credential-broker.ts:165-200 | a written payload, split into any chunks, is read back as what was written |
| `JsonText.ReadsQuoted` | mcp-access-stack/packages/mcp-core/src/browser-idempotency.ts:9-12 | an independent string reader takes every quoted string back, surrogates and control characters included, and stops at its closing quote |
| `JsonText.QuoteUnique` | mcp-access-stack/packages/mcp-core/src/browser-idempotency.ts:9-12 | two quoted strings at the head of equal texts are the same string |
| `JsonText.ReadsMagnitude` | mcp-access-stack/packages/mcp-core/src/browser-idempotency.ts:13-17 | the shortest decimal form, with and without exponent, reads back as the digits and the decimal point it was made from |
| `JsonText.ExponentExactlyWhen` | mcp-access-stack/packages/mcp-core/src/browser-idempotency.ts:13-17 | exponent notation is used exactly from 1e21 on and below 1e-6 |
| `JsonText.NumberInjective` | mcp-access-stack/packages/mcp-core/src/browser-idempotency.ts:13-17 | equal number texts come from equal numbers, apart from the two zeros |
| `CanonicalJson.PrintsNormalForm` | mcp-access-stack/packages/mcp-core/src/browser-idempotency.ts:6-32 | the printer gives the text of the normal form of a supported value and throws exactly on an unsupported part in a place that is kept |
| `CanonicalJson.PrintUnique` | mcp-access-stack/packages/mcp-core/src/browser-idempotency.ts:6-32 | unique readability: equal texts, whatever follows, come from the same normal form |
| `CanonicalJson.NormsAgree` | mcp-access-stack/packages/mcp-core/src/browser-idempotency.ts:20-28 | normal forms are equal exactly for equivalent values; equivalence is stated by member look-up, without sorting |
| `CanonicalJson.SameTextExactlyWhenEquivalent` | mcp-access-stack/packages/mcp-core/src/browser-idempotency.ts:6-32 | a text exists exactly for supported values, and two of them share it exactly when they are equal up to key order, dropped undefined members, undefined as null, and -0 as 0 |
| `ConfirmationDigest.RemoveEphemeralAndRejectSensitive` | mcp-access-stack/packages/mcp-core/src/typed-confirmation.ts:129-156 | the recursive pass with its loop over the members computes the specified removal |
| `ConfirmationDigest.RemoveStrips` | mcp-access-stack/packages/mcp-core/src/typed-confirmation.ts:129-173 | the pass succeeds exactly on values without sensitive fields and non-plain objects in the kept part, and returns the stripped value |
| `ConfirmationDigest.SensitiveExactlyWhen` | mcp-access-stack/packages/mcp-core/src/typed-confirmation.ts:162-173 | a key is refused exactly when its letters and digits contain one of five words or end in one of two |
| `ConfirmationDigest.NormalizedUnitTable` | mcp-access-stack/packages/mcp-core/src/typed-confirmation.ts:158-160 | letters are lowered, digits kept, everything else is dropped but two letters outside ASCII that lower to something kept |
| `ConfirmationDigest.SameDigestExactlyWhenKeptEquivalent` | mcp-access-stack/packages/mcp-core/src/typed-confirmation.ts:88-91 | a text is digested exactly for clean, printable values, and two share it exactly when their kept parts are equivalent |
| `ConfirmationDigest.StripsOnlyConfirmations` | mcp-access-stack/packages/mcp-core/src/typed-confirmation.ts:142-155 | the pass takes out the confirmation fields alone exactly when no member outside them, at any depth, is named `__proto__` |
| `ConfirmationDigest.SameDigestExactlyWhenEquivalentUnconfirmed` | mcp-access-stack/packages/mcp-core/src/typed-confirmation.ts:88-91 | without such members, two values that are digested share their text exactly when they are equivalent once confirmation fields alone are removed |
| `ConfirmationDigest.ConfirmationIdsDoNotCount` | mcp-access-stack/packages/mcp-core/src/typed-confirmation.ts:143-147 | inserting confirmationId fields, in any spelling and at any depth, changes neither the digested text nor the error |
| `ConfirmationDigest.PrototypeMemberLeavesNoTrace` | mcp-access-stack/packages/mcp-core/src/typed-confirmation.ts:142-155 | a member named `__proto__` with a primitive value is lost by the assignment, so two values that are not equivalent share a text |
| `OperationQueue.StepKeepsInv` | mcp-access-stack/services/browser-worker/services/browser-operation-queue.ts:21-134 | every step keeps the slot accounts and the turn order |
| `OperationQueue.Reachable` | mcp-access-stack/services/browser-worker/services/browser-operation-queue.ts:21-134 | so does every interleaving of enqueues, turns, aborts, timeouts and releases, and `active` never exceeds `maxConcurrency` |
| `OperationQueue.OneTurnPerKey` | mcp-access-stack/services/browser-worker/services/browser-operation-queue.ts:27-69 | while a run of a key is past its turn every earlier run of that key is released |
| `OperationQueue.StartsInEnqueueOrder` | mcp-access-stack/services/browser-worker/services/browser-operation-queue.ts:27-69 | tasks of one key are called in enqueue order, none twice, also when a waiter in the middle aborts |
| `OperationQueue.AbsentKeyIsIdle` | mcp-access-stack/services/browser-worker/services/browser-operation-queue.ts:101-107 | a key absent from `tails` has no unreleased run |
| `OperationQueue.SettleKeepsSlots` | mcp-access-stack/services/browser-worker/services/browser-operation-queue.ts:88-99 | releasing a slot takes exactly one off `active`: the clamp at zero never fires |
| `OperationQueue.ParkedMeansFull` | mcp-access-stack/services/browser-worker/services/browser-operation-queue.ts:72-99 | no wakeup is lost: if nobody is about to test again, a parked waiter means that every slot is held |
| `OperationQueue.WokenInOrder` | mcp-access-stack/services/browser-worker/services/browser-operation-queue.ts:72-99 | over any run, as long as one waiter stays parked none that parked behind it is woken; it can only give up by its own abort |
| `OperationQueue.ReleaseWakesFirst` | mcp-access-stack/services/browser-worker/services/browser-operation-queue.ts:94-98 | a release takes the waiter that parked first off the list and resumes it, and leaves all others parked |
| `OperationQueue.OnlyReleasesWake` | mcp-access-stack/services/browser-worker/services/browser-operation-queue.ts:72-99 | no other step wakes anybody; a waiter leaves otherwise only by its own abort |
| `OperationQueue.ParksBehind` | mcp-access-stack/services/browser-worker/services/browser-operation-queue.ts:72-93 | a run parks exactly when all slots are held and it is not aborted, and behind everybody who is parked |
| `OperationQueue.AbortedNeverWait` | mcp-access-stack/services/browser-worker/services/browser-operation-queue.ts:109-134 | over any run nobody waits for a turn or a slot with its abort already delivered |
| `OperationQueue.Progress` | mcp-access-stack/services/browser-worker/services/browser-operation-queue.ts:21-134 | while a run is not released some step other than a new call, an abort or a cleanup is possible |
| `OperationQueue.EightStepsPerCall` | mcp-access-stack/services/browser-worker/services/browser-operation-queue.ts:21-134 | no run has more than eight steps per call, aborts and wakeups included: without new calls every interleaving ends |
| `OperationQueue.StuckMeansDone` | mcp-access-stack/services/browser-worker/services/browser-operation-queue.ts:21-134 | with at least one slot: where only new calls and aborts are possible, every run is released and no tail, waiter, slot or queued count is left |
| `OperationQueue.Drained` | mcp-access-stack/services/browser-worker/services/browser-operation-queue.ts:21-134 | when all runs are released and cleaned up, no tail, waiter, slot or queued count is left |
| `OperationQueue.BrowserOperationQueue.AcquireSlotPass` | mcp-access-stack/services/browser-worker/services/browser-operation-queue.ts:72-99 | one test of the slot loop takes a slot or parks, as the step says |
| `OperationQueue.BrowserOperationQueue.EnqueueRun` | mcp-access-stack/services/browser-worker/services/browser-operation-queue.ts:21-47 | the call up to its first await appends its turn to the tail of its key |
| `OperationQueue.BrowserOperationQueue.StartTask` | mcp-access-stack/services/browser-worker/services/browser-operation-queue.ts:48-69 | the task is called or, aborted or expired, its slot and its turn are released |
| `OperationQueue.BrowserOperationQueue.TaskSettled` | mcp-access-stack/services/browser-worker/services/browser-operation-queue.ts:48-69 | the finally block releases the slot, wakes the first waiter and releases the turn |
| `OperationQueue.BrowserOperationQueue.CleanupTail` | mcp-access-stack/services/browser-worker/services/browser-operation-queue.ts:101-107 | the tail is deleted only if it is still this run |
| `Extraction.TruncateString` | mcp-access-stack/services/browser-worker/services/browser-extraction-completeness-service.ts:491-504 | the binary search returns the longest prefix within the limit |
| `Extraction.PrefixGrows` | mcp-access-stack/services/browser-worker/services/browser-extraction-completeness-service.ts:491-504 | one more UTF-16 unit always costs at least one byte: prefix length is strictly monotone, through split surrogate pairs |
| `Extraction.TruncationUnique` | mcp-access-stack/services/browser-worker/services/browser-extraction-completeness-service.ts:491-504 | there is exactly one longest prefix, the one found by trying every length |
| `Extraction.ByteLengthIsEncodedLength` | mcp-access-stack/services/browser-worker/services/browser-extraction-completeness-service.ts:491-504 | the byte length counted unit by unit is that of the text encoded in UTF-8, section 3 of RFC 3629, with lone surrogates replaced |
| `Extraction.CutFillsExactlyWhen` | mcp-access-stack/services/browser-worker/services/browser-extraction-completeness-service.ts:491-504 | after a cut the limit is filled to the byte exactly when some prefix of the value has that size; single-byte text always fills it |
| `Extraction.MergeOrderedText` | mcp-access-stack/services/browser-worker/services/browser-extraction-completeness-service.ts:447-471 | the overlap loops compute the merge at the longest overlap of at most 200 lines |
| `Extraction.LinesMatch` | mcp-access-stack/services/browser-worker/services/browser-extraction-completeness-service.ts:457-466 | the inner loop decides whether the last lines of one side are the first of the other |
| `Extraction.SplitAtLineFeeds` | mcp-access-stack/services/browser-worker/services/browser-extraction-completeness-service.ts:454-455 | no line has a line feed in it; joining the lines gives the text back |
| `Extraction.MergesAtLongestShared` | mcp-access-stack/services/browser-worker/services/browser-extraction-completeness-service.ts:447-471 | two texts of which neither holds the other at its edge are joined at the longest run of at most 200 lines they share, and with a line feed if they share none |
| `Extraction.MergeKeepsBoth` | mcp-access-stack/services/browser-worker/services/browser-extraction-completeness-service.ts:447-471 | the merge has the text so far as a prefix and the new sample as a suffix |
| `Extraction.SampleIsContiguous` | mcp-access-stack/services/browser-worker/services/browser-extraction-completeness-service.ts:447-471 | every sample is a contiguous part of the merged text |
| `ExtractionValues.TruncateValue` | mcp-access-stack/services/browser-worker/services/browser-extraction-completeness-service.ts:473-489 | cuts strings and the text of records as the specification says |
| `ExtractionValues.RecordBytesIsTextLength` | mcp-access-stack/services/browser-worker/services/browser-extraction-completeness-service.ts:506-512 | the size of a record is the UTF-8 length of its serialized text |
| `ExtractionValues.NoCut` | mcp-access-stack/services/browser-worker/services/browser-extraction-completeness-service.ts:405-412 | a single-byte value that stays below its limit was not cut |
| `ExtractionValues.NoCutMerge` | mcp-access-stack/services/browser-worker/services/browser-extraction-completeness-service.ts:418-434 | if the merged page stays below its limit, neither the sample nor the merge was cut |
| `ExtractionRun.ResultOf` | mcp-access-stack/services/browser-worker/services/browser-extraction-completeness-service.ts:371-399 | the pages are combined and cut to the limit; a cut overrides status and reason |
| `ExtractionRun.OpenPage` | mcp-access-stack/services/browser-worker/services/browser-extraction-completeness-service.ts:89-127 | the first sample of a page: a stop names a limit that was met, otherwise nothing of a single-byte sample was cut |
| `ExtractionRun.Scroll` | mcp-access-stack/services/browser-worker/services/browser-extraction-completeness-service.ts:129-225 | one scroll merges one more sample, and a stop names a reason that holds of what was seen |
| `ExtractionRun.ReadPage` | mcp-access-stack/services/browser-worker/services/browser-extraction-completeness-service.ts:89-225 | a page ends at its end or for a reason that holds; scrolls stay within the limit; a page read to its end and made of single-byte samples is their whole merge |
| `ExtractionRun.VisitPage` | mcp-access-stack/services/browser-worker/services/browser-extraction-completeness-service.ts:88-329 | after a page the run stops honestly or follows a link it has not followed before |
| `ExtractionRun.Extract` | mcp-access-stack/services/browser-worker/services/browser-extraction-completeness-service.ts:50-341 | terminates with pages and scrolls within their limits and text within its bytes; the reason given is true of the probes, links and times seen; scrolling goes on while more than two units lie below what is shown, complete means that no page has more than two left, and a scroll or progress limit that the last one has; a next link is reported exactly when the last probe named one |
| `ExtractionRun.TakeSample` | mcp-access-stack/services/browser-worker/services/browser-extraction-completeness-service.ts:156-186 | a sample is cut to what the limit leaves and merged, and what is held is what the samples seen so far give |
| `ExtractionRun.ScrollToEnd` | mcp-access-stack/services/browser-worker/services/browser-extraction-completeness-service.ts:170-225 | the scroll loop stops at the end of the page, at a met limit or at the deadline, with the page holding what its samples give |
| `ExtractionRun.CutIsNoticed` | mcp-access-stack/services/browser-worker/services/browser-extraction-completeness-service.ts:405-412 | when a value was cut the byte-limit test fires exactly when the size the page reported is at least the limit or some prefix fills what was left to the byte; on the first page it always fires if that size is the true one |
| `ExtractionRun.PageWholeExactlyWhen` | mcp-access-stack/services/browser-worker/services/browser-extraction-completeness-service.ts:129-225 | a text page is held whole exactly when the merge of all its samples fits what was left for it |
| `ExtractionRun.CompleteIsWholeExactlyWhen` | mcp-access-stack/services/browser-worker/services/browser-extraction-completeness-service.ts:50-341 | a text extraction that says it is complete returned the whole text of every page exactly when those texts together fit the byte limit |
| `ExtractionRun.SlackRun` | mcp-access-stack/services/browser-worker/services/browser-extraction-completeness-service.ts:405-412 | a run over two pages under a limit of 11 bytes that says it is complete although a three-byte sign was cut: the test sees 3 and 9 bytes on the pages and the join has 11 |
| `ExtractionRun.CompleteLosesNothing` | mcp-access-stack/services/browser-worker/services/browser-extraction-completeness-service.ts:50-341 | a complete text extraction holds every sample of every page as one contiguous block if the texts fit the limit, and always for single-byte samples |
| `Rows.DeduplicateBy` | mcp-access-stack/services/browser-worker/domain/session-registry.ts:697-707 | the Map loop keeps the first row of every id, in order |
| `Rows.DedupKeepsFirst` | mcp-access-stack/services/browser-worker/domain/session-registry.ts:697-707 | a row is kept if no row before it has its id |
| `Rows.AssertUnique` | mcp-access-stack/services/browser-worker/domain/session-registry.ts:677-691 | no issue is reported exactly when all ids differ |
| `SessionRegistry.RecoverV4Succeeds` | mcp-access-stack/services/browser-worker/domain/session-registry.ts:437-485 | whatever is stored, the version 4 recovery passes its own check and leaves no session starting or connected |
| `SessionRegistry.RepairKeepsTabs` | mcp-access-stack/services/browser-worker/domain/session-registry.ts:453-466 | a tab survives exactly when it is the first with its id, its session is stored and the first binding with its id names the same session and page |
| `SessionRegistry.RepairKeepsBindings` | mcp-access-stack/services/browser-worker/domain/session-registry.ts:451-484 | a binding survives exactly when it is the first with its id and its tab survives |
| `SessionRegistry.RepairKeepsLatestSession` | mcp-access-stack/services/browser-worker/domain/session-registry.ts:443-450 | a session that stays is the one used last of those stored with its id, the first stored of those, field by field; a failed one stays failed, any other is disconnected |
| `SessionRegistry.RepairKeepsSessions` | mcp-access-stack/services/browser-worker/domain/session-registry.ts:443-477 | a session id survives exactly when it is stored and a surviving tab names it or its latest row was disconnected |
| `SessionRegistry.SavedIsRestored` | mcp-access-stack/services/browser-worker/domain/session-registry.ts:487-543 | a registry that passes the check of `save` is recovered with the same tabs, bindings and tasks; finished tasks stay finished, expired ones expired, all others are suspended; of the sessions exactly those with a tab and those stored as disconnected remain |
| `SessionRegistry.RecoveredTasks` | mcp-access-stack/services/browser-worker/domain/session-registry.ts:501-542 | from arbitrary storage the first row of every task comes back with its state laid to rest in the same way, and lists those of its tabs that survive if it is not over |
| `SessionRegistry.ConsistentExactlyWhen` | mcp-access-stack/services/browser-worker/domain/session-registry.ts:276-328 | the check of `save` passes exactly when every tab has its session, its binding and a task that is not over, each task lists its own tabs once and no others, and no binding or listed tab is without a tab |
| `SessionRegistry.RecoverIsIdempotent` | mcp-access-stack/services/browser-worker/domain/session-registry.ts:487-543 | recovering the recovered registry changes nothing, the order of sessions included |
| `SessionRegistry.RecoversForGoodExactlyWhen` | mcp-access-stack/services/browser-worker/domain/session-registry.ts:487-543 | arbitrary storage that recovers is unchanged by a second recovery exactly when every session that stays is used by a surviving tab or its latest row has not failed; a third recovery never changes anything |
| `SessionRegistry.FailedSessionExample` | mcp-access-stack/services/browser-worker/domain/session-registry.ts:437-485 | two rows of one session, the latest failed and the last disconnected: kept by the first recovery, dropped by the second |
| `SessionRegistry.RecoversExactlyWhen` | mcp-access-stack/services/browser-worker/domain/session-registry.ts:487-543 | arbitrary storage is recovered exactly when every task that is not over lists each surviving tab of its own once and no other surviving tab; otherwise the last check throws |
| `SessionRegistry.SurvivesExactlyWhen` | mcp-access-stack/services/browser-worker/domain/session-registry.ts:490-534 | which tabs survive: fields from the first stored row, task and lifecycle from the last one, and that task is neither finished nor expired |
| `SessionRegistry.StrayTabExample` | mcp-access-stack/services/browser-worker/domain/session-registry.ts:518-542 | a stored tab whose task does not list it makes the recovery throw |
| `SessionRegistry.MigrateV5Succeeds` | mcp-access-stack/services/browser-worker/domain/session-registry.ts:545-578 | version 5 storage always migrates to a consistent registry without tabs; finished tasks stay finished, all others are expired, and one that was running expires with its last activity |
| `SessionRegistry.MigrateV4ExactlyWhen` | mcp-access-stack/services/browser-worker/domain/session-registry.ts:580-618 | version 4 storage migrates exactly when every stored session id that stays has at most 123 characters; the result is consistent and its tasks are exactly one expired task per session, named and dated after it |
| `SessionRegistry.StaysExactlyWhen` | mcp-access-stack/services/browser-worker/domain/session-registry.ts:443-477 | which session ids stay, read off the stored rows alone |
| `SessionRegistry.LongSessionIdExample` | mcp-access-stack/services/browser-worker/domain/session-registry.ts:580-618 | one stored session with an id of 124 characters makes the migration throw |
| `TaskRegistry.RecoveredStart` | mcp-access-stack/services/browser-worker/domain/browser-task-registry.ts:60-76 | a registry built from recovered tasks starts with an exact index, right lease counts and no tab held by a task that is over |
| `TaskRegistry.StepKeepsInverse` | mcp-access-stack/services/browser-worker/domain/browser-task-registry.ts:107-322 | every operation keeps `taskByTab` and the tab lists exact inverses, refused and half-done ones included |
| `TaskRegistry.StepKeepsCounted` | mcp-access-stack/services/browser-worker/domain/browser-task-registry.ts:237-270 | the lease count of a task is the number of its leases not yet released; the clamp and the default in `release` never matter |
| `TaskRegistry.StepStaysOver` | mcp-access-stack/services/browser-worker/domain/browser-task-registry.ts:107-322 | no operation removes a task, changes its owner or brings a finished or expired one back |
| `TaskRegistry.RunKeepsInv` | mcp-access-stack/services/browser-worker/domain/browser-task-registry.ts:107-322 | the three facts over every run |
| `TaskRegistry.OverIsRefused` | mcp-access-stack/services/browser-worker/domain/browser-task-registry.ts:332-359 | a task that is over is never handed out by open, access, attach or lease |
| `TaskRegistry.AnsweredByVerdict` | mcp-access-stack/services/browser-worker/domain/browser-task-registry.ts:177-266 | leasing, accessing and attaching are answered by owner and state alone, error by error, and a tab leads to its own task |
| `TaskRegistry.OpenedExactlyWhen` | mcp-access-stack/services/browser-worker/domain/browser-task-registry.ts:107-131 | opening without an id creates a task, resumes the only one, or asks which; an empty id counts as none |
| `TaskRegistry.FinishedExactlyWhen` | mcp-access-stack/services/browser-worker/domain/browser-task-registry.ts:272-282 | finishing starts for an active or suspended task, which keeps time and tabs; a finished one is handed back; all else is refused |
| `TaskRegistry.UsedIsSpared` | mcp-access-stack/services/browser-worker/domain/browser-task-registry.ts:192-270 | after creating, attaching, detaching, leasing, releasing or restoring, expiration does not start before the whole time to live has passed |
| `TaskRegistry.OpenedIsSparedExactlyWhen` | mcp-access-stack/services/browser-worker/domain/browser-task-registry.ts:107-190 | after opening or accessing, it does not exactly when the task was suspended, is leased, was not named by the caller, or had as much time left |
| `TaskRegistry.OpenedTaskExpiresExample` | mcp-access-stack/services/browser-worker/domain/browser-task-registry.ts:332-359 | an active task opened by its id just before its time is up expires at that time |
| `TaskRegistry.OverHoldNothingExactlyUnless` | mcp-access-stack/services/browser-worker/domain/browser-task-registry.ts:212-225 | a step gives a tab to a task that is over exactly when attachExistingTab is called on it with a tab that is free |
| `TaskRegistry.RunHoldsNothingExactlyUnless` | mcp-access-stack/services/browser-worker/domain/browser-task-registry.ts:107-322 | tasks that are over hold no tab after any prefix of a run exactly when no step of it attaches a free tab to a task that is over |
| `TaskRegistry.RecoveredRunHoldsNothing` | mcp-access-stack/services/browser-worker/domain/browser-task-registry.ts:60-76 | the same for every run from a recovered registry |
| `TaskRegistry.FinishedTaskGetsTabExample` | mcp-access-stack/services/browser-worker/domain/browser-task-registry.ts:212-225 | create, completeFinish, attachExistingTab: a finished task holds a tab |
| `TaskRegistry.ReaperSparesLeased` | mcp-access-stack/services/browser-worker/domain/browser-task-registry.ts:296-303 | expiration starts exactly for an accessible task past its time with no outstanding lease |
| `TaskRegistry.RunStaysReaped` | mcp-access-stack/services/browser-worker/domain/browser-task-registry.ts:296-322 | from then on, until a restore, no run of operations leases or reaches the task |
| `TaskRegistry.BrowserTaskRegistry.constructor` | mcp-access-stack/services/browser-worker/domain/browser-task-registry.ts:60-76 | builds the maps the specification says, first task wins a tab |
| `TaskRegistry.BrowserTaskRegistry.RequireOwnedTask` | mcp-access-stack/services/browser-worker/domain/browser-task-registry.ts:332-359 | checks owner and state in order and resumes a suspended task |
| `TaskRegistry.BrowserTaskRegistry.OpenResolved` | mcp-access-stack/services/browser-worker/domain/browser-task-registry.ts:107-131 | uses the one accessible task, creates one, or asks for the id |
| `TaskRegistry.BrowserTaskRegistry.ScopedResolved` | mcp-access-stack/services/browser-worker/domain/browser-task-registry.ts:133-159 | resolves the task of a scope as the step says, the error cases included |
| `TaskRegistry.BrowserTaskRegistry.TabAccessed` | mcp-access-stack/services/browser-worker/domain/browser-task-registry.ts:177-190 | a tab without a task is refused, any other goes through the owner and state tests of its task |
| `TaskRegistry.BrowserTaskRegistry.Attach` | mcp-access-stack/services/browser-worker/domain/browser-task-registry.ts:192-210 | attaches a tab; a tab of another task is refused after the task was resumed |
| `TaskRegistry.BrowserTaskRegistry.AttachKnown` | mcp-access-stack/services/browser-worker/domain/browser-task-registry.ts:212-225 | attaches a tab without looking at owner or state |
| `TaskRegistry.BrowserTaskRegistry.Detach` | mcp-access-stack/services/browser-worker/domain/browser-task-registry.ts:227-235 | removes the tab from both sides |
| `TaskRegistry.BrowserTaskRegistry.Acquire` | mcp-access-stack/services/browser-worker/domain/browser-task-registry.ts:237-246 | counts one more lease |
| `TaskRegistry.BrowserTaskRegistry.AcquireTab` | mcp-access-stack/services/browser-worker/domain/browser-task-registry.ts:260-266 | the same tests, then one more lease on the task of the tab |
| `TaskRegistry.BrowserTaskRegistry.ReleaseOne` | mcp-access-stack/services/browser-worker/domain/browser-task-registry.ts:247-257 | a first release counts one less, a second does nothing |
| `TaskRegistry.BrowserTaskRegistry.End` | mcp-access-stack/services/browser-worker/domain/browser-task-registry.ts:284-322 | completeFinish and markExpired: every tab of the task leaves the index |
| `TaskRegistry.BrowserTaskRegistry.Expire` | mcp-access-stack/services/browser-worker/domain/browser-task-registry.ts:296-303 | beginExpiration |
| `TaskRegistry.BrowserTaskRegistry.ExpiredCandidates` | mcp-access-stack/services/browser-worker/domain/browser-task-registry.ts:324-330 | the candidates are exactly the tasks beginExpiration would take |
| `TabBinding.MatchIsIdentified` | mcp-access-stack/services/browser-worker/services/browser-tab-binding-service.ts:50-121 | a match exists, has not crashed, sits at the bound index or one nobody else claims, and has the bound address, the locked origin, or is the current page of an unexpired navigation |
| `TabBinding.FoundExactlyWhen` | mcp-access-stack/services/browser-worker/services/browser-tab-binding-service.ts:50-121 | a page is found exactly when the tab is bound and one is still there, exactly one has moved, or one is being navigated to; which page, and as what, is the first of these |
| `TabBinding.MovedTabIsKept` | mcp-access-stack/services/browser-worker/services/browser-tab-selection-service.ts:28-50 | pruning gives up no tab of which exactly one page has its address and title and is not bound to another tab |
| `TabBinding.ReboundTo` | mcp-access-stack/services/browser-worker/services/browser-tab-binding-service.ts:154-197 | where a found tab ends up: every field of its binding and its records, and nobody else's; an unexpired navigation goes on unless the page was its outcome |
| `TabBinding.ReconcileTwice` | mcp-access-stack/services/browser-worker/services/browser-tab-selection-service.ts:28-50 | after a pass with pruning every tab is matched exactly where it was rebound, whichever way it had been recovered, and a second pass over the same pages changes nothing |
| `TabBinding.ReconcileKeepsDistinct` | mcp-access-stack/services/browser-worker/services/browser-tab-selection-service.ts:28-50 | active bindings keep pairwise distinct pages for any new page list, with and without pruning, also after an error half way |
| `TabBinding.PrunedAreLive` | mcp-access-stack/services/browser-worker/services/browser-tab-selection-service.ts:28-50 | with pruning every tab left is bound to its own live, uncrashed page, and registry, binding and unified record agree |
| `TabBinding.ReconcileCompletes` | mcp-access-stack/services/browser-worker/services/browser-tab-selection-service.ts:28-50 | it ends without an error when every page has a stable id and every tab is owned by the MCP |
| `TabBinding.Bindings.BindTab` | mcp-access-stack/services/browser-worker/services/browser-tab-binding-service.ts:154-197 | updates binding, tab, unified record and the last use of the session, and leaves the new binding behind when the tab is not owned |
| `TabBinding.Bindings.DiscardTab` | mcp-access-stack/services/browser-worker/services/browser-session-state-service.ts:97-103 | removes the tab from all maps and hands its id on, once, to be detached from its task |
| `TabBinding.Bindings.ReconcileBindings` | mcp-access-stack/services/browser-worker/services/browser-tab-selection-service.ts:28-50 | the loop over the registered tabs rebinds or discards each, as the specification says |
| `ContractRollout.RevisionExactlyWhen` | mcp-access-stack/services/mcp-edge-gateway/src/contract-compatibility.ts:24-28 | a revision is exactly 64 characters out of 0123456789abcdef |
| `ContractRollout.ReconcileWellFormed` | mcp-access-stack/services/mcp-edge-gateway/src/contract-compatibility.ts:30-83 | whatever is stored, the reconciled record is well formed, keeps active and previous, starts from the observed contract if nothing valid is stored, and is written exactly when it changed |
| `ContractRollout.ReconcileIdempotent` | mcp-access-stack/services/mcp-edge-gateway/src/contract-compatibility.ts:43-83 | reconciling again on the same build changes and writes nothing |
| `ContractRollout.PreparedUnlessStale` | mcp-access-stack/services/mcp-edge-gateway/src/contract-compatibility.ts:43-88 | the expected contract is active or prepared exactly unless an older candidate is on record |
| `ContractRollout.StaleCandidateExample` | mcp-access-stack/services/mcp-edge-gateway/src/contract-compatibility.ts:48-52 | a record on which the new build ends up neither active nor candidate |
| `ContractRollout.PromoteWellFormed` | mcp-access-stack/services/mcp-edge-gateway/src/contract-compatibility.ts:102-135 | a promotion that goes through leaves a well-formed record with this build active |
| `ContractRollout.PromoteExactlyWhen` | mcp-access-stack/services/mcp-edge-gateway/src/contract-compatibility.ts:102-135 | a first promotion goes through exactly when the caller names the active contract on record, and this build's is named, is the candidate and has a ready connector; a repetition exactly when it is active with no candidate |
| `ContractRollout.RollbackExactlyWhen` | mcp-access-stack/services/mcp-edge-gateway/src/contract-compatibility.ts:137-170 | the same for a rollback to the previous contract on record |
| `ContractRollout.RollbackWellFormed` | mcp-access-stack/services/mcp-edge-gateway/src/contract-compatibility.ts:137-170 | a rollback that goes through leaves a well-formed record with the previous contract active |
| `ContractRollout.RetriesAreNoOps` | mcp-access-stack/services/mcp-edge-gateway/src/contract-compatibility.ts:102-170 | repeating either reports so and changes nothing |
| `ContractRollout.PromoteRollbackPromote` | mcp-access-stack/services/mcp-edge-gateway/src/contract-compatibility.ts:102-170 | promote, roll back, promote returns to the same active and previous pair |
| `EdgeSession.SelectIsGreatest` | mcp-access-stack/services/mcp-edge-gateway/src/mcp-session.ts:747-780 | the scan returns an eligible socket that started no earlier than any eligible one, by instance and generation among those that started together; none only if there is none |
| `EdgeSession.SelectIgnoresOrder` | mcp-access-stack/services/mcp-edge-gateway/src/connector-handover.ts:4-22 | with distinct identities the result does not depend on the order of the sockets |
| `EdgeSession.Reachable` | mcp-access-stack/services/mcp-edge-gateway/src/mcp-session.ts:97-118 | in every state of every run, restarts on other builds and closes in the middle of a legacy request included, connectors, rollout record and relay accounts are consistent |
| `EdgeSession.StepKeepsInv` | mcp-access-stack/services/mcp-edge-gateway/src/mcp-session.ts:376-459 | every event handler keeps that consistency |
| `EdgeSession.ExecutionGoesToGreatestLive` | mcp-access-stack/services/mcp-edge-gateway/src/mcp-session.ts:795-800 | v3 execution selection is, of the open, ready connectors on the active revision, the one with the greatest start time, instance and generation; the cached flag hides none |
| `EdgeSession.ExecutionPrefersV3` | mcp-access-stack/services/mcp-edge-gateway/src/mcp-session.ts:806-820 | execution goes to the v3 selection if there is one, else to the first open, ready legacy socket in listing order, and to none only if there is neither |
| `EdgeSession.RelayGoesToGreatestLive` | mcp-access-stack/services/mcp-edge-gateway/src/mcp-session.ts:652-712 | a request is taken on exactly when such a connector exists, and is sent to the greatest |
| `EdgeSession.LegacyGoesToFirst` | mcp-access-stack/services/mcp-edge-gateway/src/mcp-session.ts:462-468 | a legacy request is tied to the first open ready legacy connector in listing order, and only while no v3 one is live |
| `EdgeSession.FreshChangeIsSelectable` | mcp-access-stack/services/mcp-edge-gateway/src/mcp-session.ts:205-249 | a promotion or rollback that takes effect leaves its connector selected in the same step |
| `EdgeSession.ActiveMovesOntoReadyConnector` | mcp-access-stack/services/mcp-edge-gateway/src/mcp-session.ts:205-313 | the active contract moves only by promotion to this build or rollback to the previous one, always onto a selectable connector; restarts never move it |
| `EdgeSession.PromotionMovesExactlyWhen` | mcp-access-stack/services/mcp-edge-gateway/src/mcp-session.ts:205-249 | a promotion moves the active contract exactly when it names the active one, and this build's is the candidate and has an open ready connector |
| `EdgeSession.RollbackMovesExactlyWhen` | mcp-access-stack/services/mcp-edge-gateway/src/mcp-session.ts:271-324 | a rollback does exactly when this build's is active, the previous one on record is named, its catalog is stored and it has an open ready connector |
| `EdgeSession.PromotionTakesEffect` | mcp-access-stack/services/mcp-edge-gateway/src/mcp-session.ts:205-249 | an accepted promotion never finds its catalog missing |
| `EdgeSession.AnsweredExactlyOnce` | mcp-access-stack/services/mcp-edge-gateway/src/mcp-session.ts:646-725 | in one instance every accepted request is pending with timer and abort hook or answered once with both released; accepted = pending + answered |
| `EdgeSession.AccountsAcrossRestarts` | mcp-access-stack/services/mcp-edge-gateway/src/mcp-session.ts:97-118 | over any run with restarts a request was accepted as often as it was answered, is pending, or was pending when an instance went down |
| `EdgeSession.AnswersAreDeserved` | mcp-access-stack/services/mcp-edge-gateway/src/mcp-session.ts:423-459 | every answer an event adds is of the kind that event stands for, and connector loss is answered only for requests of that connector |
| `EdgeSession.NoRelayNamesFailedConnector` | mcp-access-stack/services/mcp-edge-gateway/src/mcp-session.ts:457-459 | after a socket error, until the socket is ready again, no pending request names it but legacy ones chosen for it before; none if it speaks v3 |
| `EdgeSession.NoRelayOutlivesItsConnector` | mcp-access-stack/services/mcp-edge-gateway/src/mcp-session.ts:452-455 | after a connector closed no pending request names it, then or ever after, but legacy ones chosen for it before; none if it speaks v3 |
| `EdgeSession.OutlivesExactlyWhenRegisteredLate` | mcp-access-stack/services/mcp-edge-gateway/src/mcp-session.ts:604-644 | over every run from a first boot a pending request names a connector that is gone exactly when it was registered after that close, by the same instance, and its send did not throw; it is then a legacy one and its timer is armed |
| `EdgeSession.LateRegistrationExample` | mcp-access-stack/services/mcp-edge-gateway/src/mcp-session.ts:604-644 | choose a legacy connector, close it while the body is read, register: the request is pending on a connector that is gone |
| `EdgeSession.ReplyIgnoresConnector` | mcp-access-stack/services/mcp-edge-gateway/src/mcp-session.ts:423-428 | a reply has the same effect whichever live connector sends it |
| `EdgeSession.ReplyIsOwnExactlyWhenAlone` | mcp-access-stack/services/mcp-edge-gateway/src/mcp-session.ts:423-428 | every reply that answers a pending request comes from its own connector exactly when no other socket is live |
| `EdgeSession.ForeignReplyExample` | mcp-access-stack/services/mcp-edge-gateway/src/mcp-session.ts:423-428 | from every first boot a run leads to two live connectors of which the second answers a request sent to the first |
| `EdgeSession.CutoverIsFinal` | mcp-access-stack/services/mcp-edge-gateway/src/mcp-session.ts:576-602 | once a v3 connector was ready, no run admits another legacy connection |
| `EdgeSession.AdmittedExactlyWhen` | mcp-access-stack/services/mcp-edge-gateway/src/mcp-session.ts:576-602 | a connection is admitted exactly when it asks for v3, or asks for nothing before cutover, and speaks v3 exactly when it asked |
| `EdgeSession.FlaggedExactlyWhen` | mcp-access-stack/services/mcp-edge-gateway/src/mcp-session.ts:388-418 | a ready message sets the compatibility flag exactly for legacy and for the active or candidate revision, and cutover exactly for v3 |
| `EdgeSession.McpSession.SelectReadyConnector` | mcp-access-stack/services/mcp-edge-gateway/src/mcp-session.ts:747-780 | the loop over the sockets returns the specified selection |
| `EdgeSession.McpSession.GetPreferredExecutionReadyConnector` | mcp-access-stack/services/mcp-edge-gateway/src/mcp-session.ts:806-820 | in a consistent state returns the greatest eligible v3 socket, else the first ready legacy one, else none, and changes nothing |
| `EdgeSession.McpSession.RefreshOpenConnectorContractCompatibility` | mcp-access-stack/services/mcp-edge-gateway/src/mcp-session.ts:885-896 | recomputes the cached flag of every open socket and nothing else |
| `EdgeSession.McpSession.HandleConnectorUpgrade` | mcp-access-stack/services/mcp-edge-gateway/src/mcp-session.ts:576-602 | admits a connector or refuses a legacy one after cutover |
| `EdgeSession.McpSession.ConnectorReady` | mcp-access-stack/services/mcp-edge-gateway/src/mcp-session.ts:376-420 | a ready message sets attachment and cutover |
| `EdgeSession.McpSession.WebSocketClose` | mcp-access-stack/services/mcp-edge-gateway/src/mcp-session.ts:452-455 | the connector is gone and its pending requests are failed |
| `EdgeSession.McpSession.WebSocketError` | mcp-access-stack/services/mcp-edge-gateway/src/mcp-session.ts:457-459 | its pending requests are failed |
| `EdgeSession.McpSession.FailPendingRequestsForConnector` | mcp-access-stack/services/mcp-edge-gateway/src/mcp-session.ts:942-950 | every pending request of the connector is answered, others are untouched |
| `EdgeSession.McpSession.PromoteContractRollout` | mcp-access-stack/services/mcp-edge-gateway/src/mcp-session.ts:197-256 | stores and adopts the promoted record, or changes nothing |
| `EdgeSession.McpSession.RollbackContractRollout` | mcp-access-stack/services/mcp-edge-gateway/src/mcp-session.ts:263-324 | the same for a rollback |
| `EdgeSession.McpSession.Dispatch` | mcp-access-stack/services/mcp-edge-gateway/src/mcp-session.ts:646-725 | takes a request on with its timer and abort hook, or answers it when sending fails |
| `EdgeSession.McpSession.RelayLegacyRequest` | mcp-access-stack/services/mcp-edge-gateway/src/mcp-session.ts:462-468 | the part before the body is read chooses the preferred connector |
| `EdgeSession.McpSession.LegacyBodyRead` | mcp-access-stack/services/mcp-edge-gateway/src/mcp-session.ts:604-644 | the part after it registers the request on that connector, whatever became of it, or gives it up for a body that is too large |
| `EdgeSession.McpSession.Finish` | mcp-access-stack/services/mcp-edge-gateway/src/mcp-session.ts:423-450 | answers a pending request once and releases its timer and abort hook |
| `FrameSequence.BuildBatches` | mcp-access-stack/services/browser-worker/services/browser-legacy-automation-service.ts:584-618 | the batches concatenate to the steps in order, share one frame path each, and are cut exactly where two neighbours must not share one |
| `FrameSequence.GroupingUnique` | mcp-access-stack/services/browser-worker/services/browser-legacy-automation-service.ts:584-618 | there is only one such cut, so runs of steps of one frame are merged maximally |
| `FrameSequence.IsolatedAreAlone` | mcp-access-stack/services/browser-worker/services/browser-legacy-automation-service.ts:597-611 | a click, and a press of Enter, is a batch of its own |
| `FrameSequence.PreflightAll` | mcp-access-stack/services/browser-worker/services/browser-legacy-automation-service.ts:555-581 | every click and Enter press is preflighted, in order, before anything else is asked of the page; which steps may navigate, and where to, is what their own preflights answered |
| `FrameSequence.EvaluateWithRetries` | mcp-access-stack/services/browser-worker/services/browser-legacy-automation-service.ts:676-733 | a batch with a changing step is evaluated once, one that only reads at most twice, one that only waits until its deadline; the items returned are those of the last answer, and the error that of the last attempt |
| `FrameSequence.RunBatch` | mcp-access-stack/services/browser-worker/services/browser-legacy-automation-service.ts:641-757 | when a batch may navigate, the wait is begun before its steps run and awaited after them; the deadline of a wait is the list's or that of a wait step; completed steps are reported for errors of the application only |
| `FrameSequence.FrameSequenceDirect` | mcp-access-stack/services/browser-worker/services/browser-legacy-automation-service.ts:544-795 | no step runs before every preflight has passed; the calls on the page are those of the batches in order; result i is of step i, in its frame, with the item the page answered last for it; retries are the surplus evaluations; an application error after an evaluation reports exactly the steps of the batches before it, or of its batch too, any other failure none; the deadline is that given, or 60 seconds |
| `NavigationCache.KeyIsInjective` | mcp-access-stack/services/browser-worker/domain/navigation-cache.ts:156-158 | the UTF-8 text that is hashed is the same exactly for the same address and purposes that encode alike; lone surrogates all encode as U+FFFD |
| `NavigationCache.MostRecentIsRight` | mcp-access-stack/services/browser-worker/domain/navigation-cache.ts:83-107 | the most-recent list of a log holds every address and purpose with its last use |
| `NavigationCache.PrunedSorts` | mcp-access-stack/services/browser-worker/domain/navigation-cache.ts:134-145 | pruning leaves exactly the latest entries within limit and retention |
| `NavigationCache.RecordMirrors` | mcp-access-stack/services/browser-worker/domain/navigation-cache.ts:83-107 | recording and pruning keep the cache equal to the recent part of the longer log |
| `NavigationCache.RecordCounts` | mcp-access-stack/services/browser-worker/domain/navigation-cache.ts:83-107 | the count of a recorded use is the number of uses of its pair in the log since its first-use time |
| `NavigationCache.RememberedExactlyWhen` | mcp-access-stack/services/browser-worker/domain/navigation-cache.ts:148-154 | an address is remembered exactly when it is a web address without credentials, query and fragment |
| `NavigationCache.RecordedFields` | mcp-access-stack/services/browser-worker/domain/navigation-cache.ts:83-104 | a record keeps first use and last closing of its pair and counts on |
| `NavigationCache.LoneSurrogatesCollide` | mcp-access-stack/services/browser-worker/domain/navigation-cache.ts:156-158 | purposes that differ in a lone surrogate share a key |
| `NavigationCache.NavigationCache.Record` | mcp-access-stack/services/browser-worker/domain/navigation-cache.ts:83-107 | adds the use to the log and prunes, at any time; while times go forward every count is a count over the log and the cache mirrors the whole log |
| `NavigationCache.NavigationCache.Resolve` | mcp-access-stack/services/browser-worker/domain/navigation-cache.ts:70-81 | prunes and returns the latest entry for the purpose; while times go forward it is the latest surviving one of the whole log |
| `NavigationCache.NavigationCache.List` | mcp-access-stack/services/browser-worker/domain/navigation-cache.ts:109-114 | prunes and sorts; while times go forward exactly the `maxEntries` most recently used pairs of the whole log that are within retention |
| `NavigationCache.FirstForIsLatest` | mcp-access-stack/services/browser-worker/domain/navigation-cache.ts:70-81 | the entry found for a purpose is not older than any other kept entry of it |
| `NavigationCache.FoundIsLatest` | mcp-access-stack/services/browser-worker/domain/navigation-cache.ts:70-81 | filtering before sorting finds what the log says is the latest kept entry for the purpose |
| `IdempotencyRegistry.StepKeepsInv` | mcp-access-stack/services/browser-worker/services/browser-idempotency-registry.ts:46-130 | every call and every settling keeps entries, operations and counters in step |
| `IdempotencyRegistry.AtMostOnce` | mcp-access-stack/services/browser-worker/services/browser-idempotency-registry.ts:46-94 | over any run and any clock a key is started a second time only after its first operation settled and was dropped by a call at least `ttlMs` later; entries = misses - expirations, within the limit, evictions 0 |
| `IdempotencyRegistry.SpacedExactlyWhen` | mcp-access-stack/services/browser-worker/services/browser-idempotency-registry.ts:46-130 | for any list of clock readings, every run over them keeps starts of a key `ttlMs` after each earlier settling exactly when no reading past the time to live of an earlier one (the first aside) is followed by one within it, or nothing can be kept |
| `IdempotencyRegistry.AtMostOncePerTtl` | mcp-access-stack/services/browser-worker/services/browser-idempotency-registry.ts:46-94 | in particular with a clock that never goes back |
| `IdempotencyRegistry.ClockBackExample` | mcp-access-stack/services/browser-worker/services/browser-idempotency-registry.ts:46-94 | with a clock that goes back a key is started again within `ttlMs` |
| `IdempotencyRegistry.AnswerExactlyWhen` | mcp-access-stack/services/browser-worker/services/browser-idempotency-registry.ts:46-94 | a caller joins the one live operation of its key, is refused for another fingerprint, starts one exactly when none is live and there is room, and is turned away when there is none |
| `IdempotencyRegistry.CountedByAnswer` | mcp-access-stack/services/browser-worker/services/browser-idempotency-registry.ts:46-94 | each keyed call is counted as the hit, miss or conflict its answer says, and a refusal as none |
| `IdempotencyRegistry.BrowserIdempotencyRegistry.Prune` | mcp-access-stack/services/browser-worker/services/browser-idempotency-registry.ts:121-130 | the loop deletes exactly the expired entries and counts them |
| `IdempotencyRegistry.BrowserIdempotencyRegistry.RunOperation` | mcp-access-stack/services/browser-worker/services/browser-idempotency-registry.ts:46-94 | prunes, then joins, refuses or starts, as the specification says |
| `IdempotencyRegistry.BrowserIdempotencyRegistry.OnSettled` | mcp-access-stack/services/browser-worker/services/browser-idempotency-registry.ts:75-91 | a settled operation starts the clock of its own entry |

## Left out

- HTTP, WebSocket, named pipe, file and process I/O, Durable Object storage internals, Playwright and Win32: events or arbitrary answers.
- The page-side evaluation runtime and frame inspection: evaluation, preflight and navigation are oracles that answer or fail.
- Schemas of single fields and tool registration; only checks across records are modelled, with the list limits and the length of task ids.
- SHA-256 and random ids: hashes are taken to be injective, so keys and digests are compared by the text that is hashed, and new ids as not in use.
- Time text and `localeCompare` on it: times are integers in their order.
- McpEdgeHost.cs: its quoting function (lines 951-987) is a copy of the one proved here.
- Telemetry, diagnostics, deadlines of other services, mutation receipts, confirmation and site-grant registries, policy merging, redaction, Authenticode.
- `migrateV3Registry` and versions 1 and 2: filters in front of the version 4 migration.
- The save queue and rename retries of the session registry.
- CanonicalJson: sparse arrays, getters, symbols and cyclic values; `Value` is a finite tree with an explicit undefined, and numbers are given by their shortest decimal digits.
- ConfirmationDigest: the case folding of letters outside ASCII; a `__proto__` member whose value is an object.
- ExtractionRun.Extract: the return behind the page loop, which is proved never to run, and errors thrown by probe, read or scroll, which end it without a result.
- ExtractionValues: the order of record fields in the serialized text, and records that cannot be serialized.
- TabBinding: `selectTab` and `sameRemoteIdentity`.
- TabBinding.Bindings.DiscardTab: detaching the tab from its task (in TaskRegistry) and dropping the references to its elements are a log of the ids they are called with.
- TaskRegistry: the order in which a Map lists tasks; the owner scope is its hash.
- EdgeSession: whether `send` throws on a socket that has closed; both answers are modelled.
- EdgeSession: control-plane requests, connector telemetry, and the wait for a reconnect before a request is taken on.
- FrameSequence: message texts of errors and the telemetry totals; Enter is a property of the key.
- NavigationCache: loading and saving the file; once times do not go forward only the single step is specified, not the relation to the log.
- IdempotencyRegistry: the disposition observer; an operation counts as started when `run` returns its promise.
