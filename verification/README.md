# CallLint: a verified model of its hand-written protocols and scanners

CallLint counts its own use through a small telemetry pipeline, reads configuration
files with hand-written JSON scanners, and keeps a ledger of the presentation documents
it deployed. This project models those parts in Dafny and proves what they are for. It
verifies with `dafny verify dfyconfig.toml`.

The parts, and the question each one answers:

- **JSON syntax and two scanners.** `JsonSyntax` is the concrete syntax of RFC 8259 over
  UTF-16 code units: white space, raw string spellings, and a printer. `PositionIndex`
  is the mutually recursive position scanner with its shared cursor, `DuplicateKeys` the
  duplicate-key scanner with its explicit stack; both are specified on every text. Run
  on the printed form of any well-formed document, each computes a recursive
  specification on the document. `PositionIndexTermination` says on which texts the
  position scanner never returns, `PositionIndexEscapes` what an escaped key denotes, and
  `DuplicatePointers` what a reported pointer names.
- **Telemetry, end to end.** `TelemetryQueue` (client queue, trimming, flush), `Validate`
  and `Aggregate` (what the worker accepts and how it groups it), `Ingress` (one handler,
  then any number of handlers racing through their two database steps), `Retention`
  (the pruning job), `Report` (what the counters are read as), and `Delivery` (client,
  lossy network, worker and pruning as one state machine). Is each event counted exactly
  once, and on which premises? `EventCounts` reads the tables off the events themselves.
  `DeliveryPremises` shows that the premises are exact,
  `DeliveryProgress` that within them undisturbed flushes empty the queue,
  `DeliveryWitnesses` breaks each premise alone from an empty queue, and `DeliveryTables`
  ties the machine to the worker's tables and the report.
- **The deploy ledger over git.** `Catalog` (documents and digests), `CommitGraph`
  (commits, ancestry, the commits that touch a file), `DeployLedger` (validation,
  `--record`, restoring), `Reseat` (repair after a squash), `LedgerMeaning` (what all of
  these say, spelled out over paths of commits). What does a valid ledger mean, and when
  do recording and repair succeed?
- **Calendar and ranges.** `Calendar` builds the proleptic Gregorian calendar of
  ECMA-262 and its ISO day strings, `IsoTexts` reads those back; `NpmHistory` is the
  backfill plan over it and `NpmTotals` what its sums add up to.
- **Smaller components.** `PlanAnchors` (the bounded recency map), `StdioFraming` (the
  stdio JSON-RPC server) with `StdioAnswers` (what it answers), `CohortDeparture` (the
  capped cohort and its departure classifier) with `CohortSelection` (exactly who is
  served), `StripComments` (the comment stripper).

`Texts` and `Tallies` hold what the others share: code-unit strings with their order,
and counter tables with their upserts.

## Premises of the model

- Digests and HMACs are injective: a digest is represented by what it hashes, a batch id
  by its events. A commit is represented by its whole history, as its sha commits to it.
- Events are told apart by their position in the order they were pushed, so that two equal
  events stay two: "counted once" is said of each position.
- Each queue method runs to completion before another process touches the file, and the
  worker's database transaction is atomic and aborts on an existing primary key.
- `Date.parse`, `JSON.parse` (in the stdio server), the HMAC, tool handlers, the source
  view of the registry and the output of `git rev-list` are parameters.
- Days are compared as ISO text, which is day order for four-digit years. The theorems
  that read stored days back (`Retention.RetentionKeepsRecentDays`,
  `NpmHistory.CompleteAnswersMerge`, `DeliveryTables`) speak of clocks in those years;
  the methods themselves cover every clock.

## What the code does that its comments do not say

Where the two differ the model follows the code.

- `apps/cli/src/queue.ts:153-154` says only `removeDelivered` removes from the front. `trim`
  does too. Once trimming has moved the front under a waiting flush, the removal takes
  events that were never sent if and only if the push leaves anything queued (`DeliveryPremises.TrimWhileWaitingLosesSomeIff`; from an empty queue,
  `DeliveryWitnesses.TrimmedFrontLosesEvent`). A push trims nothing if and only if queue
  and push fit the caps together (`DeliveryPremises.NothingDroppedIff`).
- `apps/cli/src/queue.ts:178-182` says the batch id is stable across retries. If nothing was
  trimmed since, it is so if and only if nothing was pushed or the batch was full; otherwise
  if and only if the batch behind the trimmed events is as long and repeats the old one
  (`DeliveryPremises.RetryKeepsIdIff`). A batch that is still queued in part and retried
  as another under a new id lets an event count twice
  (`DeliveryPremises.ChangedRetryCountsTwice`).
- `apps/usage-worker/src/index.ts:148-157` takes a known id for a replay. A new batch with
  the id of another, ledgered or still under way, can be confirmed without being counted
  (`DeliveryPremises.SharedIdGoesUncounted`), and a replay after the row expired is counted
  again (`DeliveryPremises.LateReplayCountsTwice`). These four ways are all there are: from
  a good state, a step leaves every continuation counting right if and only if it avoids
  them (`DeliveryPremises.StepIsSafeIff`, `DeliveryPremises.PremisesAreExact`).
- `packages/config-parser/src/positionIndex.ts:150-151` promises a best effort on
  unscannable input. On `[}` the array loop never advances and never returns
  (`PositionIndexTheorems.BraceInArrayNeverReturns`). It is so on exactly the texts where
  a walk over the tokens meets `}` while the innermost open bracket is `[`
  (`PositionIndexTermination.NeverReturnsIff`). Keys spelled with `\b` or `\f` are
  indexed under the plain letters, and the dot after an empty outermost key is dropped.
- `apps/usage-worker/src/report-sources.ts:46-47` reads attention off event names that
  validation never accepts, so the figure is 0 for all accepted traffic
  (`Report.AttentionFigureIsAlwaysZero`).
- `packages/calllint-mcp/src/server.ts:327` says notifications get no reply. Six method
  arms do not look at the id (`StdioFraming.NotificationAnsweredIff`).
- `scripts/cohort-identity.ts:249-254` describes a selection without retained names. With
  them a cap eviction can be classified as `superseded`, the class reported as a defect
  (`CohortDeparture.EvictedIff`, `CohortDeparture.RetainedNameHidesEviction`).
- `scripts/gate-s0.ts:742-746` says an acknowledgement must fit the class of the departure.
  The gate consults no source, so every departure is unknown there and either kind of
  acknowledgement clears it (`CohortDeparture.GateFailsIff`).
- `scripts/presentation-ledger.ts:185-188` reports a missing `document` field as a fault,
  but the git layer then digests `undefined` and throws (`DeployLedger.Validate`).
- `scripts/presentation-ledger.ts:584` repairs with the newest commit carrying a document.
  On a branch that returned to an older document and left it again the repaired entry
  lands after its successor and the command refuses, although an older carrier would
  have done (`ReseatTheorems.NewestCarrierBreaksTheChain`). On a linear branch the repair
  is valid if and only if the newest carriers and the kept commits stand in ledger order
  (`ReseatTheorems.ReseatSucceedsIff`).
- `scripts/gate-s0.ts:589-591` says the stripper does not parse strings. Its line pass
  does. Its block pass does not: a literal holding a block comment comes out empty
  (`StripComments.BlockInStringIsEmptied`), and removing a block comment can join a new
  one (`StripComments.RemovalCanOpenABlock`), so that stripping twice is stripping once
  if and only if the first stripping leaves none (`StripComments.StrippingTwiceIsOnceIff`).

## Model

| member | source | states |
|---|---|---|
| PositionIndex.Scanner.Advance | packages/config-parser/src/positionIndex.ts:35-45 | moves the cursor by one even past the end; line and column stay those of the offset |
| PositionIndex.Scanner.SkipWhitespace | packages/config-parser/src/positionIndex.ts:47-53 | stops at the first unit that is not one of the four JSON blanks |
| PositionIndex.Scanner.ReadStringToken | packages/config-parser/src/positionIndex.ts:56-79 | reads a string token on any text, escapes decoded as the scanner decodes them |
| PositionIndex.Scanner.SkipValue | packages/config-parser/src/positionIndex.ts:82-99 | scans any value, recording keys; answers whether the scan would loop forever |
| PositionIndex.Scanner.ScanArray | packages/config-parser/src/positionIndex.ts:101-116 | the array loop, on any text, with its endless case explicit |
| PositionIndex.Scanner.ScanObject | packages/config-parser/src/positionIndex.ts:118-147 | the object loop, on any text |
| PositionIndex.BuildPositionIndex | packages/config-parser/src/positionIndex.ts:153-164 | the imperative scanner computes the functional one on every text, None where it never returns |
| PositionIndexProofs.ReadStringOver | packages/config-parser/src/positionIndex.ts:56-79 | on a well-formed string the token read is its decoded value and the cursor stands behind the closing quote |
| PositionIndexEscapes.HexEscapeRoundTrip | packages/config-parser/src/positionIndex.ts:61-71 | for every unit, a key that is the escape of its four hex digits, each printed in either case, is read as that unit |
| PositionIndexEscapes.HexEscapeDenotes | packages/config-parser/src/positionIndex.ts:61-71 | the four digits printed for a unit denote it in the scanner's reading and in that of RFC 8259 |
| PositionIndexEscapes.HexDigitIff | packages/config-parser/src/positionIndex.ts:66 | the hex digits are exactly 0 to 9, a to f and A to F |
| PositionIndexEscapes.EscapeRoundTrip | packages/config-parser/src/positionIndex.ts:72-76 | a key that is any other escape is read as the escaped unit itself, but for n, r and t |
| PositionIndexEscapes.ParseHexReads | packages/config-parser/src/positionIndex.ts:63-70 | of what follows an escape's u, white space, a sign and a 0x are passed over, the hex digits read in base 16, and the rest ignored |
| PositionIndexProofs.ScanValueOver | packages/config-parser/src/positionIndex.ts:82-147 | scanning a printed value ends just behind it and records exactly its key occurrences in document order |
| PositionIndexTheorems.ElementRoundProgress | packages/config-parser/src/positionIndex.ts:101-116 | a round of the array loop on an element leaves the cursor where it was if and only if it faces a closing brace |
| PositionIndexTheorems.BraceInArrayNeverReturns | packages/config-parser/src/positionIndex.ts:92-116 | the two-unit text of an opening bracket and a closing brace is scanned forever |
| PositionIndexTermination.NeverReturnsIff | packages/config-parser/src/positionIndex.ts:92-147 | on every text the scan never returns if and only if a left-to-right token walk with a stack of open brackets meets a closing brace while the innermost open bracket is square |
| PositionIndexTheorems.BuildOverDocument | packages/config-parser/src/positionIndex.ts:153-164 | on every well-formed document in any layout the scan returns, having noted the document's key occurrences in order |
| PositionIndexTheorems.NoteAllKeepsFirst | packages/config-parser/src/positionIndex.ts:137-141 | of several occurrences of a path the first one's position is kept; inherited names are never recorded |
| PositionIndexTheorems.IndexHoldsFirstOccurrences | packages/config-parser/src/positionIndex.ts:118-164 | the index holds exactly the dot paths that occur and are not inherited names, each at the position of the opening quote of its first occurrence |
| PositionIndexTheorems.OccurrencesInDocumentOrder | packages/config-parser/src/positionIndex.ts:136-141 | occurrences are listed by increasing offset, each at a quote of the text, so first means first in the document |
| PositionIndexTheorems.PositionCountsLinesAndColumns | packages/config-parser/src/positionIndex.ts:35-45 | the line is one more than the newlines before the offset, the column one more than the units since the last one |
| PositionIndexTheorems.IndexReadsAsRfc8259 | packages/config-parser/src/positionIndex.ts:61-71 | the recorded paths are those of RFC 8259 if and only if no key uses the backspace or form-feed escape |
| PositionIndexTheorems.NestedPathIsDotJoin | packages/config-parser/src/positionIndex.ts:140-145 | a nested path is the dot join of its keys if and only if it has fewer than two keys or a non-empty outermost key |
| DuplicateKeys.RawDuplicateKeys | scripts/preview-snapshot.ts:117-183 | the loop with its frame stack computes the step function's run and sorts the pointers found |
| DuplicateKeys.ReadString | scripts/preview-snapshot.ts:125-144 | the raw spelling between the quotes, with the index behind the closing quote or at the end of the text |
| DuplicateKeysTheorems.SpellingDetermined | scripts/preview-snapshot.ts:125-144 | a raw spelling has one reading: equal texts between quotes are equal spellings |
| DuplicateKeysTheorems.RunValue | scripts/preview-snapshot.ts:146-181 | from any scanner state, a printed value is passed with the frame stack restored and exactly its own duplicates added, so string contents never affect nesting |
| DuplicateKeysTheorems.ScanCollectsDuplicates | scripts/preview-snapshot.ts:117-183 | on every well-formed text the scan collects the pointer of each member whose raw spelling occurred earlier in the same object, and nothing else |
| DuplicateKeysTheorems.ReportIsSortedDuplicates | scripts/preview-snapshot.ts:182 | the report is those pointers, with multiplicity, in ascending order |
| DuplicatePointers.ReportPrintsChains | scripts/preview-snapshot.ts:117-183 | on every well-formed text the report is the chains of raw keys from the root to the repeated members, each printed with a slash before every key, in ascending order |
| DuplicatePointers.ReportedIff | scripts/preview-snapshot.ts:117-183 | a pointer is reported if and only if it prints a chain whose last raw key repeats in an object that the keys before it reach, through any arrays |
| DuplicateKeysTheorems.EmptyReportIffParseKeepsAll | scripts/preview-snapshot.ts:105-116 | last-wins parsing keeps every member of every object if and only if the report is empty and no object spells one name in two ways |
| DuplicateKeysTheorems.EmptyReportOnPlainKeys | scripts/preview-snapshot.ts:105-116 | when no key uses an escape, an empty report is equivalent to a parse that loses nothing |
| DuplicateKeysTheorems.EscapedDuplicateGoesUnseen | scripts/preview-snapshot.ts:125-159 | a duplicate spelled once with a hexadecimal escape is reported clean although the parse drops a member |
| TelemetryQueue.Queue.Load | apps/cli/src/queue.ts:51-63 | the events of the file, or none when it is absent, unreadable or not an array |
| TelemetryQueue.Queue.Save | apps/cli/src/queue.ts:65-73 | a failed best-effort write leaves the file as it was |
| TelemetryQueue.Queue.PushMany | apps/cli/src/queue.ts:89-95 | appends behind what other processes wrote, then trims; pushing nothing does nothing |
| TelemetryQueue.Queue.TrimEvents | apps/cli/src/queue.ts:114-132 | both loops together drop the oldest events until both caps hold; the running total is the serialized size at every round |
| TelemetryQueue.SerializedSize | apps/cli/src/queue.ts:119-122 | the serialized byte length is the sum of the event sizes plus brackets and one comma a gap |
| TelemetryQueue.TrimIsSuffix | apps/cli/src/queue.ts:97-132 | trimming only drops from the front |
| TelemetryQueue.TrimKeepsLongestSuffix | apps/cli/src/queue.ts:97-132 | what is kept is the longest suffix of at most 1000 events and 256 KiB serialized |
| TelemetryQueue.OneEventFitsIff | apps/cli/src/queue.ts:97-132 | one event fits by itself if and only if it has at most 262142 bytes, and a longer one is trimmed too |
| TelemetryQueue.ThousandAtMost | apps/cli/src/queue.ts:97-132 | no more than 1000 events and 262144 serialized bytes are kept |
| TelemetryQueue.Queue.Peek | apps/cli/src/queue.ts:144-147 | the first events of the file, without touching it |
| TelemetryQueue.Queue.RemoveDelivered | apps/cli/src/queue.ts:157-162 | drops that many events, or all there are, from the front of the file as it is now |
| TelemetryQueue.Queue.Size | apps/cli/src/queue.ts:164-167 | the number of events in the file |
| TelemetryQueue.Queue.FlushTelemetry | apps/cli/src/flush.ts:24-54 | sends at most 100 events from the front, and the queue shrinks by exactly them on a confirmed delivery only |
| TelemetryQueue.QueueConserves | apps/cli/src/queue.ts:89-162 | for any interleaving of operations, everything ever present is what was removed followed by what is queued, in order |
| TelemetryQueue.RemoveTakesPeekedWhenNothingTrimmed | apps/cli/src/queue.ts:149-162 | which events a removal takes after others pushed: nothing was trimmed if and only if the peeked queue and all pushes fit the caps together, in which case they are the peeked ones, and otherwise they are equal to them exactly where the run behind the trimmed events repeats the peeked one |
| Delivery.StepKeepsInvariant | apps/cli/src/flush.ts:33-50 | every step of client, network, worker and pruning keeps the protocol invariant under the four premises |
| Delivery.EachEventCountsOnce | apps/usage-worker/src/index.ts:148-225 | in every state of every run within the premises, with requests and acknowledgements lost, late or repeated, no pushed event is counted twice and each one that left the queue untrimmed is counted exactly once |
| Delivery.StepsAreQueueOperations | apps/cli/src/queue.ts:89-162 | the protocol's push, send and confirm are the file-backed queue's push with trimming, peek and removal |
| DeliveryPremises.PremisesAreExact | apps/cli/src/flush.ts:33-50 | among all runs of possible steps from an empty queue, whatever premises they break, those on which from every state every continuation within the premises counts right, each event at most once and each one gone untrimmed exactly once, are exactly those that meet all four premises |
| DeliveryPremises.StepIsSafeIff | apps/usage-worker/src/index.ts:148-225 | from any good state a possible step leaves a state from which everything counts right if and only if it leaves the batch of a waiting flush at the front or the queue empty, retries a batch unchanged unless trimming took all of it, sends an uncounted batch under an id of its own, and brings a counted batch again only while its row is there |
| DeliveryPremises.TrimAfterGivingUpIsSafe | apps/cli/src/queue.ts:97-132 | once no flush waits for an answer a push may trim what it likes, an unconfirmed batch included, and everything still counts right |
| DeliveryPremises.ChangedRetryCountsTwice | apps/cli/src/queue.ts:175-198 | from any good state, retrying an unconfirmed batch that is still queued in part as another with an id of its own lets the front event be counted twice, by arrivals that meet every premise |
| DeliveryPremises.RetryUnchangedIff | apps/cli/src/queue.ts:175-198 | after any number of pushes the very same events, by position, are retried if and only if the queue and all pushes fit the caps together and either nothing was pushed or the batch was full |
| DeliveryPremises.RetryKeepsIdIff | apps/cli/src/queue.ts:175-198 | after any number of pushes the retry has the same id if and only if, nothing trimmed, nothing was pushed or the batch was full, and, with events trimmed, the batch behind them is as long as the old one and equal to it |
| DeliveryPremises.FreshIff | apps/usage-worker/src/index.ts:148-157 | a new batch lacks an id of its own if and only if another batch, ledgered or uncounted, has the same contents |
| DeliveryPremises.SharedIdGoesUncounted | apps/usage-worker/src/index.ts:148-157 | from any good state, a new batch, or a changed retry, with the id of such another batch is answered as a replay, and once confirmed the first event that no batch carried before is gone uncounted |
| DeliveryPremises.DistinctContentsAreFresh | apps/cli/src/queue.ts:175-198 | a batch whose contents differ from those of every other batch sent has a fresh id |
| DeliveryPremises.LateReplayCountsTwice | apps/usage-worker/src/retention.ts:19-45 | from any good state, once the last row of a counted batch is more than 30 days old, pruning and a replay count every event of it again |
| DeliveryPremises.WithinDaysRowStays | apps/usage-worker/src/retention.ts:19-45 | a counted batch that arrives within 30 days of its last receipt finds its row |
| DeliveryPremises.TrimWhileWaitingLosesIff | apps/cli/src/queue.ts:149-162 | from any good state with an answered flush waiting, after any push and the confirmation, exactly which events are gone untrimmed and uncounted: those behind the batch that the removal reaches from the moved front |
| DeliveryPremises.TrimWhileWaitingLosesSomeIff | apps/cli/src/queue.ts:149-162 | there are such events if and only if, after the push, trimming has moved the front under the flush and something is queued |
| DeliveryPremises.TrimUnderOpenCountsTrimmed | apps/cli/src/queue.ts:97-132 | a push that trims under an unconfirmed batch trims an event, the front one, that is counted all the same, at once or when the batch arrives |
| DeliveryPremises.NothingDroppedIff | apps/cli/src/queue.ts:97-132 | a push trims nothing if and only if queue and push fit the caps together |
| DeliveryPremises.QueueStaysWithinCaps | apps/cli/src/queue.ts:97-132 | in every run, whichever premises fail, the queue stays within both caps |
| DeliveryWitnesses.LostAnswerIsHarmless | apps/usage-worker/src/index.ts:148-157 | a run from an empty queue meeting every premise, with a lost acknowledgement, a repeated request and a later batch, that counts both events once |
| DeliveryWitnesses.ShortRetryCountsTwice | apps/cli/src/queue.ts:175-198 | a run from an empty queue that waives only the retry premise and counts an event twice |
| DeliveryWitnesses.EqualBatchGoesUncounted | apps/usage-worker/src/index.ts:148-157 | a run from an empty queue that waives only own ids and never counts a delivered event |
| DeliveryWitnesses.TrimmedFrontLosesEvent | apps/cli/src/queue.ts:149-162 | a run from an empty queue in which the 1001st event trims the front under a waiting flush, and the only event of its kind, never sent, is gone from the queue and in no counted batch |
| DeliveryWitnesses.LateRetryCountsTwice | apps/usage-worker/src/retention.ts:19-45 | a run from an empty queue in which a replay 31 days later is counted again |
| DeliveryProgress.FlushDelivers | apps/cli/src/flush.ts:33-50 | from any good state, an undisturbed flush within the premises, a retry included, takes the batch out of the queue with each of its events counted once |
| DeliveryProgress.DrainAllowedIff | apps/cli/src/flush.ts:33-50 | with nothing left to retry, undisturbed flushes one after the other stay within the premises if and only if the batches the queue is cut in differ from one another and from what the worker has or may still get, and then they empty the queue without trimming |
| DeliveryProgress.DrainCountsEverything | apps/cli/src/flush.ts:33-50 | then every event ever pushed and not trimmed is counted exactly once |
| DeliveryTables.ArriveIsTransaction | apps/usage-worker/src/index.ts:148-225 | an arriving batch is one ingress transaction: it aborts exactly when the ledger holds its content, and otherwise the tables grow by its events and its row |
| DeliveryTables.PruneIsRetention | apps/usage-worker/src/retention.ts:19-53 | at any instant of the day the retention job forgets exactly the ledger rows the machine prunes, and no counter |
| DeliveryTables.RunFillsTables | apps/usage-worker/src/index.ts:148-225 | after any run over events the worker accepts, whichever premises fail, its counter table is that of counting the events of the counted batches one by one |
| DeliveryTables.ReportSumsPositions | apps/usage-worker/src/report-sources.ts:28-68 | for every selection the report's sum is that of the selected pushed events, each as often as the machine counted it |
| DeliveryTables.ReportCountsWhatWasPushed | apps/usage-worker/src/report-sources.ts:28-68 | after any run within the premises, over events the worker accepts, that emptied the queue and trimmed nothing, the cumulative preflights are the preflight events ever pushed |
| Validate.ValidateBatch | apps/usage-worker/src/validate.ts:130-231 | all or nothing: every event in order with its fields kept, or the code of the first check that fails, the envelope's own before the events' in turn, both said field by field |
| Validate.EventByFields | apps/usage-worker/src/validate.ts:148-228 | an event is accepted if and only if each of its checks passes, and else refused with the code of the first that fails; accepted, it has the raw name, source, dimensions, surface, result and installation id, and a timestamp that reads back as the second of its instant |
| Validate.BodyFaultIs | apps/usage-worker/src/validate.ts:131-146 | the envelope is refused with the code of its first failing check |
| Validate.StampReads | apps/usage-worker/src/validate.ts:104-111 | a timestamp is accepted if and only if it has 1 to 40 units and parses to an instant from the start of 2024 to the end of 2100, and is printed as the second of that instant |
| Validate.InstallationIdIff | apps/usage-worker/src/validate.ts:49-50 | an installation id is the prefix and five groups of 8, 4, 4, 4 and 12 lower-case hex digits between dashes, and nothing else |
| Validate.DayBucketIsUtcDay | apps/usage-worker/src/validate.ts:104-111 | the first ten units of an accepted timestamp are the ISO day of its instant in UTC, in years 2024 to 2100 |
| Validate.AcceptedEventIsStorable | apps/usage-worker/src/validate.ts:148-228 | every stored dimension of an accepted event is free of the join separator and its name is in the vocabulary |
| Validate.AcceptedBatchIsStorable | apps/usage-worker/src/validate.ts:130-231 | an accepted batch has a well-formed id, 1 to 100 events, and only storable ones |
| Aggregate.Fold | apps/usage-worker/src/aggregate.ts:46-105 | the two keyed maps, updated event by event, hold exactly the specified rows in insertion order |
| EventCounts.OneRowIff | apps/usage-worker/src/aggregate.ts:53-61 | two storable events fall in one row if and only if the day of their timestamps and their six other dimensions agree |
| EventCounts.RowCountsItsEvents | apps/usage-worker/src/aggregate.ts:63-77 | every row counts exactly the events with its seven values, at least one |
| EventCounts.EventHasItsRow | apps/usage-worker/src/aggregate.ts:63-77 | every event has a row with its seven values |
| Aggregate.JoinedKeyInjective | apps/usage-worker/src/aggregate.ts:53-61 | on validated events two joined keys agree if and only if all seven dimensions do |
| Aggregate.JoinedInstallKeyInjective | apps/usage-worker/src/aggregate.ts:83 | the installation key tells day and hash apart |
| Aggregate.UnvalidatedKeysCollide | apps/usage-worker/src/aggregate.ts:53-61 | without validation two different keys can join to one text |
| Aggregate.RowsCountEvents | apps/usage-worker/src/aggregate.ts:63-77 | upserting the grouped rows leaves the table that counting each event by itself leaves |
| Aggregate.RowsPartitionEvents | apps/usage-worker/src/aggregate.ts:63-77 | every event is counted once, in one row a key: counts sum to the number of events |
| Aggregate.BatchingIsIrrelevant | apps/usage-worker/src/aggregate.ts:46-105 | upserting the rows of two batches in turn leaves the counters of the joint batch |
| Aggregate.RowsRecordInstallations | apps/usage-worker/src/aggregate.ts:79-98 | both installation columns record each event that names an installation by its own weight |
| Aggregate.InstallBatchingIsIrrelevant | apps/usage-worker/src/aggregate.ts:79-98 | batching is irrelevant for the installation columns too |
| Ingress.Worker.HashInstallations | apps/usage-worker/src/index.ts:159-173 | with one hash a distinct id, every event carries the hash of its own id |
| Ingress.Worker.ApplyTransaction | apps/usage-worker/src/index.ts:181-225 | ledger row, counter upserts and installation upserts land together |
| Ingress.Worker.HandleUsagePost | apps/usage-worker/src/index.ts:142-226 | 204 means the batch is ledgered; a replay, a rejected body or a failed transaction changes no table; otherwise exactly one transaction is applied |
| Ingress.AcceptedRequestIsStorable | apps/usage-worker/src/index.ts:142-175 | what the handler passes on from an accepted body meets what the counting theorems ask |
| EventCounts.TransactionGrows | apps/usage-worker/src/index.ts:181-220 | a committed request adds its ledger row, to each counter the number of its events with the seven values, and to each installation's day its preflights and its reviews, blocks and unknowns, each in its own column |
| EventCounts.HashIsOfOwnId | apps/usage-worker/src/index.ts:163-173 | an event carries the hash of its own installation id, and none without one |
| EventCounts.RawIdsLeaveNoTrace | apps/usage-worker/src/index.ts:159-220 | erasing the raw installation ids changes no table |
| Ingress.UndisturbedIsHandler | apps/usage-worker/src/index.ts:148-226 | with nothing in between, a racing request's two database steps answer and leave what the handler does |
| Ingress.RacingAnswersAreTrue | apps/usage-worker/src/index.ts:148-226 | however handlers race, every answer is a 204 or a 500, and a 204 means that the id has its ledger row |
| Ingress.OnlyCommitsChangeTables | apps/usage-worker/src/index.ts:148-225 | in any step of racing handlers the tables change only by one committed transaction |
| Ingress.RacingHandlersCountOnce | apps/usage-worker/src/index.ts:148-225 | for every interleaving of any number of requests the tables hold each committed batch once, and the committed batches are exactly the new ledger rows |
| Ingress.RacingHandlersSerialize | apps/usage-worker/src/index.ts:148-225 | every interleaving ends in the tables of a serial run of the committed requests |
| Ingress.LedgerDecidesCounters | apps/usage-worker/src/index.ts:148-225 | two runs, whatever their order and duplication of deliveries, that ledger the same ids end with the same counters |
| Report.SumRows | apps/usage-worker/src/report-sources.ts:42-44 | filtering and adding the grouped rows is the sum over the selected groups |
| Report.ReportSumsAcceptedEvents | apps/usage-worker/src/report-sources.ts:28-68 | for every selection of days and names, so for cumulative preflights, the report's sum is the number of accepted events in it |
| Report.CountWhereIsSelected | apps/usage-worker/src/report-sources.ts:42-44 | that number is of the events whose own day and name are selected |
| Report.PreflightFigureCountsAccepted | apps/usage-worker/src/report-sources.ts:42-45 | for every interleaving of requests the cumulative preflights are the number of accepted preflight events |
| Report.AttentionFigureIsAlwaysZero | apps/usage-worker/src/report-sources.ts:46-69 | the attention figure is 0 for all accepted traffic |
| Calendar.DaysFollowTheCalendar | apps/usage-worker/src/retention.ts:23-26 | day 0 is 1 January 1970 and each next day number is the next Gregorian date |
| Calendar.IsoOrderIsDayOrder | apps/usage-worker/src/retention.ts:23-45 | ISO day strings compare by code units exactly as the days they name, and name one day each |
| IsoTexts.IsoDayReads | apps/usage-worker/src/retention.ts:23-26 | a printed day, read digit by digit, is the year, month and day of its date, between dashes |
| IsoTexts.IsoSecondReads | apps/usage-worker/src/validate.ts:110 | a printed timestamp, read digit by digit, is the date and the hour, minute and second of its instant |
| IsoTexts.ExpandedDayReads | apps/usage-worker/src/retention.ts:23-26 | outside four-digit years the ten characters are a sign, six digits of the year, and the month |
| Retention.EnforceRetention | apps/usage-worker/src/retention.ts:34-53 | throws exactly where a cutoff is no valid date; otherwise both deletions in one transaction, answering how many rows went |
| Retention.RetentionKeepsRecentDays | apps/usage-worker/src/retention.ts:19-45 | installation rows stay if and only if their day is within the last 90 days, ledger rows within 30, counters always |
| Retention.RetentionIsMonotone | apps/usage-worker/src/retention.ts:33-45 | a later run deletes at least what an earlier one would; with equal clocks, running twice is running once |
| NpmHistory.PlanRanges | apps/usage-worker/src/npm-history.ts:38-54 | fails exactly on unparseable bounds, and otherwise prints the planned chunks, in any year |
| NpmHistory.RangesAreIsoDays | apps/usage-worker/src/npm-history.ts:38-54 | within four-digit years every request carries the ISO days of its chunk, inside the interval |
| NpmHistory.PlanTiles | apps/usage-worker/src/npm-history.ts:32-54 | the plan is contiguous, within bounds, with chunks of at most 540 days |
| NpmHistory.TilesCoverOnce | apps/usage-worker/src/npm-history.ts:32-37 | a day is in the interval if and only if it is in a chunk, and chunks are disjoint and in order |
| NpmHistory.PlanIsMinimal | apps/usage-worker/src/npm-history.ts:38-54 | no tiling by chunks of at most 540 days uses fewer requests |
| NpmHistory.PlanSize | apps/usage-worker/src/npm-history.ts:38-54 | the plan has as many requests as the interval has whole or begun runs of 540 days |
| NpmHistory.MergeDaily | apps/usage-worker/src/npm-history.ts:63-76 | throws if and only if a day repeats; otherwise all rows, sorted by day |
| NpmHistory.CompleteAnswersMerge | apps/usage-worker/src/npm-history.ts:63-76 | complete answers to the planned chunks, each in any order, merge without a throw into the one-shot series |
| NpmHistory.TotalsAgree | apps/usage-worker/src/npm-history.ts:79-80 | totals of adjacent intervals add up to the total of both |
| NpmTotals.TotalIsRange | apps/usage-worker/src/npm-history.ts:79-80 | the total of a one-shot series is the sum of the downloads of its days |
| NpmHistory.TrailingWindowsAdd | apps/usage-worker/src/npm-history.ts:87-100 | trailing windows that meet end to end add up, whatever the series and its order |
| NpmTotals.TrailingIsRange | apps/usage-worker/src/npm-history.ts:87-100 | the trailing window holds exactly the downloads of that many calendar days up to its last |
| Catalog.LevelDigestsLocaliseChange | packages/trust-index/src/safe-install/presentationDigest.ts:100-142 | with identity and version fixed, the aggregate digest stays if and only if all three level digests stay |
| Catalog.LevelDigestMovesIff | packages/trust-index/src/safe-install/presentationContent.ts:62-71 | the token digest moves exactly with the tokens, the security digest exactly with the authority copy, and the copy digest exactly with any of the six other sections |
| Catalog.VersionMovesAggregateOnly | packages/trust-index/src/safe-install/presentationDigest.ts:84-127 | a new version moves the aggregate digest and no level's |
| Catalog.SectionsAreListed | packages/trust-index/src/safe-install/presentationDigest.ts:129-141 | the listed sections are exactly those present, each once, in declaration order |
| CommitGraph.AncestorTransitive | scripts/presentation-ledger.ts:156-166 | ancestry is transitive |
| CommitGraph.AncestorIffPath | scripts/presentation-ledger.ts:156-166 | a commit is an ancestor of another if and only if a path leads from the other to it in which each next commit is among the parents of the one before, whichever of a merge's |
| CommitGraph.ParentIsAncestor | scripts/presentation-ledger.ts:156-166 | every parent of a commit, at any index, is its ancestor, and so is all that the parent descends from |
| CommitGraph.AncestorAntisymmetric | scripts/presentation-ledger.ts:156-166 | two commits that are ancestors of each other are one commit |
| CommitGraph.AncestorIffEarlier | scripts/presentation-ledger.ts:156-166 | on a linear history one commit is an ancestor of another if and only if it is not later |
| CommitGraph.LatestTouch | scripts/presentation-ledger.ts:574-577 | on a linear history each catalog was brought in by the latest touching commit at or before it |
| CommitGraph.TouchingIff | scripts/presentation-ledger.ts:574-577 | the listed commits of a linear history are exactly those whose catalog differs from the one before, none before the first |
| CommitGraph.TouchingNewestFirst | scripts/presentation-ledger.ts:574-577 | they are listed newest first, each once |
| DeployLedger.FaultsForEntry | scripts/presentation-ledger.ts:176-235 | no fault if and only if everything recorded recomputes from the stored document, the floor as the empty one |
| DeployLedger.SetKeepsLength | scripts/presentation-ledger.ts:350-355 | comparing a set's size with the list's length decides distinctness |
| DeployLedger.ValidateOffline | scripts/presentation-ledger.ts:338-385 | no fault if and only if schema, entries, distinctness, time order and currency all hold |
| DeployLedger.GitFaultsForEntry | scripts/presentation-ledger.ts:246-281 | no fault if and only if the commit is on HEAD's history and carries the stored document's content; throws exactly on a missing document field where a catalog exists |
| DeployLedger.GitFaultsForChain | scripts/presentation-ledger.ts:388-401 | no fault if and only if each well-formed commit is an ancestor of the next |
| DeployLedger.Validate | scripts/presentation-ledger.ts:434-451 | refuses exactly on a shallow clone; otherwise answers no faults exactly on a valid ledger |
| DeployLedger.Store.Record | scripts/presentation-ledger.ts:454-518 | each exit code exactly on its condition; 0 appends one entry and leaves a valid ledger, anything else leaves the file alone |
| DeployLedger.FindDigest | packages/trust-index/src/previewSnapshot.ts:1126 | the first entry carrying the digest, if any |
| DeployLedger.RestoreByDigest | packages/trust-index/src/previewSnapshot.ts:1122-1129 | nothing exactly for an unrecorded digest; with sound entries, a document with exactly that digest |
| DeployLedger.PreviousDeploy | packages/trust-index/src/previewSnapshot.ts:1138-1144 | with distinct digests, the entry before the one carrying the digest, and none before the first |
| DeployLedgerTheorems.ValidLedgerIsChain | scripts/presentation-ledger.ts:338-451 | for all pairs of entries of a valid ledger index order is time order and ancestry, commits and digests differ, each entry lies on HEAD's history with its own commit's document, and the newest is the live one |
| LedgerMeaning.ValidLedgerIff | scripts/presentation-ledger.ts:338-451 | a ledger is valid if and only if its schema holds, it has entries, each one's commit is on a path of parents from HEAD and shows the stored content, whose digests and version it records, each one's instant is later and its commit descends, all aggregate digests differ, and the newest is the live one |
| LedgerMeaning.KeysDistinctIff | scripts/presentation-ledger.ts:350-355 | two entries share a key if and only if they share commit and digest |
| DeployLedgerTheorems.RecordSucceedsIff | scripts/presentation-ledger.ts:454-518 | from a ledger that was valid, wherever HEAD moved since, recording succeeds if and only if the clone is full, the catalog committed, HEAD descends from the newest entry, the time is later and the document new |
| DeployLedgerTheorems.RunOnlyAppends | scripts/presentation-ledger.ts:454-518 | in any run of record attempts nothing recorded is rewritten or dropped |
| DeployLedgerTheorems.EachDocumentRecordedOnce | scripts/presentation-ledger.ts:348-353 | in any run from any ledger a document is recorded at most once; returning to it is refused |
| DeployLedgerTheorems.RunKeepsChain | scripts/presentation-ledger.ts:454-518 | every run keeps a chain a chain, whatever HEAD and the clock do in between |
| Reseat.FindReseat | scripts/presentation-ledger.ts:561-595 | proposes exactly the dangling entries some candidate carries, with its first carrier, and refuses exactly the others; a shallow clone is refused wholesale |
| LedgerMeaning.DanglingIff | scripts/presentation-ledger.ts:578-580 | an entry dangles if and only if its commit is well formed and no path of parents leads to it from HEAD |
| LedgerMeaning.CarriesIff | scripts/presentation-ledger.ts:582-583 | a commit carries an entry if and only if its document is the stored one, key order and unhashed keys included, or both have none |
| LedgerMeaning.ReseatLeavesAlone | scripts/presentation-ledger.ts:578-580 | an entry with a malformed commit, or with one that HEAD still reaches, is never re-pointed |
| Reseat.ApplyMoves | scripts/presentation-ledger.ts:622-626 | applying the moves is re-pointing each dangling entry at its first carrier |
| Reseat.ReseatLedger | scripts/presentation-ledger.ts:609-668 | each exit code exactly on its condition; the file changes only to a valid repaired ledger, and not on a dry run |
| Reseat.ReseatIsSafe | scripts/presentation-ledger.ts:538-548 | a repair changes only commits of dangling entries, to a commit on HEAD's history with the identical document |
| Reseat.SecondRunFindsNothing | scripts/presentation-ledger.ts:614-620 | repairing is idempotent, and after a repair without refusals nothing dangles |
| ReseatTheorems.ReseatSucceedsIff | scripts/presentation-ledger.ts:561-668 | on a linear history, of a ledger that is sound offline, everything is explained and the repair is valid if and only if every entry has a seat, its newest carrier if it dangles and otherwise its own commit with its own document, and the seats stand in ledger order |
| ReseatTheorems.ReseatSucceedsOnLinearHistory | scripts/presentation-ledger.ts:561-668 | on a linear history whose touching commits hold each stored document once and in ledger order, everything dangling is explained and the repaired ledger is valid |
| ReseatTheorems.NewestCarrierBreaksTheChain | scripts/presentation-ledger.ts:577-584 | where a document occurs twice the newest carrier can break the chain although an older one keeps it |
| PlanAnchors.Anchors.Remember | packages/calllint-mcp/src/planAnchors.ts:34-43 | delete, insert, and evict oldest first until 64 are left |
| PlanAnchors.Anchors.Recall | packages/calllint-mcp/src/planAnchors.ts:46-48 | the stored window of the digest, or nothing |
| PlanAnchors.Anchors.Reset | packages/calllint-mcp/src/planAnchors.ts:51-53 | forgets every anchor |
| PlanAnchors.SessionHoldsMostRecent | packages/calllint-mcp/src/planAnchors.ts:27-43 | after any calls the store is the last 64 digests in recency order, each with its last window |
| PlanAnchors.RecallAnswersLastWindow | packages/calllint-mcp/src/planAnchors.ts:34-48 | a digest recalls its last window if and only if fewer than 64 distinct others were remembered since |
| PlanAnchors.NeverRememberedRecallsNothing | packages/calllint-mcp/src/planAnchors.ts:45-48 | a digest this session never prepared recalls nothing |
| StdioFraming.ServedAtOneRevision | packages/calllint-mcp/src/server.ts:339-409 | removed methods never succeed at the stateless revision, and the result envelope shows exactly there, discovery apart |
| StdioFraming.NotificationAnsweredIff | packages/calllint-mcp/src/server.ts:325-514 | a request without an id is answered if and only if its revision is supported and its arm does not look at the id |
| StdioAnswers.RefusedIff | packages/calllint-mcp/src/server.ts:325-514 | a request with an id is refused, with which code and changing nothing, if and only if its revision is unsupported, its method unknown or removed at that revision, or its tool or resource unknown |
| StdioAnswers.ServedWith | packages/calllint-mcp/src/server.ts:409-514 | a served request other than a tool call carries the contents of its own resource or its method's fixed result, under its own id, and changes nothing; initialized gets no reply |
| StdioAnswers.ToolCalled | packages/calllint-mcp/src/server.ts:482-493 | a tool call answers its handler's text and keeps the session the handler leaves |
| StdioAnswers.HintedIff | packages/calllint-mcp/src/server.ts:430-510 | cache hints show exactly on discovery and on the lists and contents of the stateless revision |
| StdioAnswers.DecodedIs | packages/calllint-mcp/src/server.ts:517-529 | a line is skipped if and only if it is all white space, and else its text between white space is parsed, and refused as no JSON, refused under its own id as no request, or decoded |
| StdioAnswers.ThrowIsAnswered | packages/calllint-mcp/src/server.ts:560-567 | a handler that throws is answered by an internal error under the request's id, and what it did to the session stays |
| StdioFraming.Server.OnData | packages/calllint-mcp/src/server.ts:552-568 | every complete line now in the buffer is handled once and in order; the rest stays buffered |
| StdioFraming.CutIsLossless | packages/calllint-mcp/src/server.ts:553-557 | lines joined by newlines plus the rest are the text, and neither contains a newline |
| StdioFraming.CutOfJoined | packages/calllint-mcp/src/server.ts:553-557 | any newline-free lines, terminated and sent, come back as those lines |
| StdioFraming.ChunkingIsIrrelevant | packages/calllint-mcp/src/server.ts:551-568 | any chunking of the input leaves the buffer, the session and the ordered replies of a single chunk |
| StdioFraming.RepliesFollowLines | packages/calllint-mcp/src/server.ts:545-568 | a line adds at most one reply, and earlier replies are never touched |
| StdioFraming.CarriageReturnIsIgnored | packages/calllint-mcp/src/server.ts:517-529 | lines ended by CR LF are served like lines ended by LF |
| CohortDeparture.SelectionFillsTheCap | packages/trust-index/src/fetchRegistry.ts:129-178 | a selection has exactly the cap's size or all entries, is in name order, and invents nothing |
| CohortDeparture.RetainedSurvive | packages/trust-index/src/fetchRegistry.ts:134-178 | every retained name still live is in every selection that succeeds |
| CohortDeparture.ReservedSurvives | packages/trust-index/src/fetchRegistry.ts:135-178 | a reserved live name is selected whenever the cap is at least 1 |
| CohortSelection.ConflictIff | packages/trust-index/src/fetchRegistry.ts:129-178 | a selection is refused if and only if the cap binds and the live retained and reserved names outnumber it |
| CohortSelection.SelectedIff | packages/trust-index/src/fetchRegistry.ts:129-178 | past the cap a live name is selected if and only if it is retained, or reserved at a cap of at least 1, or fewer competing names sort before it than the retained and reserved leave places |
| CohortSelection.UnboundSelection | packages/trust-index/src/fetchRegistry.ts:129-140 | a negative cap selects nothing, and a cap that does not bind everything |
| CohortDeparture.EvictedIff | scripts/cohort-identity.ts:272-316 | a live name the cap removed is evicted if and only if something competed and every retained served name sorts before it, and superseded otherwise |
| CohortDeparture.CapAloneEvicts | scripts/cohort-identity.ts:249-254 | without retained names every live name the cap removed while a competing name is served is evicted, never superseded |
| CohortDeparture.LostIsDifference | scripts/cohort-identity.ts:599 | a name is lost if and only if it was in the previous cohort and is not in the current one |
| CohortDeparture.LostInOrder | scripts/cohort-identity.ts:599 | lost names are listed in ascending order, each as often as it was served |
| CohortDeparture.RetentionLosesOnlyDeListed | scripts/cohort-identity.ts:592-604 | with the previous cohort retained, as `packages/trust-index/src/refreshSnapshot.ts:354-364` retains it, every lost name is classified de-listed |
| CohortDeparture.ClearedIff | scripts/cohort-identity.ts:377-395 | a departure is cleared if and only if the source was not consulted and some acknowledgement names it, or the source shows it gone and a de-listing acknowledgement does |
| CohortDeparture.GateFailsIff | scripts/gate-s0.ts:738-755 | the gate, which consults no source, fails exactly on the lost names that no acknowledgement of either kind names |
| CohortDeparture.LiveDepartureNeverCleared | scripts/cohort-identity.ts:377-395 | with a source consulted, whatever is acknowledged, no lost name that it shows live is cleared |
| CohortDeparture.RetainedNameHidesEviction | scripts/cohort-identity.ts:265-316 | one retained name past the edge makes the cap's own eviction superseded |
| StripComments.Strip | scripts/gate-s0.ts:594-628 | the index-and-quote loop computes the two passes on any text |
| StripComments.StripsExactlyLineComments | scripts/gate-s0.ts:602-627 | in the line pass string literals stay verbatim, each line comment leaves one newline, everything else stays |
| StripComments.EveryTextHasLexemes | scripts/gate-s0.ts:602-627 | every text is a list of plain units, strings and comments with an open or clean ending, so the theorem above covers all inputs |
| StripComments.LinePassIdempotent | scripts/gate-s0.ts:602-627 | the line pass is idempotent on every text |
| StripComments.BlocksKeepIff | scripts/gate-s0.ts:595 | the block pass leaves a text alone if and only if it holds no block comment |
| StripComments.BlockFreeMeans | scripts/gate-s0.ts:595 | holding no block comment means that no slash-star has a star-slash after it |
| StripComments.BlockPassCuts | scripts/gate-s0.ts:595 | on any text the block pass keeps what stands before the first opener, drops all from it to the first closer, and goes on in the same way |
| StripComments.StrippedKeepsAllButLineComments | scripts/gate-s0.ts:594-628 | on a text without block comments both passes together keep strings verbatim and drop exactly the line comments |
| StripComments.BlockInStringIsEmptied | scripts/gate-s0.ts:589-595 | a string literal whose content is one block comment comes out empty |
| StripComments.StrippingTwiceIsOnceIff | scripts/gate-s0.ts:594-628 | stripping twice is stripping once if and only if the first stripping leaves no block comment |
| StripComments.TwiceIsOnceByLexemes | scripts/gate-s0.ts:594-628 | the same read off the lexemes the line pass sees: with their line comments blanked, they hold no block comment |
| StripComments.StrippingTwiceIsOnce | scripts/gate-s0.ts:594-628 | in particular wherever removing block comments leaves none |
| StripComments.RemovalCanOpenABlock | scripts/gate-s0.ts:595 | a text on which stripping twice removes more than stripping once |

## Left out

- Network, filesystem, git processes, D1 and KV: abstract state and steps.
- The worker's configuration check, rate limiter, content-type check, bounded body reader and request bodies that are not JSON (`apps/usage-worker/src/index.ts:117-140`): they answer before any table is read.
- The report's day-by-day trend and active-installation counts (`apps/usage-worker/src/report-sources.ts:48-65`): queries over distinct hashes.
- `clear` of the telemetry queue, and `push` (a `pushMany` of one event).
- A queue file read or written halfway, and lost updates between one process's load and save: methods are atomic here.
- Scheduling of flushes: nothing says that one is ever started or answered; what undisturbed ones achieve is in DeliveryProgress.
- Stack exhaustion of the recursive scanner on deeply nested texts (a `RangeError` the code catches, returning what it gathered).
- Configuration dialects, TOML and server discovery around the position index (`packages/config-parser/src/parseConfig.ts`).
- A working catalog that is missing or does not parse: the ledger commands throw before reading or writing the ledger.
- Ledger section lists with names outside the eight declared sections, and the messages of faults.
- History simplification of `git rev-list` on merges: the repair theorems that need it speak of linear branches, the safety theorems of any candidates on HEAD's history.
- The static replies of the stdio server's methods, schemas of tools and resources, and output written to stderr.
- UTF-8 decoding across chunks, done by the stream before the data handler.
- Harvesting of acknowledgements from prose by regular expressions, and the messages of departures (`scripts/cohort-identity.ts:463-554`).
- Template literal interpolation and regular-expression literals in stripped sources: the code does not see them either.
- TelemetryQueue.Queue.FlushTelemetry: other processes between peek and removal are left to RemoveTakesPeekedWhenNothingTrimmed, Delivery and DeliveryPremises, since the method runs alone.
