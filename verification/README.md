# A model of the chain-event indexer and its companions

This project models, in Dafny, the part of the platform that turns confirmed blockchain logs into a projection of
canonical events, and the small stateful machines beside it:

* the **in-memory projection** with its canonical events, withheld ("uncertain") events, block checkpoints and last mark
  (`projector.dfy`), the **confirmed scanner** that drives it (`consumer.dfy`), and the laws of whole histories of scans,
  interrupted scans and rollbacks (`scan_laws.dfy`, `scan_runs.dfy`);
* the **durable tables** (`repository.dfy`), the durable projection, scanner and all-or-nothing runner
  (`durable_steps.dfy`, `persistent.dfy`), the finality invariant (`finality.dfy`), what durable histories keep
  (`durable_runs.dfy`), when durable scans succeed (`durable_success.dfy`) and what they leave (`stored_rows.dfy`), and
  the simulation between the two projections (`simulation.dfy`, `durable_scan.dfy`);
* the **strict event decoder** with an encoder after the Contract ABI Specification ("Events", "Formal Specification of
  the Encoding") and the proof that the two undo each other (`abi_table.dfy`, `abi.dfy`), each of its events spelled out
  (`abi_events.dfy`), what a scan makes of the provider's replies (`wire_laws.dfy`), and the text identity of events
  (`event_id.dfy`);
* the **sliding-window rate limiter** (`rate_limit.dfy`), the **transaction-intent lifecycle** (`transactions.dfy`,
  `intents.dfy`) and its **idempotent creation under concurrency** (`concurrent_creation.dfy`);
* the **reconciliation diff** (`reconcile.dfy`) and the **JSON-RPC failover loop** (`rpc_client.dfy`).

`dafny verify dfyconfig.toml` checks everything.

## How the model is laid out

Code that changes objects is a class with the same fields, and code that loops is a loop. Each such method is proved
against a function on values (`Checkpointed`, `Ingested`, `RolledBack`, `InsertedEvent`, `Allowed`, `Transitioned`, ...), and
the laws are lemmas about those functions over arbitrary runs. A scan is the list of its steps (`ScanSteps`: one
checkpoint per block, then one projection per decoded log, or a halt), so that a run can be cut, resumed, overlapped, rolled
back and replayed as a list. Exceptions are `Raised` outcomes, and what a call changed before it raised stays changed. The
provider, the transport and the clock are arguments.

## What the proofs found

The code is modelled as written. Where a natural promise is false of it, the exact condition under which it holds is proved.

* `ingest` removes a withheld event before it compares block hashes, so a direct caller can lose an event
  (`DirectIngestCanLoseAnEvent`, exactly when: `IngestLosesExactlyWhen`). Scans never do (`Conservation`).
* An event whose transaction is mined again in another block keeps its identity but not its content; every scan that
  reaches it raises (`ReminedLogStopsEveryScan`).
* The durable scanner calls only `ingest`, which returns a replayed row still uncertain, and nothing outside the tests calls
  `restore_replayed`. So over every history of scans and rollbacks the uncertain rows are those of all events ever withheld:
  the two sides agree exactly when every event ever withheld still is (`CodedHistoriesAgreeExactlyWhen`), and later rollbacks
  report smaller counts (`CodedRollbackCount`). With a restoring caller they always agree (`RestoringHistoriesAgree`).
* The durable scanner has no guard against gaps (`CheckpointStoredExactlyWhen`), and refuses a log whose topics come back in
  another letter case (`TakenAgainExactlyWhen`); in memory a gap raises and letter case does not matter.
* `restore_replayed` makes a row canonical at any depth; finality stays exact exactly when the row lies below the boundary
  or was not withheld (`RestoreKeepsFinalityExactlyWhen`).
* A row stored with upper-case letters in its address passes the scope test of `ingest` but is never finalized and never
  withheld (`MixedCaseRowNeverChanges`, `LeftUnfinalizedExactlyWhen`).
* A checkpoint may be far below the stored range; contiguity survives exactly when it is not
  (`CheckpointContiguousExactlyWhen`, `ScanContiguousExactlyWhen`).
* The retry hint can be short by less than a millisecond, exactly when the wait is above one second and exceeds a whole
  number of seconds by less than a millisecond (`HintIsEnoughExactlyWhen`).
* Keys never leave the limiter's table, so a full table turns away every new key until it is cleared (`KeysStay`).
* A durable intent can be created as reverted without a hash (`CreationLacksHashExactlyWhen`).
* Two subjects can share an intent id exactly when one is the other followed by a colon and at most 119 more characters;
  a caller can then fail although its pair is free, and otherwise no caller can (`CreationCanFailExactlyWhen`). Subjects with
  colons are harmless as long as none extends another. Event ids have the same weakness for keys that only pass the
  repository's own validation (`EventIdsEqualExactlyWhen`, `UncheckedIdsCollide`).

## Model

| member | source | states |
|---|---|---|
| Projector.InMemoryProjection.Checkpoint | services/indexer/projector.py:61-75 | The new state and outcome are those of `Checkpointed`: conflict, no-op, gap or new checkpoint, in that order of tests. |
| Projector.InMemoryProjection.Ingest | services/indexer/projector.py:77-95 | The new state and outcome are those of `Ingested`, including the removal that has already happened when the hash conflict is raised; the dictionary lists its old events and then the new one when the call returns true, and otherwise is as it was. |
| Projector.InMemoryProjection.RollbackFrom | services/indexer/projector.py:97-106 | Moves exactly the events at or above the block to the withheld ones, drops exactly the checkpoints there, recomputes the mark as a maximum and counts the moved events; the events that stay keep their order. |
| Projector.InMemoryProjection.Withhold | services/indexer/projector.py:100-102 | The pop-and-store loop equals one bulk move, because the listed keys are distinct and present. |
| Projector.InMemoryProjection.VerifyContiguousBlocks | services/indexer/projector.py:108-114 | The comparison of the sorted numbers with a range raises exactly when some number between two checkpoints is missing. |
| Projector.RangeIffContiguous | services/indexer/projector.py:111-113 | A sorted list of distinct block numbers equals the range between its ends exactly when the set has no hole. |
| Projector.InMemoryProjection.Events | services/indexer/projector.py:52-54 | The log holds each stored event exactly once and nothing else, sorted by block and log index, with events of equal rank in insertion order. |
| Projector.InMemoryProjection.EventsByDepth | services/indexer/projector.py:116-135 | Each depth query returns each stored event on its side of the boundary exactly once and nothing else, in log order; negative arguments raise. |
| Projector.InMemoryProjection.SidesCount | services/indexer/projector.py:116-130 | The two queries together return as many events as are stored. |
| Projector.SortEvents | services/indexer/projector.py:52-54 | The log is ordered by block and log index and holds exactly the stored events, with multiplicity. |
| Projector.SortIsStable | services/indexer/projector.py:54 | Events of equal rank keep their dictionary order in the log. |
| Projector.SelectExact | services/indexer/projector.py:116-130 | Each part of the log holds exactly the events on its side of the confirmation boundary. |
| Projector.SplitIsWholeLog | services/indexer/projector.py:116-130 | The finalized events followed by the unfinalized ones are the whole log in its order. |
| Projector.FinalizedGrowsByPrefix | services/indexer/projector.py:116-122 | The finalized log of a lower head is a prefix of that of a higher head. |
| Consumer.ConfirmedScanner.Scan | services/indexer/consumer.py:169-189 | A call of `scan` ends, in state and result, as the list of its steps does: argument errors, an unreachable head, an empty range, a raise part way, or the counted result. |
| Consumer.ConfirmedScanner.ScanBlock | services/indexer/consumer.py:179-188 | One turn of the block loop: the checkpoint comes before every log of its block, and a raise leaves what was done before it. |
| WireLaws.CanonicalExactlyWhenSaid | services/indexer/consumer.py:171-213 | After a successful scan with the approved decoder an event is canonical if and only if it was before, or some log of some reply of the range says it: block number, reply hash, log index, lower-case transaction hash, and topics and data that encode its name and payload. |
| WireLaws.FirstScanExactly | services/indexer/consumer.py:171-213 | From nothing, the canonical events are exactly those that the replies say. |
| WireLaws.BlocksAreReplies | services/indexer/consumer.py:179-181 | Each block of the range is stored with the hash of its reply. |
| WireLaws.ObservedExactly | services/indexer/consumer.py:176-183 | The observed logs are the number of all logs in the replies of the range. |
| WireLaws.ScanReports | services/indexer/consumer.py:172-189 | What a successful scan reports: head, confirmed height, number of blocks and logs, and the growth of the canonical log. |
| ScanLaws.CutAndRerun | services/indexer/consumer.py:169-189 | A run cut off after any step and started again ends, raising or not, as one uninterrupted run, with the counts adding up. |
| ScanLaws.ScansCompose | services/indexer/consumer.py:169-189 | Adjacent, overlapping or repeated scans of one chain equal one scan of their union. |
| ScanLaws.SecondScanProjectsNothing | services/indexer/consumer.py:169-189 | A second identical scan succeeds, changes nothing and reports zero projected events. |
| ScanLaws.InterruptedScanResumes | services/indexer/consumer.py:169-189 | After a scan through a provider that failed for any blocks, the next scan ends as if there had been no outage. |
| ScanLaws.IngestLosesExactlyWhen | services/indexer/projector.py:86-93 | `ingest` forgets a known event exactly when a matching withheld event meets a checkpoint with another hash. |
| ScanLaws.DirectIngestCanLoseAnEvent | services/indexer/projector.py:86-93 | A concrete sequence of calls after which an event is in neither dictionary. |
| ScanLaws.ScanStepsGuarded | services/indexer/consumer.py:179-188 | In every scan each projected event comes after the checkpoint of its own block with the same hash. |
| ScanLaws.RunKeeps | services/indexer/consumer.py:179-188 | A guarded run, raising or not, keeps soundness and anchoring and forgets no event, canonical event or checkpoint. |
| ScanLaws.RunInventsNothing | services/indexer/projector.py:77-95 | Whatever is known after a run was known before with the same content or was accepted by the run. |
| ScanLaws.ReminedLogStopsEveryScan | services/indexer/projector.py:82-89 | A log that comes back with the same identity and other content makes every scan that reaches it raise. |
| ScanLaws.CheckpointAnswers | services/indexer/projector.py:61-75 | When a checkpoint returns true, returns false, or raises each of its errors, as five if-and-only-ifs on the state before, and the blocks after it. |
| ScanLaws.IngestAnswers | services/indexer/projector.py:77-95 | When ingesting returns true, returns false, or raises each of its errors, as if-and-only-ifs on the state before. |
| ScanLaws.RollbackKeepsEvents | services/indexer/projector.py:97-106 | A rollback leaves every event known with its content, in exactly one of the two dictionaries. |
| ScanRuns.RunSucceedsExactlyWhen | services/indexer/consumer.py:179-188 | A scan succeeds if and only if its blocks link up, and every reply agrees with what is known and with the other replies. |
| ScanRuns.ScanLinkedExactlyWhen | services/indexer/projector.py:70-71 | A scan of available blocks meets no gap if and only if it starts at most one above the mark. |
| ScanRuns.RunResult | services/indexer/projector.py:77-95 | A successful scan adds exactly the decoded identities to the canonical events and releases exactly those from the withheld ones. |
| ScanRuns.RunCounts | services/indexer/consumer.py:185-188 | The reported number of projected events is the growth of the canonical log. |
| ScanRuns.ScanBlocks | services/indexer/consumer.py:179-181 | A successful scan adds exactly the checkpoints of its range and leaves the others alone. |
| ScanRuns.ReplayIsIdentityExactlyWhen | services/indexer/projector.py:97-106 | For any sound, anchored state: rolling back and scanning a range again is the identity, with as many events projected as were withheld, if and only if the state holds every step of the range, nothing else at or above the block, and no gap just below it. |
| ScanRuns.RollbackThenReplay | services/indexer/projector.py:97-106 | A range scanned over nothing can be rolled back and replayed from any of its blocks, restoring events, withheld events, blocks and mark exactly. |
| ScanRuns.ScanRollbackReplay | services/indexer/projector.py:97-106 | The same for a projection built by one scan from nothing, for every start, rollback point and head. |
| ScanRuns.CheckpointContiguousExactlyWhen | services/indexer/projector.py:65-75 | An accepted checkpoint, with or without `allow_gap`, keeps the blocks contiguous if and only if it is at most one below the smallest stored block and at most one above the mark; without `allow_gap` the second always holds. |
| ScanRuns.ScanContiguousExactlyWhen | services/indexer/consumer.py:179-181 | A successful scan keeps the blocks contiguous if and only if it reaches the stored range. |
| ScanRuns.CallsKeepMarkAndContiguity | services/indexer/projector.py:61-114 | For every run of single calls, with or without `allow_gap`, the mark is the highest checkpoint (none when there is none); the contiguity check never raises if no checkpoint was too low or skipped blocks. |
| ScanRuns.UncutScanIsScan | services/indexer/consumer.py:169-189 | The scans in a history are calls of `scan`. |
| ScanRuns.HistoryKeeps | services/indexer/projector.py:61-106 | The invariants of every history of scans, cut-off scans and rollbacks: disjoint dictionaries, a correct mark, anchored events, nothing known ever lost or altered. |
| ScanRuns.Conservation | services/indexer/projector.py:77-106 | After every history the canonical and withheld events together are exactly the events ever accepted, each in exactly one of the two with its original content. |
| ScanRuns.EveryCanonicalEventIsAnchored | services/indexer/projector.py:61-106 | In every state a history reaches, each canonical event has the checkpoint of its block with its block hash. |
| DurableScan.ApprovedScansConserve | services/indexer/abi.py:125-131 | Conservation for histories that decode with the approved decoder, with no condition left on the decoder. |
| EventIds.EventIdsEqualExactlyWhen | services/persistence/repository.py:414-415 | For any keys, ids are equal if and only if the three numbers are, and address and hash joined by a colon are, up to letter case. |
| EventIds.IdsTellKeysApart | services/persistence/repository.py:414-415 | Ids are equal if and only if all five fields are, up to letter case, when the addresses have one width, or no address has a colon, or no hash has one. |
| EventIds.DecoderIdsInjective | services/persistence/repository.py:414-415 | For the keys the decoder produces, ids are equal if and only if the keys are. |
| EventIds.UncheckedIdsCollide | services/persistence/repository.py:414-422 | Two different keys that both pass the whole key validation share an id. |
| StoredRows.EventIdIs | services/persistence/repository.py:414-415 | The id is the five fields as text, joined by colons in order. |
| StoredRows.DictionaryExactly | services/persistence/repository.py:255 | The stored payload has, under each name, the value of the last pair with that name, and no other names. |
| StoredRows.IngestRowExactly | services/indexer/persistent.py:60-72 | What an accepted event must have been like, field by field, and the raw log and event row it leaves; every other row stays. |
| StoredRows.StoreLeaves | services/indexer/consumer.py:143-155 | A durable scan loses and alters nothing, and a successful one has left the rows and checkpoints of all its steps. |
| WireLaws.RepliesHaveRows | services/indexer/consumer.py:143-155 | After a successful durable scan each log of the range has its raw row and event row under the id made of its own fields, with the fields of its reply. |
| WireLaws.NewRowsAreReplies | services/indexer/consumer.py:143-155 | Every new row is that of some log of the range. |
| WireLaws.StoredScanReports | services/indexer/consumer.py:136-156 | What a successful durable scan reports; it counts every log of the range as projected. |
| Repository.Session.InsertRawChainLog | services/persistence/repository.py:187-237 | A raw log is stored once; a mismatch with its event, or other content under its id, raises and changes nothing. |
| Repository.Session.InsertCanonicalEvent | services/persistence/repository.py:240-281 | An event is stored once; an existing row is returned as it is, whatever its status, or conflicts. |
| Repository.Session.RecordBlockCheckpoint | services/persistence/repository.py:284-317 | A checkpoint is stored once, another hash conflicts, and the finalized flag is only ever set. |
| Repository.Session.MarkEventsUncertainFrom | services/persistence/repository.py:320-341 | Withholds and counts exactly the rows in sight at or above the block that were not withheld. |
| Repository.Session.FinalizeEventsThrough | services/persistence/repository.py:344-365 | Promotes exactly the unfinalized rows in sight at or below the boundary. |
| Repository.Session.RemoveCheckpointsFrom | services/persistence/repository.py:368-381 | Removes exactly the checkpoints of the chain at or above the block. |
| Repository.Session.RestoreReplayedEvent | services/persistence/repository.py:384-395 | Validates a replay against its row and makes an uncertain row canonical. |
| Repository.Session.InsertReconciliationFinding | services/persistence/repository.py:141-184 | A finding is stored once as open; unfit text raises, and tampered content conflicts. |
| Persistent.PersistentProjection.Checkpoint | services/indexer/persistent.py:42-58 | Records the checkpoint, then promotes through the boundary when it is not negative. |
| Persistent.PersistentProjection.Ingest | services/indexer/persistent.py:60-72 | Scope test, raw log, then the event row with the status its depth calls for; a raise keeps the earlier effects. |
| Persistent.PersistentProjection.RollbackFrom | services/indexer/persistent.py:74-82 | Withholds rows and removes checkpoints, and returns the number of rows. |
| Persistent.PersistentProjection.RestoreReplayed | services/indexer/persistent.py:95-98 | A replayed event in scope is restored; others raise. |
| Persistent.PersistentProjection.RecordReconciliation | services/indexer/persistent.py:84-93 | Stores a complete drift report in order, up to the first drift that cannot be stored. |
| Persistent.PersistentConfirmedScanner.Scan | services/indexer/consumer.py:131-156 | A durable scan ends, in tables and result, as the list of its steps does; if it returns with a non-empty range at head h, rows in sight that are not withheld are canonical exactly when at least `confirmations` below h, and every checkpoint of the range is final. |
| Persistent.PersistentConfirmedScanOnce.RunOnce | services/indexer/runner.py:36-49 | Either the whole scan is committed, with the same finality promise, or the tables stay exactly as they were. |
| Persistent.ScanKeepsPromise | services/indexer/persistent.py:42-72 | From tables without early finality, a scan that returned made finality exact at its own head. |
| Finality.NeverFinalTooEarly | services/indexer/persistent.py:42-82 | Over every run with non-decreasing heads no row in sight is canonical above the boundary of the highest head. |
| Finality.FinalityIsExact | services/indexer/persistent.py:42-72 | Right after a checkpoint that ends any such run, each row in sight that is not withheld is canonical if and only if it is deep enough. |
| Finality.StoreKeepsFinality | services/indexer/persistent.py:42-72 | A scan at one head, raising or not, makes no row final too early. |
| Finality.OtherScopesUntouched | services/persistence/repository.py:328-363 | No run of operations of one scope touches a row of another chain or another contract. |
| Finality.RestoreKeepsFinalityExactlyWhen | services/persistence/repository.py:384-395 | Restoring keeps finality exact if and only if the row was not withheld or lies at or below the boundary. |
| Finality.RunOnRow | services/indexer/persistent.py:42-82 | Over every run of checkpoints, ingests and rollbacks a row keeps its content, a row out of sight never changes at all, and an uncertain row stays uncertain. |
| Finality.MixedCaseRowNeverChanges | services/persistence/repository.py:328-363 | A row stored with upper-case letters in its address is never finalized and never withheld by any later run. |
| Finality.LeftUnfinalizedExactlyWhen | services/persistence/repository.py:354-363 | A row ingested above the boundary is still unfinalized after any orderly run and a checkpoint that has it deep enough if and only if its address is not in lower case. |
| DurableRuns.HistoryKeepsRows | services/indexer/persistent.py:42-98 | Over every history of durable scans (complete, cut off or raising, restoring or not) and rollbacks, no row is lost or altered but for its status, and each row in sight that is not withheld is anchored. |
| Simulation.ScanFollows | services/indexer/persistent.py:60-98 | Every successful in-memory scan is matched step by step from any related state: the scanner as coded leaves all uncertain rows uncertain, a restoring caller takes out exactly those that the scan projects. |
| Simulation.ReplaySimulatesScan | services/indexer/persistent.py:60-98 | With a caller that restores uncertain rows, agreement survives every successful in-memory scan. |
| Simulation.StoreAgreesExactlyWhen | services/persistence/repository.py:254-264 | From any related state, the scanner as coded ends in agreement if and only if the uncertain rows were those of the withheld events and the scan projects none of them. |
| Simulation.RollbackFollows | services/indexer/persistent.py:74-82 | From any related state a rollback is matched: it makes the rows of the withheld events uncertain, and the in-memory count is the durable count plus the number of those that were uncertain already. |
| Simulation.RollbackSimulated | services/indexer/persistent.py:74-82 | From agreement the two counts are equal. |
| Simulation.HistoryFollows | services/indexer/persistent.py:42-98 | Over whole histories of rollbacks and scans, each as coded or restoring, the tables hold what memory knows, and the set of uncertain rows is told move by move. |
| Simulation.RestoringHistoriesAgree | services/indexer/persistent.py:42-98 | If every scan restores, the two sides agree after every history. |
| Simulation.CodedHistoriesAgreeExactlyWhen | services/indexer/consumer.py:131-156 | With the scanner as coded, after every history the uncertain rows are those of all events ever withheld, and the two sides agree if and only if every event ever withheld still is. |
| Simulation.CodedRollbackCount | services/indexer/persistent.py:74-82 | After such a history a further rollback counts fewer rows than memory counts events, by the number of events it withholds again. |
| Simulation.EmptyAgrees | services/indexer/projector.py:42-46 | The empty tables agree with a new projection, so every history may start there. |
| DurableScan.DurableScanAgreesExactlyWhen | services/indexer/consumer.py:131-156 | With the approved decoder on both sides, from any related state and for logs that come with their stored text: a successful in-memory scan means a successful durable one, and agreement if and only if no withheld event was met and none was met before. |
| DurableSuccess.StoreSucceedsExactlyWhen | services/indexer/consumer.py:143-155 | A durable scan succeeds if and only if every reply fits the tables and agrees with the other replies in content and text; blocks need not link up. |
| DurableSuccess.CheckpointStoredExactlyWhen | services/persistence/repository.py:294-317 | From related states a durable checkpoint succeeds if and only if the in-memory one does or raises for a gap. |
| DurableSuccess.TakenAgainExactlyWhen | services/persistence/repository.py:207-222 | A stored log is accepted again if and only if its topics, letter by letter, and its data are the stored ones. |
| DurableScan.StoredScanReturns | services/indexer/consumer.py:131-156 | From related states, when the in-memory `scan` returns, so does the durable one. |
| DurableScan.ScansReportTheSame | services/indexer/consumer.py:156 | Both scans then report the same head, range and observed logs; only the projected counts may differ. |
| DurableScan.FirstScanAgrees | services/indexer/consumer.py:131-156 | A first scan from nothing leaves both sides in agreement. |
| DurableScan.TextOfDecoded | services/persistence/repository.py:207-221 | An event determines its topics and data up to letter case, because decoding is injective. |
| DurableScan.LowerCaseIsStorable | services/persistence/repository.py:207-221 | When topics arrive in lower case, one text per event fits every log. |
| Abi.DecodeSecureAssetLog | services/indexer/abi.py:95-131 | The sequence of tests and the merging loop accept exactly the logs that `Decode` accepts, with its event. |
| AbiEvents.EventDecodes | services/indexer/abi.py:38-131 | For each of the seventeen events, spelled out with its signature, its topics, its data words, its field names and prints: a log of such words decodes to that name and payload if the words are in range, and is refused otherwise. |
| AbiEvents.TransferDecodes | services/indexer/abi.py:84-86 | A Transfer of three topics reads as from, to and token, in this order. |
| AbiEvents.DecisionDecodes | services/indexer/abi.py:39-41 | An access decision reads its flag from the data as true for one and false for zero, and is refused for more. |
| AbiEvents.StatusDecodesExactlyWhen | services/indexer/abi.py:54-56 | A status change is accepted if and only if the status is below 256. |
| AbiEvents.DecodedExactly | services/indexer/abi.py:95-131 | A decoded log encodes its own name and payload and no others. |
| AbiEvents.AddressedExactlyWhen | services/indexer/abi.py:97-104 | What the decoder asks of the address, the configured contract, the transaction hash and the numbers, spelled out. |
| Abi.MergeFields | services/indexer/abi.py:119-124 | Two cursors over topics and data words give the fields their values in declaration order, or fail on the first bad word. |
| Abi.DecodeWordExact | services/indexer/abi.py:150-170 | A word decodes if and only if it is 32 hex bytes whose value is in the range of its type, and then to the print of that value. |
| Abi.RenderInjective | services/indexer/abi.py:150-170 | Values of one type that print alike are equal. |
| Abi.LookupByText | services/indexer/abi.py:107-110 | Looking a signature up by its number finds the event whose lower-case topic text it is. |
| AbiTable.ByTopicExact | services/indexer/abi.py:38-92 | The table finds an event if and only if the topic is its signature, so no two events share one. |
| AbiTable.NamesDistinct | services/indexer/abi.py:38-90 | No two events share a name. |
| Abi.DecodeOfEncoded | services/indexer/abi.py:95-131 | Decoding the encoding of an event with in-range values gives back its name and values. |
| Abi.AcceptedIsEncoding | services/indexer/abi.py:95-131 | Every accepted log is, up to hex letter case, the encoding of what it decodes to. |
| Abi.DecodedDeterminesText | services/indexer/abi.py:95-131 | Accepted logs with equal decoded name and payload have equal topics and data up to hex letter case. |
| Abi.DecoderFaithful | services/indexer/abi.py:125-131 | Decoded events copy the block of their log, and their keys have the fixed lower-case shape of the configured contract. |
| RateLimit.BoundedWindowLimiter.Allow | services/api/rate_limit.py:40-57 | The new deques and the decision are those of `Allowed`, including the full table and the hint. |
| RateLimit.BoundedWindowLimiter.Prune | services/api/rate_limit.py:62-65 | The loop drops exactly the leading times at or before the cutoff. |
| RateLimit.DequeIsTailOfLog | services/api/rate_limit.py:40-65 | In every run a key's deque is the end of the list of all its allowed times; what is missing had left the window. |
| RateLimit.AllowedExactlyWhenWindowHasRoom | services/api/rate_limit.py:53-57 | An admitted request is allowed if and only if fewer than the maximum were allowed for its key within the last window. |
| RateLimit.AllowedRequestsAreSpaced | services/api/rate_limit.py:40-65 | The (k + maximum)-th allowed request of a key comes at least one window after the k-th. |
| RateLimit.RemainingExactly | services/api/rate_limit.py:56-57 | An allowed request reports the maximum less the requests allowed in the window, this one included. |
| RateLimit.RefusedExactly | services/api/rate_limit.py:41-47 | Unfit keys raise; a new key at a full table is denied with the whole seconds of the window, and nothing changes. |
| RateLimit.KeysStay | services/api/rate_limit.py:44-49 | Without `clear` no key leaves the table, so a full table admits no new key. |
| RateLimit.HintIsAlmostEnough | services/api/rate_limit.py:54 | The hint falls short of the wait by less than a millisecond, and is at most 0.999 s too long beyond the first second. |
| RateLimit.HintIsEnoughExactlyWhen | services/api/rate_limit.py:54 | The hint covers the wait if and only if the wait is at most a second, whole, or a millisecond or more above a whole second. |
| RateLimit.WholeHintIsCeiling | services/api/rate_limit.py:54 | In whole milliseconds the hint is the ceiling of the wait and at least one. |
| RateLimit.RetryIsAllowed | services/api/rate_limit.py:53-65 | Once the oldest counted time has left the window, a denied key is allowed again if nothing else on it was. |
| RateLimit.HintedRetryIsAllowed | services/api/rate_limit.py:53-57 | In whole milliseconds a retry after the hinted seconds is allowed if no other request on the key was allowed in between. |
| Transactions.InMemoryTransactionStore.Create | services/api/transactions.py:98-122 | A new record, the same record again, or a conflict, after the length and presence tests. |
| Transactions.InMemoryTransactionStore.Transition | services/api/transactions.py:127-145 | The unknown key, the illegal move and the missing hash raise in this order; otherwise status and hash are updated. |
| Transactions.InMemoryTransactionStore.IsTerminal | services/api/transactions.py:147-149 | True exactly for a stored record that no transition can leave. |
| Transactions.TerminalExactly | services/api/transactions.py:26-71 | The terminal set is exactly the set of states without successors. |
| Transactions.TransitionRaisesStage | services/api/transactions.py:35-71 | Each legal transition raises the stage or swaps pending and unknown. |
| Transactions.LegalExactly | services/api/transactions.py:35-71 | The legal moves, listed by where they lead, are exactly those of the table. |
| Transactions.TransitionedExactly | services/api/transactions.py:127-145 | A transition is accepted if and only if the move is legal and a hash is there from submission on; it then changes status and hash of that record and nothing else. |
| Transactions.CreatedExactly | services/api/transactions.py:98-122 | A known key returns its record if and only if the request is the same, else conflicts; a new key gets one requested record; unfit arguments raise. |
| Transactions.LifecycleShape | services/api/transactions.py:98-145 | Over every run a record stays, keeps its request and its hash, never moves once terminal, and moves at most four times other than by swaps. |
| Transactions.HashesStay | services/api/transactions.py:139-143 | In every run from an empty store, submitted, pending, confirmed and reverted records carry a hash. |
| Intents.IntentSession.CreateOrGet | services/persistence/repository.py:35-97 | For a taken pair nothing changes, and the call returns the row if and only if the fingerprint is the row's, else conflicts; for a free pair and id exactly one row is added, with the given fields; unfit arguments, a missing hash and a taken id raise. |
| Intents.CreatedIntentIsExact | services/persistence/repository.py:54-97 | The same for the value of the operation. |
| ConcurrentCreation.LoneCallerCreates | services/persistence/repository.py:54-97 | A caller that nobody interrupts ends with the rows and the outcome of the sequential operation. |
| Intents.IntentSession.Transition | services/persistence/repository.py:100-138 | The durable transition, keeping the pair unique. |
| Intents.TransitionsAgreeExactlyWhen | services/persistence/repository.py:100-138 | The durable transition ends as the in-memory one does, if and only if it is not a legal move with a malformed hash. |
| Intents.LifecyclesAgree | services/persistence/repository.py:100-138 | Over whole runs with well-formed hashes the durable row and the in-memory record stay in the same state. |
| Intents.TransitionKeepsRowHashed | services/persistence/repository.py:129-135 | Durable transitions keep the hash promise of the lifecycle. |
| Intents.CreationLacksHashExactlyWhen | services/persistence/repository.py:65-80 | Creation breaks the hash promise if and only if it is asked for a reverted row without a hash. |
| ConcurrentCreation.CallerStepKeeps | services/persistence/repository.py:54-97 | One select, insert or re-select of any caller keeps the invariant of rows and callers. |
| ConcurrentCreation.RunKeeps | services/persistence/repository.py:54-97 | The invariant holds under every interleaving of callers and workflow transitions, and rows keep pair and fingerprint. |
| ConcurrentCreation.CreationIsIdempotent | services/persistence/repository.py:54-97 | Under every interleaving, for subjects that do not clash, there is one row per pair; a finished caller succeeded if and only if its fingerprint is the row's; all successes name the same row. |
| ConcurrentCreation.ThreeMovesSuffice | services/persistence/repository.py:54-97 | A caller is done after three moves of its own, whatever the others do. |
| ConcurrentCreation.SubjectsShareAnIdExactlyWhen | services/api/intents.py:105 | Two different subjects can share an id for some keys if and only if one is the other followed by a colon and more. |
| ConcurrentCreation.SubjectsClashExactlyWhen | services/api/intents.py:96-105 | With keys that the writer accepts they can if and only if, besides, the longer is at most 120 characters longer. |
| ConcurrentCreation.IdsInjective | services/api/intents.py:96-105 | Subjects that do not clash give different pairs different ids. |
| ConcurrentCreation.ExtendingSubjectFails | services/api/intents.py:105 | For any subject that extends another by a colon, an interleaving in which the second caller fails although its pair is free. |
| ConcurrentCreation.CreationCanFailExactlyWhen | services/persistence/repository.py:86-97 | Callers for given subjects can be made to fail with the bare integrity error if and only if one subject clashes with another. |
| Reconcile.FindDrift | services/indexer/reconcile.py:26-44 | The report lists each differing key exactly once, in strictly increasing order, as missing when only the canonical values have it, unexpected when only the projected ones do, and otherwise with the two values; an empty key raises. |
| Reconcile.ReportIsCompletePatch | services/indexer/reconcile.py:36-44 | Applying the report to the projected values gives the canonical ones, and it is empty if and only if they are equal. |
| Reconcile.RecordingTwiceAddsNothing | services/indexer/persistent.py:84-93 | Recording a report again succeeds and leaves the table alone, whatever was recorded in between. |
| Reconcile.NewFindingsAreOpen | services/persistence/repository.py:172-184 | A finding that was not there before is recorded as open, with the drift as its content. |
| Reconcile.RecordingSucceedsExactlyWhen | services/persistence/repository.py:141-184 | Recording succeeds if and only if every drift fits its columns and no stored finding was tampered with. |
| RpcClient.JsonRpcClient.Call | services/indexer/consumer.py:71-92 | The attempts follow the plan up to the first reply with version 2.0, that attempt's own fresh id, no error and a result, which is the answer; the pauses are those of the failed attempts. |
| RpcClient.JsonRpcClient.TryEndpoint | services/indexer/consumer.py:76-91 | The same for the attempts at one endpoint. |
| RpcClient.TriedInTurn | services/indexer/consumer.py:75-91 | A plan that failed, then another plan, is the two plans in a row, with ids and pauses running on. |
| RpcClient.PlanInOrder | services/indexer/consumer.py:75-76 | The plan goes through the endpoints in their order, and through the attempts at each. |
| RpcClient.FailedCallCosts | services/indexer/consumer.py:75-92 | A failing call with e endpoints makes e * m attempts and pauses e * 0.25 * (2^(m-1) - 1) seconds in total. |

## Left out

* Front ends, HTTP routes, authentication, authorization tables, key release, classification, storage encryption, the
  Algorand consumer and the contracts: request wiring, finite decision tables or libraries outside the source.
* The JSON text of provider replies: a reply that cannot be used is `Unavailable`, and numbers are already numbers, so the
  tolerance of `int(text, 16)` for underscores and spaces is not modelled. JSON ids are integers.
* The HTTP transport, its time-out and the clock: the transport is any function of endpoint number and fresh id that fails
  only in the caught ways; the clock is an argument; time is exact, without floating-point rounding.
* SQLAlchemy: the session is four tables in memory, its rollback a restored snapshot; identity map, column overflow,
  isolation levels and the time stamps of rows are not modelled.
* `json.dumps` and SHA-256: injective, so a payload is the dictionary of its pairs, a finding is stored under its drift, and
  an intent under the text that is hashed; `canonical_request_fingerprint` is just a text.
* Several contracts on one chain: checkpoints are removed by chain alone, so the simulation fixes one contract per chain.
* Providers that change the letter case of topics: the comparison of the scanners asks that each log come with the text
  stored for its event, which `TakenAgainExactlyWhen` shows to be needed.
* Lower-casing of letters outside ASCII.
* The order of the withheld dictionary and the `uncertain_events` listing; the order of events of equal rank after a replay.
* The recency order of the limiter's table, which nothing reads.
* The constructors' argument errors: they are preconditions of the constructors here.
* Status texts that name no status, and event versions other than 1 in the durable scanner.
* Wrong Python types: values have the types the source asks for.
- Simulation.HistoryFollows: covers histories whose in-memory scans succeed and whose texts fit the columns; after a scan that raises part way the two sides may stop at different steps.
- ConcurrentCreation.CreationIsIdempotent: assumes subjects that do not clash and rows created through this path; `CreationCanFailExactlyWhen` shows why.
- ScanRuns.ReplayIsIdentityExactlyWhen: compares the contents of the dictionaries; the insertion order of replayed events is not part of these states.
