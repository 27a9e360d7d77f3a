# liskov-runtime-cargo: verified models

The helper that runs beside a customer workload delivers logs to an append-only sink, installs
secret files, reads Android property areas, downloads payloads, measures the network and the
memory, and signs JSON. This project models the parts of it that keep state across steps, crashes,
lost replies or threads, and proves what they promise for every input and every run.

`dafny verify dfyconfig.toml` verifies the whole project.

## How it is organised

| files | component |
|---|---|
| `LogRecords`, `LogBatch`, `LogMachine`, `LogRun`, `LogWorker` | the log worker, its queue of two origins, and the chained sink behind a lossy network |
| `DropAccounting`, `DropEvidence`, `QueueMemory`, `ByteBudget`, `Sums` | the counters that producer threads and the worker share |
| `Redaction` | masking of credentials in a log line |
| `SecretNames`, `SecretGroup`, `SecretFiles` | all-or-nothing installation of secret files, with crashes between any two system calls |
| `PropertyHeap`, `PropertyTrie`, `PropertyBytes`, `PropertyParser`, `PropertyBuilder`, `Utf8` | the binary property area: a trie of binary search trees laid out in bytes |
| `PropertyRules`, `PropertyInfo`, `PropertyInfoBuilder`, `ByteOrder` | the binary property index: which context a name belongs to |
| `PayloadRange`, `PayloadDownload` | byte ranges and the resumable, hashed download |
| `NetworkMetrics`, `NetworkSample`, `NetworkOutcomes` | the measuring ladder under a time budget, its validator, its metrics and the outcomes reported |
| `ProcessTree`, `MemorySampler` | which processes belong to a workload; the one-reader sampling protocol |
| `CanonicalJson` | the sorted form of JSON that is signed |

Objects the code updates in place are classes (`LogWorker`, `Wire`, `Budget`, `Kernel`,
`PreparedFile`, `AreaBuilder`, `Transport`, `Sampler`); each of their methods is proved equal to a
function of the old state, and the theorems are about those functions. Threads are state machines
whose runs are arbitrary interleavings. The clock, randomness, encryption, hashing, the network and
system calls are chosen by the environment: results of `*`, or parameters that are arbitrary
functions.

## Where the code does less than one might expect

- A customer drop-evidence record that is queued while a runtime batch waits for its answer goes to
  the very front of the queue; if the sink then accepts that batch, the evidence is popped without
  having been sent (`LogRun.EvidenceIsLost`), and such a state is reachable with every encoder that
  can encode one runtime record (`LogRun.EvidenceCanMeetRuntimeBatch`). A step keeps the queue's
  invariant exactly when it is not that step (`LogRun.StepKeepsInvExactly`). The worker's loop takes
  it only when it finishes (`LogWorker.LogWorker.RunPrioritized`).
- A batch that fits its size limit before its name is added may exceed it afterwards
  (`LogBatch.NameCanOverflowBatch`). Building succeeds exactly if the first record fits, the
  numbering does not overflow and the selection still fits with the name's 79 bytes
  (`LogBatch.BuildSucceedsExactly`, `LogBatch.FailsInWindow`). While no batch is
  retained, or only one that the sink refuses, a queue that hits this window is not shortened by any
  number of attempts (`LogRun.StuckForEver`).
- The two counters of dropped output are swapped separately, so one evidence record can carry a
  chunk without its bytes (`DropAccounting.EvidenceCanBeTorn`); the totals are still right. A record
  speaks of one set of drops exactly if nothing of a torn drop was waiting and the byte additions
  between the swaps are those of the drops half counted at the first one
  (`DropEvidence.RecordIsWholeExactly`).
- The module comment of `src/file_secrets.rs` speaks of a group. Each file is recovered whole, but
  the group is not atomic under a crash. Recovery finds a file new exactly if it was committed and
  had no old value or its backup is gone, and the group is mixed exactly if that holds of some files
  and not of others (`SecretGroup.MixedExactly`). This happens while committing
  (`SecretGroup.MixedWhileCommitting`, for instance `SecretFiles.CommitCrashMixesGroup`), while a
  rollback is cut short or fails (`SecretGroup.MixedWhileRollingBack`) and while backups are removed
  (`SecretGroup.MixedWhileCleaning`, `SecretFiles.CleanupCrashMixesGroup`).
- Two spellings of one path have separate backups. A backup left under one of them overwrites what
  was installed under the other as soon as its own spelling is listed again: what was installed
  survives exactly if there is no such backup, or one of the same value (`SecretFiles.OtherSpelling`).
  A crash leaves such a backup (`SecretFiles.OtherSpellingReached`).
- One second may see twice the byte budget, and that bound is reached (`ByteBudget.BoundIsReached`).
- The clock is read before a leg is allowed, not when it starts. A collected sample is accepted
  exactly if its start time is representable and everything in it ends within the budget
  (`NetworkSample.CollectSample`). A leg that starts late may still be in time or not
  (`NetworkSample.LateLegs`).
- The property index reader takes the first matching prefix of a node, so a prefix written before a
  longer one hides it (`PropertyRules.EarlierPrefixHides`). The longest rule decides about all names
  exactly if it decides about the prefixes written in the index (`PropertyRules.LongestExactly`). If
  prefixes and branches are single segments, that is so exactly if no prefix hides a rule of its own
  node (`PropertyRules.UnhiddenExactly`).
- The reader looks for an exact entry only where its walk ends, so an entry with a dot is passed over
  if there is a branch for its first segment (`PropertyRules.EntryPassedOver`). Every entry is found
  exactly if none is passed over at its own node (`PropertyRules.OpenExactly`).

## Model

| member | source | states |
|---|---|---|
| LogBatch.BuildBatch | src/logging.rs:1634-1661 | the growing loop computes the specified batch, including failure on sequence overflow and on an oversized named batch |
| LogBatch.BuildFront | src/logging.rs:1634-1691 | a built batch is a non-empty single-origin front of the queue, numbered and linked from the chain head, within 64-bit numbering and the byte limit |
| LogBatch.GrowIsMaximal | src/logging.rs:1634-1661 | the selection is greedy and maximal: every shorter candidate fits, the next longer one does not |
| LogBatch.GrowExactly | src/logging.rs:1634-1661 | the growing loop stops at the first candidate that does not fit, and fails exactly when it has to look past the last 64-bit number |
| LogBatch.BuildSucceedsExactly | src/logging.rs:1634-1661 | for every encoder whose names cost a fixed number of bytes: a batch is built if and only if there is a first record that fits, the numbering does not overflow, and the selection fits with its name |
| LogBatch.FailsInWindow | src/logging.rs:1634-1661 | if a record can be selected and numbered, building fails if and only if the unnamed size is within a name's length of the limit |
| LogBatch.WindowStays | src/logging.rs:1634-1661 | that window does not depend on the time of the attempt |
| LogBatch.NameCanOverflowBatch | src/logging.rs:1634-1661 | with an encoding that grows with its records, every queue of at most 32 records of one origin whose encoding ends less than a name below the limit cannot be built |
| LogMachine.EnqueuedOf | src/logging.rs:1408-1541 | inserting appends to the records of its own origin and leaves the other origin's alone |
| LogMachine.EnqueuedPrioritised | src/logging.rs:1408-1541 | customer records stay in front of all runtime records |
| LogMachine.EnqueuedInv | src/logging.rs:1408-1541 | admission keeps the whole invariant unless a customer record goes in front of a retained runtime batch |
| LogMachine.DeliveredInv | src/logging.rs:1579-1632 | a batch sent at any earlier time may be accepted late or twice without breaking the invariant |
| LogMachine.SettledInv | src/logging.rs:1602-1617 | an acceptance the worker hears of keeps the invariant and removes exactly the accepted records |
| LogMachine.BuiltInv | src/logging.rs:1579-1661 | building on a chain head no newer than the sink's, and keeping the old batch on failure, keep the invariant |
| LogMachine.StepInv | src/logging.rs:1408-1661 | every step of worker, sink and network keeps the invariant, under the hypothesis on drop evidence |
| LogRun.RunInv | src/logging.rs:1579-1661 | so does every run |
| LogRun.EveryRun | src/logging.rs:1408-1661 | in every run, with lost requests, lost replies and late arrivals: what left the queue is in the log, nothing is in the log that was not admitted, per origin first mentions are a prefix of the admissions in order, the queue is prioritised and bounded by 32 and 96, and a retained batch is the single-origin front of the queue |
| LogRun.NothingLost | src/logging.rs:1609-1613 | an admitted record is queued or in the log |
| LogRun.NothingInvented | src/logging.rs:1579-1632 | a record in the log or the queue was admitted |
| LogRun.PopsAreExact | src/logging.rs:1602-1617 | after an answered acceptance queue and log together hold the same records in the same order as before, and the worker's chain is the sink's |
| LogRun.RebaseMakesProgress | src/logging.rs:1618-1632 | a conflict followed by an answered post shortens the queue, the sent records being its front |
| LogRun.StepKeepsInvExactly | src/logging.rs:1493-1541 | a step keeps the invariant if and only if it does not put customer drop evidence before a retained runtime batch |
| LogRun.EvidenceIsLost | src/logging.rs:1493-1541 | after that step and an acceptance, the evidence is neither queued nor in the log, and the last sent runtime record is still queued |
| LogRun.EvidenceCanMeetRuntimeBatch | src/logging.rs:1328-1338 | that step is reachable from the start by five concrete events, with every encoder that can encode one runtime record |
| LogRun.StuckForEver | src/logging.rs:1579-1661 | a queue in the window, without a retained batch or with one that the sink refuses, is left as it is, and the batch and the sink too, by every sequence of resolving, building and posting |
| LogRun.QueuedOrCounted | src/logging.rs:1408-1487 | an offered record is queued last of its origin or counted as dropped, never both, and queued exactly when there is room and encryption succeeds |
| LogWorker.LogWorker.AdmitChunk | src/logging.rs:1408-1458 | the in-place insertion, with release of a retained runtime batch, is the machine's admission step |
| LogWorker.LogWorker.AdmitRuntimeSsh | src/logging.rs:1460-1487 | likewise for runtime records, with the caps 32 and 96 |
| LogWorker.LogWorker.AdmitDropEvidenceFor | src/logging.rs:1493-1541 | taking the counters and queueing evidence is the machine's evidence step |
| LogWorker.LogWorker.PostOnce | src/logging.rs:1590-1632 | one post with all its answers is one event of the machine; a retry leaves a batch to send |
| LogWorker.Wire.Deliver | src/logging.rs:1593-1621 | the sink accepts only its own next sequence and hash, answers conflicts with its chain, and replies may be lost either way |
| LogWorker.LogWorker.Arm | src/logging.rs:1579-1588 | resolving the chain and building the first batch are steps of the machine |
| LogWorker.LogWorker.PopFront | src/logging.rs:1609-1612 | popping as often as records were sent removes that many from the front |
| LogWorker.LogWorker.FlushOnce | src/logging.rs:1579-1632 | a flush is a run of the machine without customer evidence, and success leaves no batch behind |
| LogWorker.LogWorker.DrainPrioritized | src/logging.rs:1293-1326 | draining both channels is such a run |
| LogWorker.LogWorker.FinishPrioritized | src/logging.rs:1328-1338 | finishing is a run of the machine that respects every retained batch if and only if its first step does: customer evidence does not meet a runtime batch there |
| LogWorker.LogWorker.Turn | src/logging.rs:1230-1291 | one turn of the worker's loop, whatever it receives, is a run of the machine without customer evidence |
| LogWorker.LogWorker.RunPrioritized | src/logging.rs:1230-1338 | over any work and with producers counting meanwhile, the invariant holds without hypothesis until the worker finishes, and the first step of finishing keeps it if and only if customer evidence meets no runtime batch there; then it holds at the end |
| LogWorker.QuietRunsRespect | src/logging.rs:1493-1541 | runs without customer evidence satisfy the hypothesis of the safety theorem |
| DropAccounting.StepConserves | src/logging.rs:112-132 | one atomic step of any producer or of the worker, between the two swaps too, keeps chunks and bytes offered equal to those found in all places together |
| DropAccounting.EveryInterleaving | src/logging.rs:801-829 | so does every interleaving of any number of producers whose totals fit 64 bits |
| DropAccounting.EveryRun | src/logging.rs:801-829 | from the start state on, every interleaving whose totals fit 64 bits ends with chunks and bytes offered equal to those found in all places together |
| DropAccounting.QuietBooks | src/logging.rs:1493-1541 | between calls the code's own books balance if and only if no evidence was lost to a failed encryption |
| DropAccounting.StepAddsUp | src/logging.rs:1493-1541 | every step keeps the evidence records adding up to what was reported |
| DropAccounting.EveryRunAddsUp | src/logging.rs:1493-1541 | so they do in every run from the start state |
| DropAccounting.EvidenceCanBeTorn | src/logging.rs:112-132 | a schedule in which one record reports the chunk and the next its bytes |
| DropEvidence.StepMatches | src/logging.rs:112-132 | each counter is the size or the byte total of a set of drops, through every step of any thread |
| DropEvidence.WholeExactly | src/logging.rs:112-132 | the two sets taken are the same if and only if nothing torn was waiting and the byte additions between the swaps are those of the drops half counted at the first |
| DropEvidence.RecordIsWholeExactly | src/logging.rs:1493-1541 | so it is for every record of every run from the start, and the numbers reported are those of the two sets |
| DropEvidence.RunClean | src/logging.rs:1493-1541 | as long as every record taken was whole, nothing torn is waiting |
| DropEvidence.NextRecordIsWhole | src/logging.rs:1493-1541 | so after whole records the next one is whole if and only if the byte additions between its swaps are those of the drops half counted at the first |
| DropEvidence.HalfCountedCanBeWhole | src/logging.rs:1493-1541 | a drop half counted at the first swap and finished before the second gives a whole record |
| QueueMemory.StepBalanced | src/logging.rs:711-727 | a step keeps the counter equal to bytes queued, reserved and unreleased, within 1 MiB, and its release is exact |
| QueueMemory.EveryInterleaving | src/logging.rs:663-709 | this holds through every interleaving of emitters and worker, and no release ever saturates |
| QueueMemory.EveryRun | src/logging.rs:663-727 | from the empty start on, every interleaving keeps the counter exact and within 1 MiB, and every release of the run is exact |
| ByteBudget.Budget.Admit | src/logging.rs:149-164 | the in-place window update is the specified one |
| ByteBudget.WindowsAreBounded | src/logging.rs:134-164 | no window admits more than the limit |
| ByteBudget.AnySecond | src/logging.rs:134-164 | under a monotone clock any one-second interval, ends included, admits at most twice the limit |
| ByteBudget.BoundIsReached | src/logging.rs:134-164 | and twice the limit does occur |
| Redaction.RedactValuesAfterMarker | src/logging.rs:1934-1970 | the in-place loop, over a text that changes length, computes the masked text, and reports no change only if there is none |
| Redaction.PassSafe | src/logging.rs:1934-1970 | a pass makes every occurrence of its marker, in any case, be followed past blanks and quotes by nothing, a delimiter or a whole mask, and does not undo this for any other marker |
| Redaction.SafeIsFixed | src/logging.rs:1934-1970 | a text that is safe for a marker is left unchanged by its pass |
| Redaction.MarkersReliable | src/logging.rs:1913-1926 | the fourteen markers have the properties the theorem needs: none overlaps itself or can reach into a mask |
| Redaction.PassesSafe | src/logging.rs:1913-1929 | after passes for a list of reliable markers, every occurrence of every one of them is safe |
| Redaction.Redacted | src/logging.rs:1913-1929 | after the fourteen passes every marker is safe in any text, and passing again changes nothing |
| Redaction.RedactMarkers | src/logging.rs:1913-1929 | the loop over the markers computes that text, and an unset flag means an unchanged text |
| SecretNames.DistinctDigestsAreSeparate | src/file_secrets.rs:124-156 | paths with different digests never share a staging or backup entry with any entry of the group |
| SecretNames.SameDestination | src/file_secrets.rs:124-156 | two accepted paths resolve to one destination if and only if they have the same components |
| SecretNames.ExtraSlash | src/file_secrets.rs:124-156 | one more slash in front of any accepted path that is not of full length is another spelling of it |
| SecretNames.SpellingsShareDestination | src/file_secrets.rs:124-156 | these two spellings share the destination but keep separate staging and backup entries |
| SecretGroup.UndoAllSplit | src/file_secrets.rs:238-259 | undoing in reverse order composes |
| SecretGroup.CommitUndone | src/file_secrets.rs:199-223 | whatever a commit attempt left, undoing its marks restores what undoing would have given before it |
| SecretGroup.CommittedUndoable | src/file_secrets.rs:199-223 | this holds for the whole group, also when destinations coincide |
| SecretGroup.CommitStands | src/file_secrets.rs:199-208 | after a commit attempt stopped anywhere, recovery finds the old or the complete new value |
| SecretGroup.StandsFound | src/file_secrets.rs:199-208 | after a commit attempt stopped anywhere, recovery finds the new value if and only if the file is committed and had no old value; otherwise the old one |
| SecretGroup.UndoFound | src/file_secrets.rs:210-223 | after a rollback stopped anywhere, recovery finds the new value if and only if the file was committed, had no old value, and its destination is not yet removed; otherwise the old one |
| SecretGroup.MixedExactly | src/file_secrets.rs:232-269 | if every file is to change: wherever a run stopped, the group is recovered old if and only if no file is found new, and new if and only if all are |
| SecretGroup.MixedWhileCommitting | src/file_secrets.rs:242-249 | stopped while committing, the group is mixed if and only if one committed file had no old value and some file is not committed or had one |
| SecretGroup.MixedWhileRollingBack | src/file_secrets.rs:250-259 | stopped or failed while rolling back, it is mixed if and only if a committed file without an old value is not removed yet and some file is removed, not committed or had one |
| SecretGroup.MixedWhileCleaning | src/file_secrets.rs:260-269 | stopped while removing backups, it is mixed if and only if one backup is removed or one file had no old value, and another backup is still there |
| SecretGroup.PoolMoved | src/file_secrets.rs:199-269 | also for coinciding destinations, an operation on one prepared file keeps this: what recovery finds for any file, and what any prepared destination holds, is nothing, a value tried for that destination, or one recoverable before under one of its spellings |
| SecretFiles.Prepare | src/file_secrets.rs:124-176 | preparing restores a leftover backup, removes leftover staging, and changes nothing else |
| SecretFiles.PreparedFile.Write | src/file_secrets.rs:178-197 | only the staging entry changes; it holds the whole value on success |
| SecretFiles.PreparedFile.Commit | src/file_secrets.rs:199-208 | the files and marks are one of the stages of committing, with success only at the last |
| SecretFiles.PreparedFile.Rollback | src/file_secrets.rs:210-223 | the files are one of the stages of undoing, with success only at the last |
| SecretFiles.Kernel.Rename | src/file_secrets.rs:74-101 | a rename moves the whole content or fails without effect, and without replacement refuses a taken name |
| SecretFiles.Kernel.Unlink | src/file_secrets.rs:103-111 | removing an entry that is missing is no error |
| SecretFiles.StageAll | src/file_secrets.rs:237-241 | after preparing and writing, wherever it stopped, the group can be undone and every file is recoverable; success leaves every value complete in its staging entry |
| SecretFiles.CommitAll | src/file_secrets.rs:242-247 | the same holds wherever committing stopped, and exactly the committed files without an old value are found new; success means all are committed |
| SecretFiles.RollbackAll | src/file_secrets.rs:250-259 | rolling back last to first, past errors, leaves exactly the committed files found new that had no old value and are not yet removed; without errors that is none, and a clean start gives the very files of the beginning |
| SecretFiles.Cleanup | src/file_secrets.rs:260-269 | removing backups keeps all new values in place, and exactly the files without an old value or without their backup are found new; success leaves no trace |
| SecretFiles.CommitTried | src/file_secrets.rs:242-249 | a commit attempt on one file keeps the invariant of the whole group |
| SecretFiles.RollbackTried | src/file_secrets.rs:250-259 | so does a rollback attempt |
| SecretFiles.InstallAt | src/file_secrets.rs:232-269 | wherever the run stops, a crash included, each file is recovered as its old or its whole new value, which of the two follows from where it stopped, and other entries are untouched; for coinciding destinations recovery finds nothing, a value tried, or one recoverable before under one of the spellings; a failed group rolled back from a clean start ends exactly as it began, also for coinciding destinations; success leaves every value in place and no staging or backup |
| SecretFiles.RecoveredValue | src/file_secrets.rs:157-176 | what the next prepare puts at the destination is the backup if there is one |
| SecretFiles.OneStart | src/file_secrets.rs:157-269 | an interrupted installation, with whatever list, leaves a file to be recovered as before or as the value tried for it |
| SecretFiles.ManyStarts | src/file_secrets.rs:157-269 | after any number of interrupted installations with differing lists, recovery finds for a file that is never listed under two spellings the original value or one complete value that was tried, and a file that existed still exists |
| SecretFiles.OtherSpelling | src/file_secrets.rs:157-269 | a backup left under another spelling survives every installation that does not list it, and the next one that does puts it over the destination: an installed value survives if and only if there was no such backup or it holds the same value |
| SecretFiles.OtherSpellingReached | src/file_secrets.rs:157-269 | from clean files, a crash after the first rename of a commit leaves such a backup, and it undoes the next installation |
| SecretFiles.CommitCrashMixesGroup | src/file_secrets.rs:242-249 | a crash right after the first commit, of a file that was not there, leaves it new and the second file old |
| SecretFiles.CleanupCrashMixesGroup | src/file_secrets.rs:260-269 | from two committed files, a crash between the two backup removals leaves one new and the other restored to its old value |
| PropertyTrie.JoinedSegments | src/processor_facts.rs:1208-1236 | splitting a name at its dots loses nothing |
| PropertyTrie.AddChildEdge | src/processor_facts.rs:1886-1932 | adding a node changes exactly one edge of the trie, whichever of the two sibling links or the child link it uses |
| PropertyTrie.AddChildKeepsValid | src/processor_facts.rs:1886-1932 | every node is still found by walking its own path, and sibling trees stay apart |
| PropertyTrie.StoreAtMeaning | src/processor_facts.rs:1860-1883 | storing a value overrides the meaning of one name and of no other |
| PropertyTrie.TrieAgreesWithMap | src/processor_facts.rs:1860-1932 | after any writes the trie holds for every name the last value written |
| PropertyTrie.WriteAllCost | src/processor_facts.rs:1860-1940 | the area takes no more room than a sum the caller can compute from the names |
| PropertyBytes.LinkPatched | src/processor_facts.rs:1955-1968 | patching a link word in the bytes changes that link of that node and no object else |
| PropertyBytes.ObjectAppended | src/processor_facts.rs:1925-1940 | appending an object in fresh bytes keeps all others |
| PropertyParser.FindAreaNode | src/processor_facts.rs:1285-1309 | the search loop computes the specified search with its visit cap, on arbitrary bytes |
| PropertyParser.ReadValue | src/processor_facts.rs:1208-1236 | the lookup loop computes the specified lookup, errors included, on arbitrary bytes |
| PropertyParser.FindRead | src/processor_facts.rs:1285-1309 | on bytes that represent a trie the search finds what the linked search finds, and the visit cap never rejects |
| PropertyParser.CStringRead | src/processor_facts.rs:1346-1361 | a text followed by a NUL is read back |
| PropertyParser.ReadPropRead | src/processor_facts.rs:1311-1344 | a stored record is read back under its own name |
| PropertyParser.ValueRead | src/processor_facts.rs:1208-1236 | the lookup in bytes is the walk in the trie |
| PropertyBuilder.AreaBuilder.InsertNode | src/processor_facts.rs:1886-1922 | the insertion loop over bytes does what the trie's descent does, and fails only when an offset exceeds 32 bits |
| PropertyBuilder.AreaBuilder.WritePair | src/processor_facts.rs:1860-1883 | writing one pair is writing it into the trie |
| PropertyBuilder.ShownValue | src/processor_facts.rs:1191-1236 | once the size is filled in, the lookup gives the trie's meaning of every well-formed name |
| PropertyBuilder.BuildArea | src/processor_facts.rs:1860-1883 | for every list of well-formed pairs an area within 32 bits is built, and looking up any well-formed name in it gives the last value written or none, without error |
| PropertyRules.ChosenIsRule | src/processor_facts.rs:1028-1060 | for every trie, what the walk inherits is the context of a rule of the trie whose prefix the name starts with, or what it started with |
| PropertyRules.ChosenIsLongest | src/processor_facts.rs:1028-1060 | in a trie of single segments in which no prefix hides a rule of its node, no rule anywhere in the trie that matches the name is longer than the one the walk ends up with |
| PropertyRules.ExactIsEntry | src/processor_facts.rs:1048-1067 | for every trie, an exact entry that is found is one of its entries for the whole name |
| PropertyRules.ExactFound | src/processor_facts.rs:1048-1067 | in an open trie, where no entry is passed over at its node, the walk finds an exact entry if and only if the trie has one for the whole name |
| PropertyRules.OpenExactly | src/processor_facts.rs:1048-1067 | for every trie, the walk finds for every name exactly the entries written for it if and only if the trie is open |
| PropertyRules.EntryPassedOver | src/processor_facts.rs:1048-1067 | an exact entry with a dot is not found if there is a branch for its first segment |
| PropertyRules.ResolvedIsWritten | src/processor_facts.rs:1028-1072 | for every trie, a name resolves to an exact entry for it, or else to the rule the walk chose, or else to what it started with |
| PropertyRules.MostSpecificDecides | src/processor_facts.rs:1028-1072 | in an open trie an exact entry decides, else the rule the walk chose, else nothing; where no rule is hidden that is the longest matching rule, or there is none |
| PropertyRules.SameChoice | src/processor_facts.rs:1028-1060 | for every trie, the choice looks no further into a name than its longest prefix that is written in the trie |
| PropertyRules.LongestExactly | src/processor_facts.rs:1028-1060 | for every trie, the longest matching rule decides about all names if and only if it decides about the prefixes that are written in the trie |
| PropertyRules.UnhiddenExactly | src/processor_facts.rs:1028-1060 | for every trie of single segments, the longest matching rule decides about all names if and only if, within each node, the first prefix that a written prefix starts with is a rule not shorter than any other it starts with |
| PropertyRules.EarlierPrefixHides | src/processor_facts.rs:1028-1060 | a prefix written before a longer one decides about the longer one's name |
| PropertyRules.TidyIsRegular | src/processor_facts.rs:1028-1060 | a trie with longer prefixes first, single-segment entries and nothing twice meets all three conditions |
| PropertyInfo.FindChild | src/processor_facts.rs:1116-1135 | the binary-search loop computes the specified search, errors included, on arbitrary bytes |
| PropertyInfo.SearchFinds | src/processor_facts.rs:1116-1135 | on sorted children the binary search finds what a look at all of them finds |
| PropertyInfo.ContextFor | src/processor_facts.rs:1028-1072 | the lookup loop computes the specified lookup on arbitrary bytes and ends within 32 nodes |
| PropertyInfo.HandOnRead | src/processor_facts.rs:1137-1159 | on bytes that show a trie the prefix and exact loops read the node's rules, and looking at the prefixes a second time changes nothing |
| PropertyInfo.InfoAgrees | src/processor_facts.rs:1028-1090 | on bytes that show a sorted trie of rules the lookup is the trie's resolution, and fails exactly when the walk needs more than 32 nodes |
| PropertyInfoBuilder.EntryWritten | src/processor_facts.rs:1829-1842 | an appended entry is in place and nothing before it changed |
| PropertyInfoBuilder.HeadFinished | src/processor_facts.rs:1847-1856 | the final patches set exactly the root's words and the header |
| PropertyInfoBuilder.FlatIsRegular | src/processor_facts.rs:1829-1842 | the trie of a built index, whose entries may have dots, meets all three conditions |
| PropertyInfoBuilder.BuildInfo | src/processor_facts.rs:1796-1857 | for every readable context and list of readable names (well-formed UTF-8 within the reader's limits, no NUL in the context) an index is built exactly when it fits 32 bits, and it answers every name: the context if it was listed, none otherwise |
| PayloadRange.CanonicalIsDecimal | src/payload_protocol.rs:171-179 | a text is accepted as a number if and only if it is that number's decimal print and fits 64 bits |
| PayloadRange.HeaderRoundTrip | src/payload_download.rs:324-336 | parsing a printed range gives the range, or the reason why it is not valid |
| PayloadRange.AcceptedIsCanonical | src/payload_protocol.rs:108-127 | a header is accepted as a range if and only if the range is valid and the header is its print |
| PayloadRange.SelectedExactly | src/payload_protocol.rs:149-168 | a selection exists exactly for valid ranges inside a non-empty object of safe size, and covers exactly the positions the range names |
| PayloadRange.MissingIsSuffix | src/payload_download.rs:293-300 | the range a resumed attempt asks for names exactly the missing suffix |
| PayloadRange.ContentRangeOnce | src/payload_download.rs:438-444 | equal content-range texts speak of the same start, end and size |
| PayloadDownload.FedInPieces | src/payload_download.rs:371-380 | hashing piece by piece is hashing the whole |
| PayloadDownload.OnlyTheClockRefuses | src/payload_protocol.rs:318-342 | the client's own header never mismatches its signed range: only the time can refuse it |
| PayloadDownload.RequestMade | src/payload_download.rs:150-182 | a request for the missing suffix fails only for its time, and otherwise expires within 60 s and within the authorization |
| PayloadDownload.Receive | src/payload_download.rs:347-381 | offset, hash state and sink advance together over one body; every read is non-empty, at most one buffer, and taken while the request is valid and the time budget lasts; a failed write leaves a part of its piece |
| PayloadDownload.Complete | src/payload_download.rs:382-416 | success means the promised digest; an integrity error means another one |
| PayloadDownload.Try | src/payload_download.rs:338-419 | one exchange leaves exactly what it received on the sink, uses bytes only of an answer that validates, and ends the transfer or asks to go on with something missing |
| PayloadDownload.DownloadPayload | src/payload_download.rs:265-429 | in every run attempts stay within the policy, no request or read begins at or after the time budget, each attempt starts where the received bytes end with an unused nonce, the sink holds what was received and after a failed write a part of its piece, success means full length and promised digest, and the budget error occurs exactly for an invalid policy |
| PayloadDownload.AsksForMissing | src/payload_download.rs:431-464 | each request of a run names exactly the bytes not yet received, and an answer whose bytes are used declares exactly their number |
| PayloadDownload.HonestPrefix | src/payload_download.rs:265-429 | if every body comes from the artifact at the place asked for, what was received, with the piece whose write failed, is a prefix of it, however answers were cut short |
| PayloadDownload.HonestSink | src/payload_download.rs:265-429 | then the sink is a prefix of the artifact whatever the result, and a full sink is the artifact |
| NetworkMetrics.JitterBounded | src/network_sample_contract.rs:165-184 | if consecutive round trips differ by at most m, the scaled estimator stays between 0 and 16 m, and the published jitter is at most m |
| NetworkMetrics.OrderStatistics | src/network_sample_contract.rs:185-199 | smallest, median, 90th percentile and largest are in this order |
| NetworkMetrics.Percentile | src/network_sample_contract.rs:185-199 | the 90th percentile is the least value that at least nine tenths of the round trips do not exceed |
| NetworkMetrics.Middle | src/network_sample_contract.rs:185-199 | half of the round trips or more do not exceed the median, and half or fewer stay within any smaller value |
| NetworkMetrics.LossBounded | src/network_sample_contract.rs:200-208 | loss lies between 0 and 10000, with both ends where they belong |
| NetworkMetrics.RoundTrips | src/network_sample_contract.rs:165-184 | the loop computes the round trips in arrival order and the estimator over them |
| NetworkMetrics.DerivedMeans | src/network_sample_contract.rs:153-209 | what all six metrics say about legs and echoes: when each is present, the rate is that of a biggest leg that counts, median and percentile split the round trips, jitter is bounded by their largest change and loss by 10000 |
| NetworkSample.ValidateLegs | src/network_sample_contract.rs:270-284 | the loop with a growing set accepts exactly distinct, well-shaped legs within the limit |
| NetworkSample.ValidateEchoes | src/network_sample_contract.rs:301-314 | likewise for echoes |
| NetworkSample.ValidateReceipt | src/network_sample_contract.rs:321-352 | likewise for a receipt that agrees with the sample |
| NetworkSample.Validate | src/network_sample_contract.rs:221-354 | the validator accepts exactly the samples that satisfy the declared conditions |
| NetworkSample.ClimbedGrows | src/network_sample.rs:77-112 | running an allowed leg keeps the ladder complete: a leg is present exactly when its precursor qualifies it |
| NetworkSample.KeptGrows | src/network_sample.rs:77-112 | a leg measured after the others keeps the order of legs and times up to the clock or the budget |
| NetworkSample.LegInTime | src/network_sample.rs:98-110 | a leg that may start by the 29 s rule, and starts within a second of the reading, ends within 30 s |
| NetworkSample.CollectedSound | src/network_sample.rs:121-122 | what was collected in order and in time is sound once the rounded-up duration is filled in |
| NetworkSample.SoundInTime | src/network_sample_contract.rs:270-314 | a sample that meets the declared conditions has nothing in it that ends after the budget |
| NetworkSample.ClimbLadder | src/network_sample.rs:70-112 | the leg loop keeps order and time, runs or skips exactly the allowed legs, and stays within the budget if every leg started promptly |
| NetworkSample.CollectSample | src/network_sample.rs:48-130 | over every transport that keeps its contract, the sample is accepted if and only if its start time is representable and everything in it ends within the budget, which prompt starts ensure; a receipt is kept only if the sample is accepted with it, and a leg is present exactly when allowed |
| NetworkSample.CollectBounded | src/network_sample.rs:330-348 | the same for the collection under its deadline |
| NetworkSample.SkippedIsValid | src/network_sample.rs:349-363 | the replacement sample is accepted exactly when its start time is representable |
| NetworkSample.LateLegs | src/network_sample.rs:98-110 | a leg that the clock allowed and that starts after 29 s makes the sample unacceptable if it takes four seconds, and does not if it takes half a second |
| NetworkSample.ValidMetrics | src/network_sample_contract.rs:153-209 | in an accepted sample every echo is a round trip, the median does not exceed the 90th percentile, which is one of them and at most 3 s, jitter is at most 3 s and loss at most 10000 |
| NetworkOutcomes.OutcomesInside | src/network_sample.rs:131-213 | every outcome of an accepted sample lies within the sample, does not end before it starts, and has times that are safe integers |
| NetworkOutcomes.OutcomesAccount | src/network_sample.rs:165-201 | the two directions together report the bytes of all legs, and a direction succeeded exactly when one of its legs did |
| ProcessTree.Tree | src/memory.rs:258-278 | the loop ends, also on parent cycles, with exactly the listed processes that have a parent path to the root or its group, and this set is closed |
| ProcessTree.LeastClosed | src/memory.rs:256-278 | that set is the least closed one |
| ProcessTree.ReadWorkload | src/memory.rs:280-313 | memory is read exactly when the root has some; the sum is the saturated total over the tree in any order, the peak its largest |
| MemorySampler.StepKeepsInv | src/memory.rs:337-417 | every step of caller or reader keeps at most one request in flight, belonging to the call that waits |
| MemorySampler.EveryRun | src/memory.rs:337-417 | in every interleaving a returned summary was read for that very call, at most one request is in flight, and a full request channel is never met |
| MemorySampler.Sampler.SampleWithin | src/memory.rs:388-417 | one call, with the reader running beside it, returns a summary read for this call or none |
| CanonicalJson.SortCanonical | src/diagnostics.rs:406-418 | the sorted form has strictly ascending keys at every depth |
| CanonicalJson.SortMeaning | src/diagnostics.rs:406-418 | sorting keeps the value as a map at every depth |
| CanonicalJson.CanonicalOnce | src/diagnostics.rs:402-418 | a meaning has at most one canonical form |
| CanonicalJson.NormalForm | src/diagnostics.rs:402-418 | two values sort to the same form if and only if they mean the same |
| CanonicalJson.SortedIsFixed | src/diagnostics.rs:406-418 | a value is its own sorted form if and only if it is canonical; sorting is idempotent |
| CanonicalJson.SameFormIsReordered | src/diagnostics.rs:402-418 | values without repeated keys have the same sorted form if and only if they differ only by key order, at any depth |

## Left out

- Sockets, HTTP, the bridge socket, child processes and serde or URL parsing: their results enter as arbitrary values.
- Encryption, signatures and hashing: encryption may fail at any time, a digest is an arbitrary function of the bytes fed; nothing is assumed injective unless a lemma says so.
- The single-origin loop of the log worker (src/logging.rs:1340-1406): it calls the modelled operations in an order the machine leaves open. In the loop of two origins the channels are lists of arbitrary work.
- Refusal of a malformed or inconsistent chain head (src/logging.rs:1859-1879): a reply that is refused is one of the lost replies.
- The size of a batch before it is named is an arbitrary function of its content; field-by-field JSON encoding is not part of this model. That a name adds a fixed number of bytes, and that timestamps of equal length make no difference, are hypotheses of the lemmas that need them.
- Redaction of URL credentials (src/logging.rs:1972-1997), the exact auth key and the trimming of a line: not part of this model. Texts are taken byte by byte.
- Modes, symbolic links, directories created on the way and the order in which a disk makes writes durable: the file system is a map from entries to contents, and a crash stops the program between two system calls or inside a write.
- PropertyRules.ChosenIsLongest: stated for tries whose prefixes and branches are single segments and whose prefixes hide no rule, because it is false of others (`PropertyRules.EarlierPrefixHides`); `PropertyRules.UnhiddenExactly` shows that the second condition is needed. For prefixes with dots the condition is that of `PropertyRules.LongestExactly`.
- PropertyRules.ExactFound: stated for open tries, because it is false of all others (`PropertyRules.OpenExactly`).
- PropertyInfoBuilder.BuildInfo: covers a context and names as the reader accepts them.
- PropertyBuilder.BuildArea: covers names and values as the reader accepts them; a name with an empty segment or a value over 91 bytes is refused by the code with a panic or an error and is not written here.
- Sizes of machine integers other than 32 and 64 bits: `usize` is taken to be 64 bits wide.
- PayloadDownload.DownloadPayload: a context is one that negotiation produced, so its size is positive and a safe integer; identity fields of the request, which are copied, are not part of this model. Sleeping between attempts has no effect on state.
- NetworkSample.CollectSample: the transport contract (shape and duration of a leg, shape of an echo list, nothing before the clock reading) is stated, not derived from the live transport; a clock-equal UDP send in src/network_sample/transport.rs could violate its strict order of send times. When a leg starts is left open.
- Inbound reachability and the probe identifiers of outcomes: field copies.
- Reading `/proc`, the process limit of the walk and the range of wire values (src/memory.rs:115-256): parsing.
- Restart policy, contact, discovery, customer environment and the other modules: mostly field comparisons and closed enumerations, which would add only easy members.
