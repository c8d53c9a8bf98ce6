# dodb storage engine, verified model

dodb is a single-shard transactional document store: a B+Tree in 4 KiB pages, a redo-only write-ahead log of
full page images, optimistic group commit, checkpoints and crash recovery. This project models its storage
core, its codecs and the reconciliation of its soak run in Dafny, and proves what the store is for: whatever
crashes, a restarted store serves the documents of a serial execution of whole transactions, with every
acknowledged one among them.

`dafny verify dfyconfig.toml` checks everything. The model follows the form of the code: the overlay, the WAL,
the cache, the read view, the checker, the budget and the wire buffers are classes or loops proved against
specification functions; the durability protocol is a state machine over its I/O steps.

## The parts

| files | what they model |
|---|---|
| `Lex`, `Endian`, `Seqs`, `Ranges` | byte strings and their order, fixed-width fields, sequences, byte ranges |
| `KeyCodec` | escaped, order-preserving document keys |
| `Reference`, `OrderedReads`, `Transactions`, `Errors` | the reference database that serves as specification, and what its queries and scans return |
| `Pages`, `Slotted`, `SlotReads`, `LeafFormat`, `InternalFormat` | decoded pages; leaf and internal pages as bytes |
| `Tree`, `Records`, `Space`, `Database`, `Splits`, `Capacity` | the B+Tree invariant, the ledger of pages, split points, which records a tree can take |
| `Updates`, `Climb`, `Change`, `Stamps`, `Overlay` | put and delete through leaf, internal and root splits, overflow chains, the allocator, restamping |
| `Batches`, `GroupCommit` | prepared transactions, groups staged in one overlay |
| `Crowding`, `SmallTrees`, `Failures` | requests that fail while they are staged, and inputs at which they do |
| `Reads`, `Budget`, `Queries` | get, query and scan under a response budget |
| `Checker`, `CheckerComplete`, `CheckerSound` | the invariant checker, and what an image it accepts gives a reader |
| `Cache`, `LazyPages`, `ReadView`, `Coordinator` | the bounded page cache, pages loaded while a group is prepared, the committed read view, publication before response |
| `Versions`, `Redo`, `Disk`, `Chronicle`, `Durability`, `DurabilityProof`, `CrashSafety` | logging, publication, flush, checkpoint, crash and recovery as steps of a machine |
| `Tales`, `EndToEnd`, `Resume`, `Conditions` | the requests behind the batches of a run; what a recovered store continues with; what conditions decide and protect |
| `WalFrames`, `WalLogs`, `WalScan`, `WalFile`, `WalLog`, `WalOpen`, `LogFiles`, `Appending` | the log as bytes: frames, batches, scan, append, reset, reopen; its relation to the machine's log |
| `Wire`, `Messages`, `Requests`, `Responses`, `Protocol`, `RequestSizes`, `Writer`, `Reader` | the wire protocol and the exact length of its frames |
| `Reconcile`, `Outcomes` | operations of unknown outcome against a final read |

## Main results

- **Crash safety.** `EndToEnd.DocumentsSurvive`: in every run of group commits, publications, flushes, checkpoints,
  log resets, crashes at any step and interrupted recoveries, starting from a new store, a serving store is a
  consistent tree that holds the documents of executing the surviving requests one after the other, each whole or
  not at all; everything that was durable earlier, acknowledged requests included, is a prefix of the survivors.
  `EndToEnd.SurvivorsAreReference`: outcomes and documents are those of the reference database.
  `CrashSafety.RecoveryNeverFails`: no check of the recovery path can fail.
- **Recovered stores go on.** `Resume.StampsStayBelow`: the revision recomputed from the checker's report and the log
  is right even when the log was reset, so every revision is used once; `Resume.CommitGroup`: the next group can be
  staged in every serving state of every run, so the runs above are not hypothetical. `Appending.LogGroup`,
  `Appending.ResetLog`, `Appending.OpenLog`: the bytes of the log keep up with the machine, so the append of such a
  group is never refused for its LSNs or batch numbers.
- **Redo.** `Redo.RedoConverges` and `Redo.RedoIdempotent`.
- **The B+Tree refines a map.** `Overlay.Overlay.Put` and `Delete` keep the whole-image invariant and act on the
  documents as an insertion in the reference model, through every kind of split.
- **Group commit is serial execution.** `GroupCommit.StageGroup` and `GroupCommit.GroupIsReference`.
- **No update is lost.** `Conditions.NoUpdateLostInAnyRun`: of two requests that demand the same revision of a key,
  the first of which writes it, at most one is ever accepted. `Conditions.UnmetExact` says what each condition decides.
- **Pages are conserved.** `Stamps.PageConservation`.
- **Reads.** `Queries.GetState`, `QueryRows` and `ScanRows` return exactly what the reference model returns, or
  refuse exactly when it does not fit the budget; the read view answers the same, and whatever the budget admits
  encodes within its maximum (`Protocol.AdmittedRowsFit`, `Protocol.AdmittedStateFits`).
  `OrderedReads.QueryExact` and `OrderedReads.QueryPages` say which documents those are and that pages join.
- **Publication before response.** `Coordinator.Coordinator.Process`: when a response is sent, readers of the view see
  the documents after the whole segment of its operation; all answers are those of one serial execution.
- **The cache never shows a stale page.** `LazyPages.CommitGroup`: for any accesses of accepted and refused requests
  every load returns the page as staged, and what is published is what was stored.
- **Failure is exact.** `Overlay.Overlay.Put`, `Delete` and `PrepareTransaction` fail exactly where the tree cannot take
  a record, and their contracts say what is left; `Failures` has inputs for both ways to fail.
- **The checker is exact.** `Checker.Check` succeeds on exactly the well-formed images, of any shape, and
  terminates on all; `CheckerComplete.SoundPasses`: every built tree passes, and only the values of failed puts leak.
  `CheckerSound.GetChecked`: in whatever passes, point reads find exactly the entries of the leaves, and values read.
- **The log survives every cut.** `WalScan.ScanCut`, `WalScan.CutCommitted`, `WalOpen.Reopen`: a log cut at any
  byte opens and yields exactly the batches whose commit record lies inside. `WalScan.ScanSound`: whatever is
  accepted, from any bytes, is what the file holds. Neither needs any property of the checksum.
  `LogFiles.AppendCrash` and `LogFiles.ResetCrash`: what bytes can survive is what the machine of the crash proof
  lets survive.
- **Codecs.** Slotted pages, keys, log frames and all wire messages round-trip, and what is accepted is canonical;
  encoding a page succeeds exactly when its records fit.
- **Reconciliation is exact** for single-key operations and for up to twelve: `Outcomes.ReconcileUnknownOperations`.

## What the model assumes

- Crashes: of the unsynced page writes of the data file any subset survives, and a page may be torn; of the
  unsynced tail of the log a byte prefix survives, and a truncation happened or not. Runs start from an initialised,
  synced store. Injected faults are crashes, not returned errors. File lengths are whole pages.
- A torn page does not decode. CRC32C and SHA-256 are arbitrary functions; UTF-8 is any codec whose two
  directions are inverse and that takes at least one byte for a character.
- Groups, and with them runs, consist of records of at most half a page: encoded key and inline value together have
  at most 1976 bytes. Beyond that a split can fail (below); single requests are specified without this bound.
- Numbers are unbounded in the tree and the durability machine: exhaustion of 64-bit LSNs, batch numbers and page
  numbers is modelled in the log (`WalLog`) and the codecs only.

## What the code does differently from what one might expect

- `choose_leaf_split` can fail, and that any two entries fit together in a page does not prevent it
  (`Crowding.PairsFitButNoSplit`: documents with empty values and ascending keys of 960, 960, 2960, 960 and 960 bytes). The
  exact condition is `Splits.LeafSplitExists`; a record of at most half a page always leaves a split
  (`Splits.SmallEntrySplits`).
- `choose_internal_split` needs three separators. A parent of one long separator that gets a second one that does not
  fit fails after the leaves below it were already split in the overlay. `Failures.SplitStops`: documents with keys of
  100, 1500 and 2960 bytes in two leaves, and a new one of 2700 bytes between the first two. The new leaf is known to no
  page (`Capacity.OrphanUnlinked`).
- A request that fails while it is staged is reported to that request only. If its leaf had no room, its earlier
  mutations stay in the shared overlay and the next accepted batch commits them at its commit LSN
  (`Overlay.Overlay.PrepareTransaction`, `Failures.LeftoverShows`, `Failures.RefusedIsCommitted`); the request leaves no
  trace in the documents exactly when its first mutation failed. The pages of a long value it had written are leaked
  (`CheckerComplete.CheckBuilt`).
- The store refuses keys and values beyond its limits, the reference model does not know these limits
  (`GroupCommit.GroupIsReference` asks for requests within them).
- A query or scan with limit 0 answers without looking at its keys.
- The checker does not demand that all leaves have the same depth, nor that separators ascend; the latter is checked
  when a page is decoded (`InternalFormat.DecodeInternal`), and point reads rely on it (`CheckerSound.Decoded`).
- Opening a log without records restarts LSNs at 1 even if its history starts later; `ResumeAfter` has to lift the
  counter before anything is appended (`WalOpen.Open`, `WalLog.WalLog.ResumeAfter`, precondition of
  `WalLog.WalLog.AppendGroup`).
- A leaf entry with an overflow reference of length 0, longer than the value limit or with the null page encodes
  but does not decode (`LeafFormat.LeafRoundTrip`). Slot padding and free space are not checked when a page is
  decoded, so different bytes can decode to the same page.
- More than twelve operations of which some touch several keys are reconciled by asking that every effect is
  visible. The answer "applied" is then right exactly when the keys no operation touches are as they were
  (`Reconcile.VisibleExplained`); the answer "partial" is wrong for some reads (`Reconcile.CompatibleExplained`,
  `Reconcile.ConflictIsPartial`).
- An error detail is cut to a number of characters but limited in bytes, so a long detail outside ASCII does not
  encode at all (`Responses.DetailWritten`, `Responses.WideDetailFails`).

## Model

| member | source | states |
|---|---|---|
| `EndToEnd.DocumentsSurvive` | crates/dodb-storage/src/btree/mod.rs:428-518 | in every run of commits, flushes, checkpoints, resets, crashes and recoveries from a new store, a serving store is a consistent tree that holds the result of executing the surviving requests one after the other, with the outcomes reported; what was durable at any earlier moment is a prefix of the survivors, and the commits among it are exactly the batches then in the log history |
| `EndToEnd.SurvivorsAreReference` | crates/dodb-testkit/src/reference.rs:112-157 | the documents a serving store holds, and the outcome of every surviving request, are those of the reference database executing these requests at their commit LSNs |
| `EndToEnd.RunKeepsTale` | crates/dodb-storage/src/btree/mod.rs:768-901 | the requests settled at one moment of a run, with their outcomes, are a prefix of those of every later moment |
| `EndToEnd.InitialConsistent` | crates/dodb-storage/src/btree/mod.rs:1174-1224 | the image initialisation writes is a consistent tree without documents |
| `EndToEnd.InitialDocumented` | crates/dodb-storage/src/btree/mod.rs:1174-1224 | the empty history tells the documents of a new store |
| `CrashSafety.CrashSafe` | crates/dodb-storage/src/btree/mod.rs:428-518 | a store that serves after any run, whatever crashed, has the image of the initial one after all batches of its log history; the history only grows and contains every acknowledged commit |
| `CrashSafety.CrashKeepsPrefix` | crates/dodb-testkit/src/crashable_file.rs:163-171 | a crash during an append keeps some first batches of the group and every earlier one; any other crash keeps the history |
| `CrashSafety.RecoveryNeverFails` | crates/dodb-storage/src/btree/mod.rs:2299-2376 | no check of the recovery path can fail: the data file has its first pages, a superblock or a log with batches exists, a torn first log record is the expected one, and after the replay the chosen superblock is the committed one and the file has its length |
| `CrashSafety.ServesCommitted` | crates/dodb-storage/src/btree/mod.rs:2040-2053 | dirty pages over the data file show exactly the committed image |
| `CrashSafety.InitialStart` | crates/dodb-storage/src/btree/mod.rs:1174-1224 | a new, synced store satisfies what runs start from |
| `DurabilityProof.NextKeeps` | crates/dodb-storage/src/btree/mod.rs:910-1049 | every step of append, sync, publish, flush, checkpoint, reset, crash, open and replay keeps the invariant: among the rest the LSN and the batch number the log continues with are those the next group will have |
| `Resume.StampsStayBelow` | crates/dodb-storage/src/btree/mod.rs:501-516 | whenever the store serves, the next revision is the last commit LSN plus one, is at most the next LSN, and lies above every LSN and revision in every page; the tree holds the documents of the history |
| `Resume.ServeRevision` | crates/dodb-storage/src/btree/mod.rs:501-514 | the largest revision the checker reports after a recovery is the LSN of the last commit, even when the log no longer holds it |
| `Resume.ReportedRevision` | crates/dodb-storage/src/btree/checker.rs:20-64 | the checker reports the largest revision of any leaf entry in the file |
| `Resume.Begin` | crates/dodb-storage/src/btree/mod.rs:658-703 | an overlay over a recovered store satisfies everything staging asks for |
| `Resume.CommitGroup` | crates/dodb-storage/src/btree/mod.rs:658-703 | a group staged in any serving state of a run is one that the durability steps accept: its log records have the LSNs and batch numbers at which the log file continues, whatever commits, resets and recoveries came before, so runs can go on |
| `Appending.LogGroup` | crates/dodb-storage/src/wal.rs:395-480 | in every serving state of every run appending the records of a staged group to the log file succeeds, is the append and the sync of the durability machine, and leaves the file continuing where the machine does |
| `Appending.NewLog` | crates/dodb-storage/src/wal.rs:235-263 | the first log of a store continues where the machine starts |
| `Appending.ResetLog` | crates/dodb-storage/src/wal.rs:296-356 | after a checkpoint the log file is begun anew, never refused, and continues where the machine does |
| `Appending.OpenLog` | crates/dodb-storage/src/wal.rs:176-233 | opening the log after a recovery, and lifting its LSN beyond the checkpoint, lets it continue where the recovered store does |
| `Appending.QuietStep` | crates/dodb-storage/src/btree/mod.rs:910-1049 | steps that leave the log alone keep this agreement |
| `Appending.QuietCheckpoint` | crates/dodb-storage/src/btree/mod.rs:910-1049 | so does marking a checkpoint |
| `Resume.StagedGroupFits` | crates/dodb-storage/src/btree/mod.rs:768-901 | a staged group has the numbers, slots and images that publication demands |
| `Tales.TaleCuts` | crates/dodb-storage/src/btree/mod.rs:2299-2376 | cutting the last batches from a history leaves the serial execution of the remaining requests, and everything settled stays |
| `Redo.RedoConverges` | crates/dodb-storage/src/btree/mod.rs:2299-2376 | from any mixture of old, new and torn pages that a crash can leave, replaying the batches after the checkpoint restores every page of the committed image and leaves in each superblock slot the last one logged for it |
| `Redo.RedoIdempotent` | crates/dodb-storage/src/btree/mod.rs:2299-2376 | on a restored file no image of any batch is written again |
| `Redo.RecoverDataFile` | crates/dodb-storage/src/btree/mod.rs:2299-2376 | the loop over batches and images computes the replay of exactly the batches beyond the checkpoint, after growing the file to the highest logged page |
| `Redo.ReplayBatch` | crates/dodb-storage/src/btree/mod.rs:2336-2366 | writes an image only where the page is unreadable, older, or a superblock |
| `Redo.RepairVersion` | crates/dodb-storage/src/btree/mod.rs:2336-2366 | redoing one image moves a page to the version of that batch or leaves a newer one; pages not logged after the checkpoint stay |
| `Versions.StampUpper` | crates/dodb-storage/src/btree/mod.rs:1391-1485 | a page carries no LSN beyond the batches applied to it |
| `Versions.NewPagesCovered` | crates/dodb-storage/src/btree/mod.rs:2070-2087 | every page by which the file grew is in some batch, so a replay can supply it |
| `Chronicle.ChoiceExists` | crates/dodb-storage/src/superblock.rs:179-209 | whatever valid superblocks a crash leaves in the slots, the choice is the newest one that was written and survived |
| `Chronicle.ReplayedChoice` | crates/dodb-storage/src/superblock.rs:179-209 | after a replay the choice is the superblock of the last committed batch |
| `Overlay.Overlay.Put` | crates/dodb-storage/src/btree/mod.rs:1636-1680 | refused unchanged exactly when key or value is too long; otherwise succeeds exactly when its leaf fits or splits and every ancestor the split reaches fits or has three separators; then it keeps the whole-image invariant and acts on the documents as an insertion under the provisional revision; without room in the leaf the documents are as before and the pages of its value are lost; otherwise a split stopped halfway |
| `Overlay.Overlay.Delete` | crates/dodb-storage/src/btree/mod.rs:1682-1726 | leaves a tombstone with the provisional revision for a key present or absent, under the same exact condition; never fails and keeps the shape of the tree for a present key |
| `Overlay.Overlay.InsertLeafEntries` | crates/dodb-storage/src/btree/mod.rs:1849-1893 | succeeds exactly when the leaf fits or splits and the ancestors take the separator; the leaf contents become the old ones with the change; entries that neither fit nor split fail and change nothing; otherwise the failure leaves a page its parent does not know |
| `Overlay.Overlay.InsertParentSeparator` | crates/dodb-storage/src/btree/mod.rs:1895-1972 | closes the gap a split left in the level above, splitting parents and the root as needed, without changing contents; fails exactly when an ancestor reached has at most one separator and no room for the second, and then leaves the page split last unknown to that ancestor |
| `Climb.ClimbStep` | crates/dodb-storage/src/btree/mod.rs:1925-1955 | splitting a parent moves the gap one level up |
| `Climb.RootStep` | crates/dodb-storage/src/btree/mod.rs:1958-1971 | a new root closes the gap above the old one |
| `Updates.LeafSplitStep` | crates/dodb-storage/src/btree/mod.rs:1868-1892 | splitting a leaf keeps contents, chains and page ledger and opens a gap in the level above |
| `Updates.ParentSplitStep` | crates/dodb-storage/src/btree/mod.rs:1925-1955 | splitting an internal page promotes its middle separator and opens a gap one level up |
| `Reads.FindLeaf` | crates/dodb-storage/src/btree/mod.rs:1974-2000 | terminates on any image; in a readable tree it reaches the one leaf whose key range holds the key, with the route to it |
| `Reads.LeftmostLeaf` | crates/dodb-storage/src/btree/mod.rs:2002-2015 | terminates on any image and finds the first leaf of a readable tree |
| `Overlay.Overlay.AllocatePage` | crates/dodb-storage/src/btree/mod.rs:2070-2087 | takes the top of the free stack or a page beyond the file and keeps every page in exactly one role |
| `Overlay.Overlay.MakeValue` | crates/dodb-storage/src/btree/mod.rs:2109-2140 | stores a value inline or as a chain of overflow pages that reads as the value, leaving tree and other chains as they were |
| `Overlay.Overlay.FreeValue` | crates/dodb-storage/src/btree/mod.rs:2142-2184 | returns exactly the pages of a dropped chain to the free list; every other value stays |
| `Overlay.Overlay.FreeChainPages` | crates/dodb-storage/src/btree/mod.rs:2142-2184 | walks the chain and frees its pages in order |
| `Reads.ReadValue` | crates/dodb-storage/src/btree/mod.rs:2186-2225 | returns the bytes of the chain, never of another length, and rejects cycles and wrong lengths |
| `Database.TakePage` | crates/dodb-storage/src/btree/mod.rs:2070-2087 | allocation never hands out a page in use |
| `Updates.PushStep` | crates/dodb-storage/src/btree/mod.rs:2227-2238 | a freed page becomes the head of the free list and nothing else changes |
| `Stamps.PageConservation` | crates/dodb-storage/src/btree/mod.rs:2227-2238 | every page of a consistent image is in exactly one of tree, overflow chain and free list, at its recorded place and of the right kind; none is lost or shared |
| `Stamps.RestampedImage` | crates/dodb-storage/src/btree/format.rs:86-100 | restamping dirty pages keeps the image consistent and changes in the documents only the provisional revisions |
| `Splits.SplitCandidates` | crates/dodb-storage/src/btree/mod.rs:2279-2284 | the candidates are all inner positions, nearest to the middle first, earlier first among equals |
| `Splits.ChooseLeafSplit` | crates/dodb-storage/src/btree/mod.rs:2251-2260 | finds the fitting split nearest the middle, and none exactly when there is none |
| `Splits.ChooseInternalSplit` | crates/dodb-storage/src/btree/mod.rs:2262-2277 | finds the fitting split nearest the middle; with three or more separators none exactly when there is none |
| `Splits.LeafSplitExists` | crates/dodb-storage/src/btree/mod.rs:2251-2260 | the exact condition under which a leaf that outgrew its page by one record can be split: the records up to the new one, or from it on, fit in a page |
| `Splits.SmallEntrySplits` | crates/dodb-storage/src/btree/mod.rs:2251-2260 | a new record of at most half a page always leaves a split |
| `Splits.InternalSplitExists` | crates/dodb-storage/src/btree/mod.rs:2262-2277 | an internal page of three or more separators that outgrew its page by one can always be split |
| `Capacity.StoresHere` | crates/dodb-storage/src/btree/mod.rs:1974-2000 | a key has one route, one leaf and one place in it, so whether its record can be stored is decided there |
| `Capacity.TakesSplit` | crates/dodb-storage/src/btree/mod.rs:1925-1955 | ancestors take a separator that splits their lowest page exactly when those above take the promoted one |
| `Capacity.OrphanUnlinked` | crates/dodb-storage/src/btree/mod.rs:1925-1937 | after a split that stopped halfway the page split off last is in its level, but no page of the tree leads to it |
| `Crowding.PairsFitButNoSplit` | crates/dodb-storage/src/btree/mod.rs:2251-2260 | sorted entries with canonical keys of which any two fit in a page, and all but one fit, and that still cannot be split |
| `Overlay.Overlay.PrepareTransaction` | crates/dodb-storage/src/btree/mod.rs:1343-1389 | refuses in the order the code checks, leaving the overlay as it was; otherwise stages all mutations on top of what failed requests left and makes one batch of both, at one commit LSN; fails exactly at the first mutation that cannot be stored; if its leaf has no room, the mutations before it and nothing else stay staged, which shows in the documents exactly when there are any; otherwise a split stopped halfway |
| `Overlay.Overlay.StageMutations` | crates/dodb-storage/src/btree/mod.rs:1378-1387 | stores the mutations one after the other, telling the image each one met; stops at the first that cannot be stored, with exactly those before it staged or a split stopped halfway |
| `Overlay.PendingShows` | crates/dodb-storage/src/btree/mod.rs:1378-1387 | what failed requests left staged shows in the documents exactly when there is any |
| `Failures.LeftoverShows` | crates/dodb-storage/src/btree/mod.rs:684-688 | the next batch commits what failed requests left: a key shows that exactly when the failed requests wrote it and the accepted one did not |
| `Failures.RefusedIsCommitted` | crates/dodb-storage/src/btree/mod.rs:658-703 | an input at which this happens: a request that deletes a document and stores one with a long key is refused, and the next batch deletes the document |
| `Failures.SplitStops` | crates/dodb-storage/src/btree/mod.rs:2262-2277 | an input at which a split stops halfway: a request is refused after it split a leaf, and no page leads to the new leaf |
| `Overlay.Overlay.CheckConditions` | crates/dodb-storage/src/btree/mod.rs:1352-1372 | reports the first condition that does not hold, with the state found, or the first key too long to be stored; none exactly when all conditions hold (`Conditions.UnmetExact`) |
| `Conditions.UnmetExact` | crates/dodb-storage/src/btree/mod.rs:1352-1372 | the store meets conditions exactly when every key can be stored, every demanded revision is that of the key (0 if it was never written), every key demanded present is, and every key demanded absent is absent or deleted; otherwise the error names the first that fails, what it demands and what was found |
| `Conditions.TransactExact` | crates/dodb-testkit/src/reference.rs:119-135 | the reference database accepts a valid request exactly when all of its conditions hold in this sense, and otherwise names the first that does not |
| `Conditions.NoLostUpdate` | crates/dodb-storage/src/btree/mod.rs:1352-1372 | of two requests of a serial run that demand the same revision of a key, the first of which writes it, at most one is accepted |
| `Conditions.NoUpdateLostInAnyRun` | crates/dodb-storage/src/btree/mod.rs:658-703 | the same for all requests that survive in any run of the store, through crashes and recoveries |
| `Conditions.RevisionKept` | crates/dodb-storage/src/btree/mod.rs:1391-1485 | once written, a key never has an older revision again |
| `Overlay.Overlay.FinishTransaction` | crates/dodb-storage/src/btree/mod.rs:1391-1485 | restamps the dirty pages with the commit LSN, numbers the batch and leaves a clean overlay whose documents carry that LSN as revision |
| `Batches.CommitLsnsAscend` | crates/dodb-storage/src/btree/mod.rs:1391-1485 | commit LSNs strictly ascend within a group and lie beyond the next LSN it started from |
| `GroupCommit.StageGroup` | crates/dodb-storage/src/btree/mod.rs:658-703 | for records of at most half a page in the requests that pass validation the group is a serial execution: outcomes are those of validating each request against all accepted before it, refused ones leave no trace, and every prefix of the batches is a consistent image with the documents of that prefix |
| `GroupCommit.GroupIsReference` | crates/dodb-testkit/src/reference.rs:112-157 | outcomes and documents of a group are those of the reference database, request by request |
| `GroupCommit.RefusalIsReference` | crates/dodb-testkit/src/reference.rs:112-157 | a request is refused exactly when the reference database refuses it, with the same error; what it refuses is `Conditions.TransactExact` |
| `Transactions.ReferenceDb.Transact` | crates/dodb-testkit/src/reference.rs:112-157 | a refused transaction changes nothing; an accepted one applies all mutations at its commit LSN and moves the next LSN beyond it; which is which says `Conditions.TransactExact` |
| `Transactions.MutationsLookup` | crates/dodb-testkit/src/reference.rs:112-157 | after the mutations of a transaction each key it names has its new state and every other its old one |
| `Coordinator.Coordinator.Process` | crates/dodb-storage/src/btree/coordinator.rs:381-488 | every operation is answered in order with the answer of the documents after the operations before it; when an answer is sent, readers of the view see the documents after the whole segment of its operation; commit LSNs rise strictly over all groups; the batches of all groups are numbered one after the other in LSN, batch number, generation and slot, and lead to the image served |
| `Coordinator.Coordinator.ApplyGroup` | crates/dodb-storage/src/btree/coordinator.rs:572-651 | the batches of a group continue the numbers of those before it, and their commit LSNs are those of the outcomes |
| `Batches.OrderedJoin` | crates/dodb-storage/src/btree/mod.rs:1391-1485 | groups numbered one after the other are numbered as a whole |
| `Coordinator.Coordinator.ProcessWrites` | crates/dodb-storage/src/btree/coordinator.rs:572-651 | a segment of writes is committed as one serial group; whoever is answered sees in the view the documents after the whole group |
| `Coordinator.Coordinator.PublishReadUpdates` | crates/dodb-storage/src/btree/coordinator.rs:852-867 | the pages published since the last update bring the view to the committed image |
| `Coordinator.Coordinator.ReadState` | crates/dodb-storage/src/btree/coordinator.rs:572-651 | a queued read gets exactly the state of the committed documents, or the budget error exactly when it does not fit |
| `Coordinator.Segment` | crates/dodb-storage/src/btree/coordinator.rs:430-440 | a segment is the longest run of writes |
| `LazyPages.LazyPages.Page` | crates/dodb-storage/src/btree/mod.rs:2040-2053 | own pages first, then the cache, then the file: always the page of the staged image |
| `LazyPages.LazyPages.Finish` | crates/dodb-storage/src/btree/mod.rs:1446-1485 | the pages a candidate loaded are those committed when its turn comes; its changes are those of its dirty pages |
| `LazyPages.PrepareGroup` | crates/dodb-storage/src/btree/mod.rs:658-703 | for any accesses of accepted and refused requests: every load returns the page as the stores before it left it; each accepted request publishes exactly what was stored since the one before, and its loaded pages equal the image committed by those before it |
| `LazyPages.CommitGroup` | crates/dodb-storage/src/btree/mod.rs:768-901 | one publication for each accepted request; after all are published the cache agrees with the committed pages, which with the stores of trailing refused requests are the stored ones with all stores of the group |
| `Cache.PageCache.Get` | crates/dodb-storage/src/btree/cache.rs:29-34 | returns the cached page and changes only its age |
| `Cache.PageCache.Insert` | crates/dodb-storage/src/btree/cache.rs:36-59 | keeps as many pages as the capacity allows, among them the one inserted, and evicts those used longest ago |
| `Cache.InsertMany` | crates/dodb-storage/src/btree/cache.rs:61-65 | a coherent cache stays coherent with the pages overlaid |
| `Cache.Publish` | crates/dodb-storage/src/btree/mod.rs:768-901 | loaded pages and then changed pages leave the cache coherent with the published image |
| `Cache.ReadPage` | crates/dodb-storage/src/btree/mod.rs:2040-2053 | reading through the cache is reading the store |
| `ReadView.Collect` | crates/dodb-storage/src/btree/coordinator.rs:876-926 | terminates on any image; collects the pages reachable from the root, closed under references |
| `ReadView.FromStore` | crates/dodb-storage/src/btree/coordinator.rs:876-926 | the view of a consistent store shows its image |
| `ReadView.CommittedReadView.ApplyUpdates` | crates/dodb-storage/src/btree/coordinator.rs:928-939 | merging the published pages brings the view from the old image to the new one |
| `ReadView.ViewReads` | crates/dodb-storage/src/btree/coordinator.rs:941-952 | every page a read can ask for is in the view and equal to the committed page |
| `ReadView.CommittedReadView.Get` | crates/dodb-storage/src/btree/coordinator.rs:1041-1069 | the state of the key in the committed documents, or the budget error exactly when it does not fit; the budget is charged with the answer |
| `ReadView.CommittedReadView.Query` | crates/dodb-storage/src/btree/coordinator.rs:1071-1140 | the rows of the committed documents that the reference query selects (`OrderedReads.QueryExact`), refused exactly when they do not fit |
| `ReadView.CommittedReadView.Scan` | crates/dodb-storage/src/btree/coordinator.rs:1142-1195 | the rows of the committed documents, refused exactly when they do not fit |
| `Queries.GetState` | crates/dodb-storage/src/btree/mod.rs:1593-1619 | the reference state of the key, or the budget error exactly when it does not fit |
| `Queries.GetObserved` | crates/dodb-storage/src/btree/mod.rs:1621-1634 | presence and revision as in the reference model |
| `OrderedReads.QueryExact` | crates/dodb-testkit/src/reference.rs:163-186 | the reference query returns, in ascending order and at most `limit` of them, documents stored under the primary key behind the cursor, from the first one on if there is no cursor; a document it leaves out lies behind all rows of a full page |
| `OrderedReads.QueryAll` | crates/dodb-testkit/src/reference.rs:163-186 | if no more documents match than the limit, it returns exactly those that match |
| `OrderedReads.QueryPages` | crates/dodb-testkit/src/reference.rs:163-186 | a page followed by the page behind its last sort key is the page of both limits together |
| `OrderedReads.QueryLimit` | crates/dodb-testkit/src/reference.rs:163-186 | a smaller limit gives the first rows of a larger one |
| `OrderedReads.ScanExact` | crates/dodb-testkit/src/reference.rs:188-206 | the same for a scan: stored documents behind the cursor key, ascending, none left out before the last row |
| `OrderedReads.ScanAll` | crates/dodb-testkit/src/reference.rs:188-206 | if no more documents lie behind the cursor than the limit, a scan returns exactly those |
| `OrderedReads.ScanPages` | crates/dodb-testkit/src/reference.rs:188-206 | scan pages join as query pages do |
| `Queries.FindEntry` | crates/dodb-storage/src/btree/mod.rs:1974-2000 | finds the entry of a key in a readable tree, and in any image in which the separators lead the key to a leaf the entry of that leaf |
| `Queries.QueryRows` | crates/dodb-storage/src/btree/mod.rs:1728-1795 | exactly the rows of the reference query after the cursor, in order and up to the limit, characterised by `OrderedReads.QueryExact`; refused exactly when they do not fit the budget, which is charged with them |
| `Queries.ScanRows` | crates/dodb-storage/src/btree/mod.rs:1797-1847 | exactly the rows of the reference scan after the cursor; refused exactly when they do not fit |
| `Budget.NewBudget` | crates/dodb-storage/src/btree/mod.rs:248-260 | a budget needs room for the fixed part of a response; it starts with that part charged, and with 64 KiB of memory beyond its maximum |
| `Budget.RowsCost` | crates/dodb-storage/src/btree/mod.rs:287-310 | unless counting saturates, rows cost 20 bytes each on the wire and 64 in memory beyond their keys and values |
| `Budget.MemoryLimit` | crates/dodb-storage/src/btree/mod.rs:248-310 | admitted rows never hold more than the maximum and 64 KiB; up to 1489 rows the memory limit refuses nothing that fits the wire |
| `Budget.ResponseBudget.Reserve` | crates/dodb-storage/src/btree/mod.rs:262-280 | reserves both amounts or neither, exactly when both stay within their maximum |
| `Budget.ResponseBudget.ReserveDocument` | crates/dodb-storage/src/btree/mod.rs:287-310 | charges a row with its exact wire length |
| `Reference.InsertLookup` | crates/dodb-testkit/src/reference.rs:112-157 | an inserted state is found under its key and no other lookup changes |
| `Reference.SelectSkips` | crates/dodb-testkit/src/reference.rs:163-186 | rows outside the range or deleted do not count against the limit |
| `Checker.Check` | crates/dodb-storage/src/btree/checker.rs:20-64 | succeeds exactly on the images that are well formed, of any shape, with the tree and free list they hold; counts their pages, reports exactly the pages that are neither, and the largest revision; terminates on every image. What well formed gives a reader is `CheckerSound.GetChecked` |
| `CheckerSound.GetChecked` | crates/dodb-storage/src/btree/checker.rs:20-64 | in an image the checker accepts every point read succeeds: it finds an entry exactly when the leaves hold one with that key, its revision is not 0, and its value reads; pages are those that decode |
| `CheckerSound.CheckedSorted` | crates/dodb-storage/src/btree/checker.rs:260-302 | in an accepted image the keys strictly ascend from leaf to leaf and no page is used twice |
| `CheckerSound.CheckedValue` | crates/dodb-storage/src/btree/checker.rs:192-243 | every entry of an accepted image has a revision and a value of admitted size that reads |
| `CheckerSound.CheckedRoute` | crates/dodb-storage/src/btree/checker.rs:95-190 | the separators of an accepted image lead every key to the leaf that decides about it, whatever the depth of the leaves |
| `Checker.TreeCheck.VisitTree` | crates/dodb-storage/src/btree/checker.rs:95-190 | accepts exactly the subtrees whose pages are unvisited, whose keys lie within the bounds and between their separators |
| `Checker.CheckOverflow` | crates/dodb-storage/src/btree/checker.rs:192-243 | accepts exactly the chains of the stated length whose pages are unvisited; such chains read (`CheckerSound.CheckedValue`) |
| `Checker.LeftmostLeaf` | crates/dodb-storage/src/btree/checker.rs:245-258 | descends to the first leaf of a checked tree |
| `Checker.CheckLeafChain` | crates/dodb-storage/src/btree/checker.rs:260-302 | accepts exactly when the chain of leaves is the leaves of the tree in order and ascends |
| `Checker.CheckFreeList` | crates/dodb-storage/src/btree/checker.rs:31-49 | accepts exactly the free lists that end, do not repeat and share no page with the tree |
| `CheckerComplete.SoundPasses` | crates/dodb-storage/src/btree/checker.rs:20-64 | every image the store builds is well formed, and its tree and free list cover every page but those of values whose record found no place |
| `CheckerComplete.CheckBuilt` | crates/dodb-storage/src/btree/checker.rs:20-64 | the checker accepts every image the store builds, reports as leaked exactly the pages of values whose record found no place, and the largest revision of its entries |
| `WalScan.ScanCut` | crates/dodb-storage/src/wal.rs:734-928 | a log file cut at any byte after its first record scans to the log up to the last whole record |
| `WalScan.CutCommitted` | crates/dodb-storage/src/wal.rs:734-928 | the batches found in a cut log are exactly those whose commit record lies inside |
| `WalScan.ScanSound` | crates/dodb-storage/src/wal.rs:734-928 | whatever the scan accepts, from any bytes, is what the file holds: every batch reported is complete and committed in it |
| `WalScan.CutLength` | crates/dodb-storage/src/wal.rs:734-928 | what is kept of a cut log is a prefix of it, as long as whole records allow |
| `WalFile.ScanWal` | crates/dodb-storage/src/wal.rs:734-928 | the scanning loop computes the log of the file, the next LSN and batch number and the length to keep, and fails exactly on damage or exhausted numbers |
| `WalLogs.ParseSound` | crates/dodb-storage/src/wal.rs:830-906 | records accepted as batches are the records of these batches |
| `WalLogs.ParseComplete` | crates/dodb-storage/src/wal.rs:830-906 | the records of well-formed batches are accepted as these batches |
| `WalFrames.ReadsWhole` | crates/dodb-storage/src/wal.rs:930-971 | an encoded frame followed by anything reads as that frame |
| `WalFrames.ReadsTail` | crates/dodb-storage/src/wal.rs:740-813 | a frame cut anywhere reads as the torn end of the file, not as damage |
| `WalFrames.ReadIsEncoding` | crates/dodb-storage/src/wal.rs:930-971 | bytes accepted as a frame are its encoding |
| `WalFrames.ReadFrames` | crates/dodb-storage/src/wal.rs:740-813 | reads whole frames to the torn end and fails exactly on damage |
| `WalLog.WalLog.AppendGroup` | crates/dodb-storage/src/wal.rs:395-480 | succeeds exactly on a nonempty group with the expected numbers; the file then holds the old log and the batches of the group in order, synced, and the next LSN and batch number are those behind the last commit; on failure what was committed stays |
| `WalLog.WalLog.AppendCommit` | crates/dodb-storage/src/wal.rs:482-579 | writes the images of one batch and its commit record, or stops at the first image that does not belong |
| `WalLog.WalLog.AppendFrame` | crates/dodb-storage/src/wal.rs:581-621 | appends the encoding of one record to the file and of one frame to the log |
| `WalLog.WalLog.ResumeAfter` | crates/dodb-storage/src/wal.rs:285-294 | lifts the next LSN beyond a checkpoint and never lowers it |
| `WalLog.WalLog.Reset` | crates/dodb-storage/src/wal.rs:296-356 | begins an empty log after the checkpoint, with batch number 1, and refuses exactly when that would go back or exhaust LSNs |
| `WalOpen.Open` | crates/dodb-storage/src/wal.rs:176-233 | an empty file or a torn first record of the expected log begins anew; any other file opens to the log it holds or is refused exactly when it holds none; batch numbers go on behind the highest in it |
| `WalOpen.Reopen` | crates/dodb-storage/src/wal.rs:176-233 | after any crash of an appended file opening succeeds with the batches whose commit records survived, all synced ones among them |
| `WalOpen.CrashKeepsBatchPrefix` | crates/dodb-storage/src/wal.rs:395-480 | whatever bytes of a group survive, the batches found are those before it and the first few of it |
| `LogFiles.AppendReads` | crates/dodb-storage/src/wal.rs:395-480 | the log read from the bytes after an append is the old one with the batches of the group, and its last LSN and batch number are those of the last commit |
| `LogFiles.AppendCrash` | crates/dodb-testkit/src/crashable_file.rs:167-171 | every byte prefix a crash leaves of an unsynced group reads as a log the durability machine allows after that crash |
| `LogFiles.ResetCrash` | crates/dodb-storage/src/wal.rs:296-356 | every byte prefix a crash leaves of a new first record reads as one the durability machine allows |
| `LogFiles.CommitsBelowNext` | crates/dodb-storage/src/wal.rs:909-914 | the LSN at which an opened log continues lies beyond every commit in it |
| `Slotted.FillPage` | crates/dodb-storage/src/btree/format.rs:156-199 | fills a page from both ends with header, slots and records; succeeds exactly when they fit |
| `Ranges.EnsureNonOverlapping` | crates/dodb-storage/src/btree/format.rs:595-603 | comparing sorted neighbours decides whether any two records overlap |
| `SlotReads.ReadSlots` | crates/dodb-storage/src/btree/format.rs:571-593 | accepts exactly the slot areas whose records lie inside the page and do not overlap |
| `SlotReads.LaidOutReads` | crates/dodb-storage/src/btree/format.rs:229-267 | a page laid out by the encoder reads back its slots |
| `LeafFormat.EncodeLeaf` | crates/dodb-storage/src/btree/format.rs:156-199 | succeeds exactly when the entries are sorted, have canonical keys and fit; the error tells which |
| `LeafFormat.DecodeLeaf` | crates/dodb-storage/src/btree/format.rs:229-267 | accepts exactly the bodies that read as a leaf |
| `LeafFormat.LeafRoundTrip` | crates/dodb-storage/src/btree/format.rs:156-267 | an encoded leaf decodes to itself, exactly when its overflow references are ones the decoder accepts; otherwise it does not decode at all |
| `LeafFormat.ReadLeafFits` | crates/dodb-storage/src/btree/format.rs:229-267 | a leaf that decodes is sorted, canonical and fits in a page, so it can be encoded again |
| `LeafFormat.TombstoneFits` | crates/dodb-storage/src/btree/format.rs:148-150 | replacing an entry by a tombstone never makes a leaf too large |
| `InternalFormat.EncodeInternal` | crates/dodb-storage/src/btree/format.rs:336-397 | succeeds exactly when the separators are sorted, canonical and fit and every child is a data page; the error tells which |
| `InternalFormat.DecodeInternal` | crates/dodb-storage/src/btree/format.rs:399-461 | accepts exactly the bodies that read as an internal page |
| `InternalFormat.InternalRoundTrip` | crates/dodb-storage/src/btree/format.rs:336-461 | an encoded internal page decodes to itself |
| `InternalFormat.ReadInternalFits` | crates/dodb-storage/src/btree/format.rs:399-461 | an internal page that decodes can be encoded again |
| `KeyCodec.EncodedOrder` | crates/dodb-core/src/key.rs:60-65 | encoded keys compare bytewise exactly as keys compare |
| `KeyCodec.DecodeEncoded` | crates/dodb-core/src/key.rs:73-80 | decoding an encoded key returns it |
| `KeyCodec.EncodedDecode` | crates/dodb-core/src/key.rs:73-80 | whatever decodes is the encoding of the result |
| `KeyCodec.EncodedLenExact` | crates/dodb-core/src/key.rs:68-70 | the length computed without encoding is exact |
| `KeyCodec.PrimaryKeyRange` | crates/dodb-core/src/key.rs:60-65 | the keys of one primary key are contiguous and begin at its empty sort key |
| `KeyCodec.Encode` | crates/dodb-core/src/key.rs:128-137 | the loop writes the escaped components |
| `KeyCodec.DecodeKey` | crates/dodb-core/src/key.rs:143-177 | the loop decodes both components or reports the first error at its offset |
| `Protocol.RequestRoundTrip` | crates/dodb-protocol/src/lib.rs:302-354 | every request that encodes decodes to itself |
| `RequestSizes.RequestEncodes` | crates/dodb-protocol/src/lib.rs:302-316 | a request encodes exactly when tenant, keys, values, revisions, counts and limits are within their bounds and the frame, whose length is given field by field, is no longer than the limits admit |
| `Protocol.RequestFrameCanonical` | crates/dodb-protocol/src/lib.rs:318-354 | a frame that decodes is the encoding of the request |
| `Protocol.RequestPrefixFree` | crates/dodb-protocol/src/lib.rs:459-480 | no accepted request frame is a proper prefix of another |
| `Protocol.ResponseRoundTrip` | crates/dodb-protocol/src/lib.rs:356-435 | every response that encodes decodes to itself, but for the truncation of an error detail |
| `Protocol.ResponseFrameCanonical` | crates/dodb-protocol/src/lib.rs:380-435 | a frame that decodes is the encoding of the response and answers the request |
| `Protocol.ResponsePrefixFree` | crates/dodb-protocol/src/lib.rs:459-480 | no accepted response frame is a proper prefix of another |
| `Protocol.RowsFrameLength` | crates/dodb-protocol/src/lib.rs:681-709 | the frame of a row response has exactly the length the budget reserves; it encodes exactly when count, rows and this length are within the limits |
| `Protocol.AdmittedRowsFit` | crates/dodb-storage/src/btree/mod.rs:287-310 | rows that the budget admits always encode, to a frame of exactly the reserved length |
| `Protocol.AdmittedStateFits` | crates/dodb-storage/src/btree/mod.rs:282-285 | a state that the budget admits always encodes, to a frame within the maximum |
| `Protocol.StateFrameLength` | crates/dodb-protocol/src/lib.rs:711-728 | the frame of a state is at most the reserved length |
| `Requests.RequestReadsBack` | crates/dodb-protocol/src/lib.rs:530-625 | a request payload followed by anything reads back, and no further |
| `Requests.RequestCanonical` | crates/dodb-protocol/src/lib.rs:580-625 | an accepted request payload is the encoding of what was read |
| `Requests.TransactionReadsBack` | crates/dodb-protocol/src/lib.rs:765-857 | conditions and mutations read back |
| `Requests.TransactionCanonical` | crates/dodb-protocol/src/lib.rs:765-857 | accepted conditions and mutations are their encoding |
| `Responses.EnvelopeReadsBack` | crates/dodb-protocol/src/lib.rs:356-403 | a response payload reads back |
| `Responses.EnvelopeCanonical` | crates/dodb-protocol/src/lib.rs:405-435 | an accepted response payload is the encoding of what was read |
| `Responses.ErrorReadsBack` | crates/dodb-protocol/src/lib.rs:970-1011 | an application error reads back, its detail truncated |
| `Responses.ErrorCanonical` | crates/dodb-protocol/src/lib.rs:993-1047 | an accepted application error is the encoding of what was read |
| `Responses.DetailWritten` | crates/dodb-protocol/src/lib.rs:970-991 | an error detail is written exactly when its characters up to the limit take no more bytes than the limit |
| `Responses.WideDetailFails` | crates/dodb-protocol/src/lib.rs:970-991 | a detail at which this fails: one character of several bytes where the limit is one |
| `Messages.KeyReadsBack` | crates/dodb-protocol/src/lib.rs:859-879 | a key whose encoded form is short enough reads back |
| `Messages.StateReadsBack` | crates/dodb-protocol/src/lib.rs:711-742 | a revision state reads back |
| `Wire.ListReadsBack` | crates/dodb-protocol/src/lib.rs:681-709 | a counted list reads back when its elements do |
| `Wire.ListCanonical` | crates/dodb-protocol/src/lib.rs:695-709 | an accepted list is its encoding when that holds of its elements |
| `Writer.EncodeRequestFrame` | crates/dodb-protocol/src/lib.rs:302-316 | writes a frame exactly when the request is within the limits, and the frame decodes to the request |
| `Writer.EncodeResponseFrame` | crates/dodb-protocol/src/lib.rs:356-378 | writes a frame exactly when the response is within the limits, and the frame decodes to it |
| `Reader.DecodeRequestFrame` | crates/dodb-protocol/src/lib.rs:318-354 | accepts exactly the frames of requests and returns the request |
| `Reader.DecodeResponseFrame` | crates/dodb-protocol/src/lib.rs:380-435 | accepts exactly the frames of responses and returns the response |
| `Outcomes.ReconcileUnknownOperations` | crates/dodb-soak/src/lib.rs:772-861 | fails exactly on inconsistent input; says "not applied" exactly when the read matches the model, which for a read after any of the operations were run, one after the other, means exactly when none of those run mutates anything; otherwise, for single-key operations or at most twelve, says "applied" exactly when some of the operations in some order lead from the known documents to the documents read, and beyond that exactly when the read shows every mutation |
| `Outcomes.NotAppliedExact` | crates/dodb-soak/src/lib.rs:655-672 | a read after some of the operations were run at LSNs beyond every known revision matches what is known exactly when none of them mutates anything: a write of the same value shows in the revision |
| `Outcomes.MatchesKept` | crates/dodb-soak/src/lib.rs:655-672 | what is kept of a state matches that state and, where digests do not collide, no other |
| `Outcomes.OperationEffects` | crates/dodb-soak/src/lib.rs:723-767 | the effects of an operation are its mutations, key by key; none exactly when a key is unknown |
| `Outcomes.EffectsAreMutations` | crates/dodb-soak/src/lib.rs:723-767 | applying effects to what is known of the documents is what one knows after the transaction |
| `Outcomes.ExplainedIsPossible` | crates/dodb-soak/src/lib.rs:772-861 | effects in some order explain the read exactly when a serial execution of the operations does |
| `Reconcile.Search` | crates/dodb-soak/src/lib.rs:832-861 | the search finds an explanation exactly when one exists |
| `Reconcile.ShortcutExact` | crates/dodb-soak/src/lib.rs:796-814 | for operations of one key each, looking at every key alone is exact |
| `Reconcile.VisibleExplained` | crates/dodb-soak/src/lib.rs:820-831 | when all effects are visible, the read is explained exactly when the other keys are as they were |
| `Reconcile.CompatibleExplained` | crates/dodb-soak/src/lib.rs:820-831 | if operations agree on the keys they share, the answer "partial" for a large set is wrong exactly when every key is as it was or set by an operation visible as a whole |
| `Reconcile.ConflictIsPartial` | crates/dodb-soak/src/lib.rs:820-831 | a large set of operations that disagree on a key is answered "partial" after any of them were applied |
| `Reconcile.Resolve` | crates/dodb-soak/src/lib.rs:772-861 | chooses among the three methods and returns what they mean |

## Left out

- GroupCommit.StageGroup: asks for records of at most half a page in the requests that pass validation; beyond that a group is the sequence of its requests as `Overlay.Overlay.PrepareTransaction` specifies them one by one.
- Overlay.Overlay.PrepareTransaction: starts from images that are sound, not from those with a split that stopped halfway, on which the code goes on working.
- Coordinator.Coordinator.Process: reads are single gets, queries and scans go through the read view only; group limits, waiting times and overload are not modelled.
- LazyPages.CommitGroup: stands for any sequence of page accesses instead of those of the overlay, which reads the image directly.
- Outcomes.ReconcileUnknownOperations: for more than twelve operations of which some touch several keys it says what the code answers, and the lemmas named above say when that is right.
- LogFiles.AppendCrash: the machine's log has decoded pages, so decoding of page images is a parameter.
- Appending.LogGroup: encoding of page images is a parameter as well, and asks for LSNs, batch numbers and page numbers that 64 bits can hold.
- The encodings of the page header, superblock, overflow and free pages: fixed fields and checksums only.
- A crash during the very first initialisation of a store, and the check of the file identity before the log is opened.
- The mode without a log, batches of unconditional writes, and writing the legacy log format.
- Errors returned by the file system, and the degraded state a store enters after one.
- Exhaustion of 64-bit revisions, LSNs and page numbers in the tree and the durability machine.
- The server, client, QUIC transport and metrics, and the generator, growth trends and event files of the soak run.
