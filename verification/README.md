# Verification of the table protocol and the storage engine

Dafny models of DBPlayground's table storage, with proofs.

**The sequential WAL protocol** (`Store`, `Writer`, `Indexer`, `Reader`, `System`). Any number of writers, indexers and
readers share a metadata store with conditional put and compare-and-swap, and a file store with create-if-absent
(If-None-Match and If-Match of sections 13.1.1 and 13.1.2 of RFC 9110). Every store call is one step, every actor is a
program counter with local variables, and a request whose reply is lost stays pending and may take effect at any later
step or never. `System.Run` is the state after a list of events; the theorems of `Promises` and `FencingRuns` hold after
every such list, and so do those of `AnswerRuns`, `IndexAnswers` and `CallBounds` about what callers are told and when calls
end. Reads do not wait for each other, so every interleaving of a loader's or an indexer's separate reads with
the steps of others is covered.

**The byte formats** (`Bytes`, `ObjectCodec`, `RowCodec`, `WalCodec`, `WalRows`, `Wire`, `WalWire`, `ObjectLayout`,
`ColumnarLayout`, `StoredObjects`, `Generations`): CURRENT (DBS2), manifest (DBM2), batch index (DBI2), WAL (DBW2) and packed rows, as printers and parsers
with exact inverses, as the loops over a byte writer and reader that compute them, and as byte positions: which field stands
where and which bytes a checksum covers. CRC-32 and SHA-256 are arbitrary
functions of the bytes, into 32 bits and 32 bytes; a statement about digests names collisions as its exception. In the
protocol a digest stands for the batch ids and chunks it was taken of, that is, no two batches of one run collide.
`StoredObjects` maps the protocol's objects to the formats' and shows that the encoders take them.

**The key-value engine** (`TreeShape`, `TreeInsert`, `TreePages`, `TreeSteps`, `BPlusTree`, `TreeScan`, `PageArrays`,
`ValuePage`, `ValueLayout`, `TupleStore`, `KeyCodec`, `PageFile`, `BufferPool`, `Engine`): B+Tree insertion with recursive splits through
parent links, the leaf chain, slotted value pages byte by byte, order-preserving keys, one page file, the buffer pool with
its LRU replacer, and the engine that joins them. Index pages, value pages and the catalog on page 0 share one space of page
numbers; the tree and the tuple store reach their pages through the pool only, and a flushed file is opened again from its
pages and its size alone.

**The columnar read path** (`PlainCodec`, `Columnar`, `ColumnarScan`, `CloudSource`): the file format, the direct-offset fast
path, the batched cursor, chunks written and scanned end to end, and a scan over a snapshot of any run down to the projected
rows of a log prefix. `ProbeLimit` is a snapshot load without contention and the adaptive probe limit of a cloud table,
`IndexPass` an indexing pass and `WriterPass` a Start and an Import without contention.

Exceptions are `None`, `Threw` or `Fail` results. Proof modules ending in `Safety`, `Fencing` or named `Honesty` and
`ScanRounds` hold the invariants and one lemma per program point.

## Findings

- `CloudTableWriter::Publish` takes over the latest CURRENT in its already-published branch without comparing epochs
  (src/Cloud/CloudTableWriter.cpp:191-196). An older writer can so pass the epoch check of its next Import under a newer
  writer's epoch and place an entry before that writer's fence. The design's rule that no older writer writes past a takeover
  is therefore false in general: `Adoption.AdoptionBreaksFencing` gives the runs and `FencingRuns.FencingExactly` the exact
  condition on a log. So is the bound on Start's scan by the log it took over: `EndlessScan.ScanOutlastsAnyBound` gives runs
  that exceed every number of rounds, and `FencingRuns.ScanRoundsBounded` the bound that does hold, one more round for every
  borrowed entry. The guard of the branch is `published >= slot` under another epoch (`Honesty.KeepsOwnEpochExactly`).
  Exactly-once import, contiguity, snapshots and visibility do not depend on epochs and hold regardless. A writer that took
  over another epoch in this way and is started again answers Started with that epoch, which it never acquired
  (`Adoption.RestartNamesAnotherEpoch`); `AnswerRuns.StartAnswersTrue` says that the answered epoch is its own if and only if
  its fence carries it.
- `BufferPoolManager::DeletePage` tests the pin count and then does nothing about it
  (src/Storage/BufferPool/BufferPoolManager.cpp:181-182). The pool stays in order if and only if the page was not pinned
  (`BufferPool.DropExactly`); otherwise the next page fetched from the file gets the frame with the old pins still on it, and
  its release does not make it evictable (`BufferPool.LeftoverPins`, and `BufferPool.DeleteWhilePinned` for a pool that gets
  there).
- `TupleStore::Update` deletes the old value before it stores the new one; a value too large for a page throws in between
  and the old value is lost (`TupleStore.TupleStore.Update`).
- The WAL decoder ignores bytes after the last cell of a packed row and takes any non-zero flag byte for true, so it is not
  injective; `WalRows.WalReencodes` says exactly when an object is the encoding of what it decodes to.
- Manifests of more than 1024 columns and WALs of more than 1,000,000 chunks can be written and never read back
  (`ObjectCodec.ManifestCodecExact`, `WalRows.TooManyChunks`).

## Model

| member | source | states |
|---|---|---|
| `Promises.ImportedExactlyOnce` | src/Cloud/CloudTableWriter.cpp:111-176 | In every run of any number of writers, indexers and readers, with retries, takeovers and late-landing requests, no batch id is in two Append WALs, and a batch that was answered for is in the answered slot alone, rows and ids intact |
| `Promises.LandingSeesWholeLog` | src/Cloud/CloudTableWriter.cpp:147-176 | A slot create can take effect only in the first free slot, and then its batch ids are in no entry of the log |
| `Promises.SnapshotIsLogPrefix` | src/Cloud/TableSnapshotLoader.cpp:15-58 | Under any interleaving of a loader's separate reads with other steps, data-file rows followed by replayed rows are the Append rows of WAL 1..published+probed, the replayed slots are exactly indexed+1..published+probed, probed is at most the limit of the load, and limit-reached is reported exactly when it equals a limit above 0 |
| `Promises.StrictSnapshotsExtend` | src/Cloud/TableSnapshotLoader.cpp:29-43 | Of two strict snapshots, the one with the older CURRENT is a row prefix of the other |
| `Promises.CommitIsVisible` | src/Cloud/CloudTableWriter.cpp:134-145 | A batch recorded as visible before a reader's CURRENT read is in that reader's snapshot, as the contiguous rows of its own slot; that a writer's Committed and AlreadyCommitted are what is recorded so is `AnswerRuns.AcksAreAnswers` |
| `AnswerRuns.CommittedIsVisible` | src/Cloud/CloudTableWriter.cpp:185-212 | In every run, once a writer has answered Committed or AlreadyCommitted for a batch, every snapshot of a load called after that holds it as the contiguous rows of the answered slot, whatever happens in between |
| `AnswerRuns.ImportAnswersTrue` | src/Cloud/CloudTableWriter.cpp:91-212 | In every run and ever after: Committed and AlreadyCommitted name a slot that holds the batch of the call and that CURRENT publishes, Committed only for a batch to be published at once; Durable names a slot that holds a batch not to be published at once; a retry that names a slot names one that holds the batch; InvalidRequest means a malformed batch, an id that belongs to another batch or no number left; NotStarted and Fenced leave the writer not started; epoch and published are those of a CURRENT the writer has seen, 0 if it is not started |
| `AnswerRuns.AcksAreAnswers` | src/Cloud/CloudTableWriter.cpp:91-212 | A step of a writer records an answer if and only if it ends an Import with Committed, AlreadyCommitted or Durable: the batch of the call, the answered slot, visible unless Durable; every other code records nothing |
| `AnswerRuns.StartAnswersTrue` | src/Cloud/CloudTableWriter.cpp:24-89 | In every run a writer told Started with an epoch writes under that epoch, which is that of its CURRENT, and its fence is in the log under the epoch it acquired itself; the two are one if and only if the fence carries the answered epoch, and always without a takeover in Publish; every other code comes with epoch 0 and a writer that is not started |
| `AnswerRuns.CallsEndForReason` | src/Cloud/CloudTableWriter.cpp:24-212 | Every call of every run ends for the reason its code stands for: a first Started with the newest epoch, acquired by itself, and a fence of that epoch one before the next slot; Contended after a newer epoch or the last attempt; Fenced after a newer epoch or an entry of another epoch in the slot; a retry of Start after a lost reply only; a retry of Import when the slot is empty or holds another entry of its own epoch, or publication ran out of attempts or met a newer epoch; InvalidTable only if the epochs have run out |
| `BatchLookup.MismatchExactly` | src/Cloud/CloudTableWriter.cpp:111-133 | With the index and the tail read, the lookup finds a mismatch if and only if an entry of the prefix shares an id with the batch without being the batch |
| `BatchLookup.SeenExactly` | src/Cloud/CloudTableWriter.cpp:122-146 | Without a conflict the lookup reports the whole batch and the slot that holds it, or none of its ids and no entry that shares one; never a part |
| `CallBounds.CallsEnd` | src/Cloud/CloudTableWriter.cpp:24-212 | In every run, whatever others do and whichever replies are lost, an Import is over after 2 steps per attempt, one per slot before its own and 8 more, and a Start has its epoch or is over after 3 per attempt and 8 more |
| `CallBounds.PassesEnd` | src/Cloud/CloudWalIndexer.cpp:27-88 | In every run an indexing pass is over after 266 steps per attempt and one more, whatever others do and whichever replies are lost |
| `Promises.AnswersStayTrue` | src/Cloud/CloudTableWriter.cpp:185-212 | An answer once given holds after every continuation of the run: the slot keeps the batch, CURRENT keeps publishing it |
| `Promises.WatermarksHold` | src/Cloud/SequentialProtocol.cpp:458-470 | WAL numbers are exactly 1..n, indexed <= published <= n in every CURRENT ever stored, version counts the stores, and epoch and watermarks never decrease |
| `Promises.HardErrorsUnreachable` | src/Cloud/SequentialProtocol.cpp:419-470 | Invalid transition, manifest mismatch, missing dedup index and missing required WAL cannot happen in any run |
| `Promises.ManifestsConserve` | src/Cloud/CloudWalIndexer.cpp:32-80 | Every manifest ever stored lists non-empty files with ascending disjoint ranges inside its prefix, whose rows and row counts are that prefix's, and dedup entries that are exactly that prefix's ids with slot, operation and digest |
| `SystemSafety.Safety` | src/Cloud/CloudTableWriter.cpp:24-212 | The protocol invariant (contiguous log, exactly-once, good manifests, valid CURRENT history, every pending request harmless, every actor's local facts true) holds after every run |
| `SystemSafety.RunGrows` | src/Cloud/SequentialProtocol.cpp:393-470 | No stored object, answer or snapshot is ever taken back by a continuation |
| `WriterSafety.WriterKeeps` | src/Cloud/CloudTableWriter.cpp:24-222 | Every step of Start, Import and Publish keeps the store invariant and the writer's own facts, and the batch it records as answered is in the recorded slot, published if recorded as visible; what the code itself says is `AnswerRuns.ImportAnswersTrue` |
| `IndexerSafety.IndexerKeeps` | src/Cloud/CloudWalIndexer.cpp:27-88 | Every step of an indexing pass keeps the store invariant and the pass's own facts |
| `IndexerSafety.SortUniqueDropsNothing` | src/Cloud/CloudWalIndexer.cpp:60-64 | Sort and unique over the collected entries drop nothing |
| `StoredObjects.ObjectsEncode` | src/Cloud/SequentialProtocol.cpp:151-255 | In every run the encoders' validity checks pass for every CURRENT ever stored and every manifest and batch index stored or pending, as long as sizes fit their 32-bit and 64-bit fields |
| `IndexerSafety.FileAddsRun` | src/Cloud/CloudWalIndexer.cpp:48-59 | The data file of a pass adds exactly the rows of its WALs to the manifest's rows |
| `ReaderSafety.ReaderKeeps` | src/Cloud/TableSnapshotLoader.cpp:15-58 | Every loader step keeps what the partial snapshot promises, and a finished load hands out a good snapshot; the loader never fails hard |
| `Invariant.LandKeeps` | src/Metadata/MemMetadataStore.cpp:16-43 | Whatever pending conditional create or swap takes effect next, the store invariant survives and the store only grows |
| `Fencing.FenceSeparates` | src/Cloud/CloudTableWriter.cpp:61-86 | In a log that parses as Fence(e) Append(e)* with rising epochs, a fence has only smaller epochs before it, none smaller after it, and is the only fence of its epoch |
| `FencingRuns.FencingExactly` | src/Cloud/CloudTableWriter.cpp:91-100 | In every run the fencing grammar holds if and only if no entry was created under an epoch other than its creator's own |
| `FencingRuns.FencingWithoutAdoption` | src/Cloud/CloudTableWriter.cpp:185-196 | A run in which no Publish takes over another writer's CURRENT keeps the fencing grammar |
| `FencingRuns.LateEntries` | src/Cloud/CloudTableWriter.cpp:52-88 | After an epoch is installed at log length n, only slot n+1 can still go to an entry of a smaller epoch |
| `FencingRuns.ScanRoundsBounded` | src/Cloud/CloudTableWriter.cpp:52-88 | In every run Start's unbounded scan loop goes round at most (log length when its epoch was installed) + 2 - indexed times, plus once for each entry another writer has stamped with that epoch |
| `FencingRuns.ScanRoundsWithoutAdoption` | src/Cloud/CloudTableWriter.cpp:52-88 | In a run in which no Publish takes over another writer's CURRENT the borrowed entries are none, and the bound is the log length at the takeover + 2 - indexed |
| `EndlessScan.ScanOutlastsAnyBound` | src/Cloud/CloudTableWriter.cpp:52-88 | For every m below 2^64 and any chunk of the table there is a run in which an epoch is installed over a log of two entries and its writer is still scanning after m rounds, because an older writer appends under the adopted epoch |
| `Adoption.ImportCommits` | src/Cloud/CloudTableWriter.cpp:24-212 | With nobody in the way a new table takes any valid batch that asks for immediate publication: there is a run in which Start plants its fence in slot 1 and Import stores the batch in slot 2, publishes it and answers Committed, so the promises about answered batches are not empty |
| `Adoption.RestartNamesAnotherEpoch` | src/Cloud/CloudTableWriter.cpp:24-25 | For any valid batch published at once there is a run in which a writer of epoch 1 is started again and answers Started with epoch 2, while every entry of the log has epoch 1 |
| `WriterPass.Start` | src/Cloud/CloudTableWriter.cpp:24-89 | From every good store with a CURRENT, with nobody in the way, a writer that is not started answers Started with the epoch after that of CURRENT, its fence right behind the log, one new CURRENT, its next slot behind the fence; InvalidTable and nothing changed when there is no further epoch; a started writer names the epoch it has and changes nothing |
| `WriterPass.Import` | src/Cloud/CloudTableWriter.cpp:91-212 | From every good store, with nobody in the way, the log alone decides a valid batch: refused exactly if it conflicts with an entry or is new and the numbers have run out; a batch of the log is answered in its own slot, AlreadyCommitted exactly if published; any other goes to the slot behind the log; Committed with one new CURRENT publishing the slot if that was asked for, else Durable with CURRENT unchanged; the writer is ready for the next batch |
| `WriterPass.RetryIsIdempotent` | src/Cloud/CloudTableWriter.cpp:122-145 | Importing the same ids and rows once more leaves the log as it is and names the same slot: AlreadyCommitted with CURRENT unchanged unless the first answer was Durable, then Committed or Durable as asked |
| `Adoption.AdoptionBreaksFencing` | src/Cloud/CloudTableWriter.cpp:185-196 | For any two valid batches without a common id there is a run in which an older writer's Publish takes over a newer CURRENT and its next Import lands under the newer epoch before the newer fence: the grammar fails |
| `IndexPass.Index` | src/Cloud/CloudWalIndexer.cpp:27-84 | Without contention a pass raises indexed to min(n, indexed + 256) and published to that if it was below, keeps the epoch, stores one new CURRENT exactly when it answers Indexed, answers NothingToDo exactly when indexed is n, and reports the indexed and published numbers of the CURRENT it leaves |
| `IndexPass.IndexAll` | src/Cloud/CloudWalIndexer.cpp:27-84 | After as many passes as there are blocks of 256 unindexed WALs, indexed and published both equal the log length |
| `IndexAnswers.ReportsTrue` | src/Cloud/CloudWalIndexer.cpp:27-88 | In every run a pass that ended with a code reports the watermarks of one CURRENT the table has had, or zeros; Indexed reports those of a CURRENT that a swap of this very indexer installed over one indexed less far |
| `IndexAnswers.PassesEndForReason` | src/Cloud/CloudWalIndexer.cpp:27-88 | Every pass of every run ends for the reason its code stands for: NothingToDo only if there is no CURRENT or the reported index reaches the end of the log, Indexed on its own swap, a retry only after the last attempt and with the watermarks of the present CURRENT, InvalidState only for a key outside data/ or manifest/ |
| `IndexPass.Sort` | src/Cloud/CloudWalIndexer.cpp:60-60 | The same entries, ascending by batch id |
| `ProbeLimit.Load` | src/Cloud/TableSnapshotLoader.cpp:15-58 | With nobody else acting the loader ends: nothing exactly when there is no CURRENT, else a good snapshot of it with min(limit, stored past published) WALs probed |
| `ProbeLimit.CloudTable.LoadSnapshot` | src/Cloud/CloudTable.cpp:30-42 | Nothing exactly when the table has no CURRENT, else the loader's snapshot; the limit it leaves follows from the tail it found, is unchanged without a snapshot or a probe, and stays within the policy's bounds |
| `ProbeLimit.NeverTurns` | src/Cloud/CloudTable.cpp:34-39 | On a tail of fixed length repeated loads move the limit in one direction only |
| `ProbeLimit.Settles` | src/Cloud/CloudTable.cpp:34-39 | Repeated loads reach a limit that never changes again, covers the whole tail or is the maximum, and is a quarter used or is the minimum |
| `ProbeLimit.SettlesWithin` | src/Cloud/CloudTable.cpp:34-39 | On a tail of fixed length the limit no longer changes after any n loads with minimum * 2^n >= maximum |
| `ProbeLimit.DoublesWhileReached` | src/Cloud/CloudTable.cpp:34-36 | After n loads that reach it the limit is min(maximum, limit * 2^n) |
| `ProbeLimit.HalvesWhileUnused` | src/Cloud/CloudTable.cpp:37-39 | After n loads that find nothing the limit is limit / 2^n rounded down, for every n for which that is no less than the minimum and than 2 |
| `Generations.CurrentBytesNeverRepeat` | src/Cloud/SequentialProtocol.cpp:458-470 | In every run two CURRENT values encode alike only if they are the same one, so a content-derived version is as strong as a generation counter |
| `Generations.CurrentReadsBack` | src/Cloud/SequentialProtocol.cpp:151-181 | Every CURRENT of every run encodes, and decoding its bytes returns it |
| `ObjectCodec.StateCodecExact` | src/Cloud/SequentialProtocol.cpp:151-181 | The CURRENT codec is an exact inverse both ways: decode(b) = s if and only if encode(s) = b |
| `ObjectCodec.StateBytesDiffer` | src/Cloud/SequentialProtocol.cpp:151-165 | States with different versions never encode alike |
| `ObjectCodec.ManifestCodecExact` | src/Cloud/SequentialProtocol.cpp:183-238 | decode(b) = m if and only if encode(m) = b and m has at most 1024 columns; wider manifests are written and never read back |
| `ObjectCodec.IndexCodecExact` | src/Cloud/SequentialProtocol.cpp:240-275 | The batch-index codec is an exact inverse both ways |
| `RowCodec.RowBack` | src/Table/RowCodec.cpp:56-91 | A packed row is read back whole wherever it stands |
| `RowCodec.RowReencodes` | src/Table/RowCodec.cpp:93-137 | A parsed row packs into the very bytes it was read from if and only if every flag byte read was 0 or 1 |
| `ColumnarLayout.RowLayout` | src/Table/RowCodec.cpp:56-91 | A packed row stands at a position if and only if each cell stands where the ones before it end: two's complement and IEEE bits least significant byte first, a flag byte of 0 or 1, a text after its length |
| `WalCodec.ContainerExact` | src/Cloud/SequentialProtocol.cpp:277-391 | The WAL container codec is an exact inverse both ways: an object is accepted if and only if it is the image of a valid container of at most 1,000,000 chunks; the image by byte position is `ObjectLayout.WalLayout` |
| `ObjectLayout.WalLayout` | src/Cloud/SequentialProtocol.cpp:277-391 | A WAL object is accepted as a container if and only if each field stands at its byte position: header, identity, ids, chunks each with the CRC-32 of its own bytes, the digest of the hashed part, and before the trailing letters the CRC-32 of all bytes before it |
| `ObjectLayout.StateLayout` | src/Cloud/SequentialProtocol.cpp:151-181 | Bytes decode to a CURRENT if and only if it is valid and its fields stand at their byte positions |
| `ObjectLayout.ManifestLayout` | src/Cloud/SequentialProtocol.cpp:183-238 | Bytes decode to a manifest if and only if it is valid, has at most 1024 columns and its fields, columns, files and index keys stand at their byte positions |
| `ObjectLayout.IndexLayout` | src/Cloud/SequentialProtocol.cpp:240-275 | Bytes decode to a batch index if and only if its entries are valid and stand at their byte positions |
| `ObjectLayout.WholeIsChecked` | src/Cloud/SequentialProtocol.cpp:381-384 | In an accepted WAL object the four bytes before the trailing letters are the CRC-32 of everything before them, least significant byte first |
| `ObjectLayout.AlteredCollides` | src/Cloud/SequentialProtocol.cpp:381-384 | Two accepted WAL objects of one length and with the same last eight bytes that differ anywhere before are a CRC-32 collision |
| `ObjectLayout.AlterationIsRefused` | src/Cloud/SequentialProtocol.cpp:381-384 | The encoding of a valid WAL, altered anywhere before its last eight bytes and of the same length, is refused unless the two prefixes are a CRC-32 collision |
| `WalRows.WalRoundTrip` | src/Cloud/SequentialProtocol.cpp:277-391 | For every valid WAL of at most 1,000,000 chunks with payloads below 2^32 bytes, decoding the encoding returns it with its digest, and encoding that again gives the same bytes |
| `WalRows.TooManyChunks` | src/Cloud/SequentialProtocol.cpp:340-342 | Past 1,000,000 chunks the encoder still writes and the decoder always refuses |
| `WalRows.DigestIdentifies` | src/Cloud/SequentialProtocol.cpp:299-322 | For any hash two attempts have the same digest if and only if schema version, batch ids and chunks agree, whatever their slot, epoch, table and operation, or their hashed bytes differ and collide |
| `WalRows.DigestedBytesIdentify` | src/Cloud/SequentialProtocol.cpp:299-322 | The hashed bytes of two attempts are equal if and only if schema version, batch ids and chunks agree |
| `WalRows.WalReencodes` | src/Cloud/SequentialProtocol.cpp:329-391 | A WAL that decodes is valid but for its schema version, and encoding it again gives the object it came from if and only if the version is 1 and no packed row has trailing bytes or a flag byte above 1 |
| `Wire.Writer.LittleEndian` | src/Cloud/SequentialProtocol.cpp:25-30 | The shift loop appends the little-endian digits of the number |
| `Wire.Writer.Strings` | src/Cloud/SequentialProtocol.cpp:36-40 | Appends the length-prefixed list, or throws exactly when the list or a string is too long |
| `Wire.Reader.LittleEndian` | src/Cloud/SequentialProtocol.cpp:63-72 | Reads the number whose little-endian digits come next, or throws exactly when the bytes run out |
| `Wire.Reader.Strings` | src/Cloud/SequentialProtocol.cpp:74-81 | Reads the list that stands at the position and advances past it, or throws as the parser does |
| `Wire.EncodeSequentialState` | src/Cloud/SequentialProtocol.cpp:151-165 | The encoder over the byte writer computes the CURRENT codec, throws included |
| `Wire.DecodeSequentialState` | src/Cloud/SequentialProtocol.cpp:167-181 | The decoder over the byte reader computes the CURRENT codec, throws included |
| `Wire.EncodeSequentialManifest` | src/Cloud/SequentialProtocol.cpp:183-212 | The encoder's loops compute the manifest codec, throws included |
| `Wire.DecodeSequentialManifest` | src/Cloud/SequentialProtocol.cpp:214-238 | The decoder's loops compute the manifest codec, throws included |
| `Wire.EncodeSequentialBatchIndex` | src/Cloud/SequentialProtocol.cpp:240-255 | The encoder's loop computes the batch-index codec, throws included |
| `Wire.DecodeSequentialBatchIndex` | src/Cloud/SequentialProtocol.cpp:256-275 | The decoder's loop computes the batch-index codec, throws included |
| `WalWire.EncodeRow` | src/Table/RowCodec.cpp:56-91 | The loop over the schema packs the row, and throws exactly on a wrong arity or an invalid type |
| `WalWire.DecodeInto` | src/Table/RowCodec.cpp:139-197 | Each projected cell goes to the last output column that names it, for any projection; a row that does not parse throws |
| `WalWire.EncodeSequentialWal` | src/Cloud/SequentialProtocol.cpp:277-327 | The loops over chunks and rows compute the WAL codec, throws included: bytes laid out as `ObjectLayout.WalLayout` says, with the checksum of the whole object last |
| `WalWire.DecodeSequentialWal` | src/Cloud/SequentialProtocol.cpp:329-391 | The loops over chunks and rows compute the WAL codec, throws included, whichever check fails first: accepted are exactly containers laid out as `ObjectLayout.WalLayout` says whose rows parse |
| `TreeShape.OrderedIsSorted` | src/Storage/Page/BPlusTreeInternalPage.cpp:85-93 | A tree with sorted leaves and separating keys reads in strictly ascending key order |
| `TreeInsert.FoundOnRoute` | src/Storage/Page/BPlusTreeInternalPage.cpp:85-93 | Every key left of a search path is smaller than the key sought and every key right of it greater |
| `TreeInsert.ClimbOrdered` | src/Container/BPlusTree.cpp:234-289 | Wherever the recursive splitting stops, the tree is ordered and balanced and holds the same entries |
| `TreeInsert.ClimbFilled` | src/Container/BPlusTree.cpp:724-738 | For every leaf limit from 2 and inner limit from 3 up, splits leave every page below the root at least half full and none over its limit |
| `BPlusTree.LowerBound` | src/Storage/Page/BPlusTreeLeafPage.cpp:57-62 | Binary search finds the first entry whose key is not smaller |
| `BPlusTree.BPlusTree.FindLeafPage` | src/Container/BPlusTree.cpp:669-698 | The descent ends at the leaf whose range holds the key |
| `BPlusTree.BPlusTree.GetValue` | src/Container/BPlusTree.cpp:34-62 | Finds the stored value of a key, and nothing exactly when the key is absent |
| `BPlusTree.BPlusTree.SplitLeaf` | src/Container/BPlusTree.cpp:185-219 | The upper half moves to a new page linked in to the right |
| `BPlusTree.BPlusTree.SplitInner` | src/Storage/Page/BPlusTreeInternalPage.cpp:150-197 | The upper half moves to a new page, and every child that comes along gets the new page for its parent |
| `BPlusTree.BPlusTree.InsertIntoParent` | src/Container/BPlusTree.cpp:234-289 | Climbing through parent links leaves pages that show the tree the recursive insertion yields: slots, parent links, leaf chain, each page in one place |
| `BPlusTree.BPlusTree.Insert` | src/Container/BPlusTree.cpp:123-174 | True exactly when the key was absent; then the entry takes its place in the sorted contents, else nothing changes; order, balance, occupancy, parent links and chain are kept, and no page of the pool that is not the tree's changes |
| `TreeScan.ChainIsContents` | src/Storage/Page/BPlusTreeLeafPage.cpp:49-51 | Right links from the first leaf read every entry once in ascending order, and then end |
| `TreeScan.FirstLeafPageId` | src/Container/BPlusTree.cpp:773-790 | The leftmost descent ends at the first leaf of the chain |
| `TreeScan.Scan` | src/Storage/BPlusTreeEngine.cpp:57-77 | Walking the chain yields the contents in order |
| `PageArrays.LeafArray.Insert` | src/Storage/Page/BPlusTreeLeafPage.cpp:84-101 | Shifting in place leaves the entries with the new one at its sorted position |
| `PageArrays.LeafArray.MoveHalfTo` | src/Storage/Page/BPlusTreeLeafPage.cpp:109-136 | The recipient receives exactly the upper half, the page keeps the lower one |
| `PageArrays.InnerArray.InsertNodeAfter` | src/Storage/Page/BPlusTreeInternalPage.cpp:123-146 | Shifting in place leaves the slots with the new one right after the child's |
| `ValuePage.AppendKeeps` | src/Storage/TupleStore/TupleStore.cpp:81-103 | On bytes: appending adds exactly one value as the new last slot, every other value reads as before, and regions overlap neither each other nor the directory |
| `ValuePage.DeleteKeeps` | src/Storage/TupleStore/TupleStore.cpp:128-147 | On bytes: a tombstone removes one value and nothing else |
| `ValuePage.OverwriteKeeps` | src/Storage/TupleStore/TupleStore.cpp:149-163 | On bytes: a value overwritten in place shows the new bytes, no other value changes |
| `ValueLayout.ValueAtLayout` | src/Storage/TupleStore/TupleStore.cpp:18-29 | A page in order shows value v in slot i if and only if i is below the number at byte 4, the length at byte 16 + 8i is that of v and no tombstone, and v stands at the offset at byte 12 + 8i |
| `ValueLayout.HeaderLayout` | src/Storage/TupleStore/TupleStore.cpp:18-22 | Next page, number of slots and start of the values are the first three four-byte numbers of a page |
| `TupleStore.TupleStore.FindOrCreatePageWithSpace` | src/Storage/TupleStore/TupleStore.cpp:55-79 | Finds or links in a page with room; no stored value changes, the chain stays acyclic and complete |
| `TupleStore.TupleStore.Put` | src/Storage/TupleStore/TupleStore.cpp:81-103 | Returns a locator never handed out before that reads back the value, changes no other locator and no page that is not the store's, and refuses exactly the values too large for a page |
| `TupleStore.TupleStore.Get` | src/Storage/TupleStore/TupleStore.cpp:105-126 | The stored value, or nothing for an unknown or deleted locator |
| `TupleStore.TupleStore.Delete` | src/Storage/TupleStore/TupleStore.cpp:128-147 | True exactly when the locator held a value; afterwards it holds none and all others keep theirs |
| `TupleStore.TupleStore.Update` | src/Storage/TupleStore/TupleStore.cpp:149-171 | In place exactly when the new bytes fit, else under a fresh locator; a value too large for a page throws after the old value is already deleted |
| `KeyCodec.IntOrder` | src/Common/Codec.h:37-49 | memcmp order of encoded int64 keys is numeric order, and equal encodings mean equal keys |
| `KeyCodec.DoubleOrder` | src/Common/Codec.h:51-62 | memcmp order of encoded doubles is numeric order of non-NaN bit patterns, -0 just below +0 |
| `KeyCodec.PutBigEndian64` | src/Common/Codec.h:37-42 | The shift loop writes the big-endian digits |
| `Engine.Engine.Insert` | src/Storage/BPlusTreeEngine.cpp:139-153 | The engine's map gains exactly the pair when the key was absent; a wrong key size or too large value throws and changes nothing; a present key changes nothing |
| `Engine.Engine.Get` | src/Storage/BPlusTreeEngine.cpp:155-162 | Map lookup; a wrong key size throws |
| `Engine.Engine.Flush` | src/Storage/BPlusTreeEngine.cpp:175-185 | The catalog and every page go through the pool to the file; the file by itself then shows the same map from the entry points on page 0, every page it needs below its size, and the map is unchanged |
| `Engine.FileLaid` | src/Storage/Disk/DiskManager.h:41-46 | Whatever pages a file must show, the page count derived from its size is above every page reachable from the root or the chain head, and root, chain and values read from it give the same map |
| `Engine.Create` | src/Storage/BPlusTreeEngine.cpp:101-116 | A new database is empty, keeps the key and value types it was created with, in the engine and in the catalog on page 0, and is refused exactly when page 0 is not the next page |
| `Engine.Open` | src/Storage/BPlusTreeEngine.cpp:117-137 | Entry points from the catalog lead to the map the pages show; a file without a catalog throws |
| `Engine.Reopen` | src/Storage/BPlusTreeEngine.cpp:95-137 | Flush and open the file again over a new pool of any size: the same map, page numbers going on from the size of the file, every page of index and values below it |
| `Engine.NewCursor` | src/Storage/BPlusTreeEngine.cpp:187-189 | A cursor stands at the smallest key of the engine's map with its value, or is at its end exactly when the map is empty |
| `Engine.KvCursor.Next` | src/Storage/BPlusTreeEngine.cpp:42-77 | On to the next larger key of the map and its value, no key of the map in between; past the largest, the end |
| `Engine.IntegersInOrder` | src/Common/Codec.h:37-49 | With int64 keys the next larger key of the map is the next larger integer stored, in numeric order |
| `BufferPool.LRUReplacer.Victim` | src/Storage/BufferPool/LRUReplacer.cpp:26-36 | Gives up the listed frame released longest ago |
| `BufferPool.LRUReplacer.Unpin` | src/Storage/BufferPool/LRUReplacer.cpp:53-66 | A listed frame keeps its place, a new one goes last |
| `BufferPool.BufferPool.FetchPage` | src/Storage/BufferPool/BufferPoolManager.cpp:24-76 | The frame shows the page's last content; null only when every frame is pinned; no other pinned frame changes |
| `BufferPool.BufferPool.NewPage` | src/Storage/BufferPool/BufferPoolManager.cpp:116-163 | A page number never used before, all zeros, pinned; no page's content changes and no pinned frame is touched |
| `BufferPool.BufferPool.UnpinPage` | src/Storage/BufferPool/BufferPoolManager.cpp:78-100 | One pin less and the dirty flag remembered; at no pins the frame becomes evictable; coherence is kept |
| `BufferPool.BufferPool.FlushPage` | src/Storage/BufferPool/BufferPoolManager.cpp:102-114 | The page's last content is on disk, no other page of the file changes |
| `BufferPool.BufferPool.FlushAllPages` | src/Storage/BufferPool/BufferPoolManager.cpp:194-203 | The file shows the last content of every page |
| `BufferPool.BufferPool.DeletePage` | src/Storage/BufferPool/BufferPoolManager.cpp:165-192 | The page leaves the pool and its frame is free, no other page's content changes, and the pool stays in order if and only if nobody held the page pinned |
| `BufferPool.DropExactly` | src/Storage/BufferPool/BufferPoolManager.cpp:179-190 | A pool in which a mapped page was deleted is in order if and only if the page had no pins |
| `BufferPool.LeftoverPins` | src/Storage/BufferPool/BufferPoolManager.cpp:62-68 | After any deletion the next page fetched from the file gets that frame with the deleted page's pins and one more; if there were any, one release leaves it pinned and out of the replacer |
| `BufferPool.DeleteWhilePinned` | src/Storage/BufferPool/BufferPoolManager.cpp:165-192 | A pool of one frame in which a pinned page is deleted gives out that frame with two pins |
| `BufferPool.ReplacerExact` | src/Storage/BufferPool/BufferPoolManager.cpp:40-56 | With no free frame the replacer lists exactly the mapped frames nobody holds pinned |
| `PlainCodec.PageBack` | src/Storage/Encoding/PlainCodec.cpp:67-117 | A page decodes to the cells it was made from |
| `PlainCodec.DirectEqualsWhole` | src/Table/Format/NativeColumnarFileFormat.cpp:158-178 | For any fixed-width page bytes, decoding only the wanted byte range gives the same slice as decoding the whole page |
| `ColumnarLayout.PageLayout` | src/Storage/Encoding/PlainCodec.cpp:17-45 | A page stands at a position if and only if each cell stands where the ones before it end |
| `ColumnarLayout.OpenLayout` | src/Table/Format/NativeColumnarFileFormat.cpp:88-119 | Any bytes open to a row count and column entries if and only if these stand at their positions counted from the end: trailing letters, footer size, row count, column count, and 34 bytes an entry |
| `ColumnarLayout.WrittenLayout` | src/Table/Format/NativeColumnarFileFormat.cpp:255-296 | A written file begins with the letters, opens to the row count, and the cells of each uncompressed column stand one after the other from the position its entry records, with the recorded sizes and count |
| `PlainCodec.EncodeColumn` | src/Storage/Encoding/PlainCodec.cpp:17-45 | The kernel loops write the page |
| `PlainCodec.DecodeColumn` | src/Storage/Encoding/PlainCodec.cpp:25-63 | The kernel loops read n cells, or throw when the bytes run out |
| `Columnar.OpenBack` | src/Table/Format/NativeColumnarFileFormat.cpp:88-119 | The footer of a written file reads back: row count and every column's position |
| `Columnar.ColumnBack` | src/Table/Format/NativeColumnarFileFormat.cpp:132-186 | Any row range of any column of a written file reads back, direct or by whole page, compressed or not |
| `ColumnarScan.ColumnarWriter.Write` | src/Table/Format/NativeColumnarFileFormat.cpp:246-253 | The buffered columns are those of the rows of all chunks written so far, in order; a chunk of another width is refused |
| `ColumnarScan.ColumnarWriter.Close` | src/Table/Format/NativeColumnarFileFormat.cpp:255-296 | The loops write the columnar file of the rows of all chunks written; within the size limits a reader can open it; a second close does nothing |
| `ColumnarScan.WriteThenScan` | src/Table/Format/NativeColumnarFileFormat.cpp:235-341 | Any lists of chunks written to files and any list of files scanned, in windows of any size under any projection, yield the projected rows of the listed files in order, a missing file skipped |
| `ColumnarScan.OpenReader` | src/Table/Format/NativeColumnarFileFormat.cpp:354-377 | A reader of the projected columns, or a throw exactly when the projection leaves the file |
| `ColumnarScan.ReadRange` | src/Table/Format/NativeColumnarFileFormat.cpp:203-224 | The projected rows [first, first+n) with n cut at the end of the file; false exactly past the end or for no rows |
| `ColumnarScan.ColumnarCursor.Next` | src/Table/Format/NativeColumnarFileFormat.cpp:318-341 | A non-empty window of at most the batch size off the front of the rows still to come, over all files in order, or none are left |
| `CloudSource.SnapshotWalCursor.Next` | src/Cloud/CloudTableSource.cpp:37-49 | The next chunk's rows, projected, off the front of the rows still to come |
| `CloudSource.CompositeBatchCursor.Next` | src/Cloud/CloudTableSource.cpp:16-24 | Every row of the data files before any WAL row; nothing lost or repeated at the seam |
| `CloudSource.SnapshotFits` | src/Cloud/TableSnapshotLoader.cpp:25-57 | In every run a snapshot's chunks are full typed chunks of the table, and its data files exist and hold rows of the table |
| `CloudSource.FilesAreWritten` | src/Cloud/CloudWalIndexer.cpp:48-59 | In every run each data file holds exactly the rows of some full typed chunks, so it is what the columnar writer makes of them |
| `CloudSource.Scan` | src/Cloud/CloudTableSource.cpp:70-74 | In every run a scan opened over any snapshot, the file store holding what the columnar writer made of each data file, yields the projected rows of the log prefix 1..published+probed |

## Left out

- BPlusTree.BPlusTree.Insert: every access fetches a page, copies it and releases it, so one page is pinned at a time; the original holds the pages of a path and uses a null page when the pool is smaller than that. Latches are not modelled.
- TupleStore.TupleStore.Put: the bytes of a page are a value that is replaced as a whole, not a buffer updated in place; page ids are below 2^31.
- TupleStore.TupleStore.Get: asks that a locator does not name a page of the index or the catalog, which the original would read as a page of values.
- PageFile.WriteAt: a page of the file is a catalog, an index page, the bytes of a value page or zeros; the byte layout of catalog and index pages is not modelled (`PageArrays` shows the in-place array work of index pages), and the size of the file is exact after every write.
- Engine.Engine.Insert: the index's insertion after a failed lookup cannot fail without threads, so its clean-up branch is not modelled; an exhausted pool cannot happen while no page is held between calls.
- BufferPool.BufferPool.FetchPage: page numbers are those already handed out, and a read error of the disk leaves zeros, as the original's frame reset does.
- BufferPool.BufferPool.FlushAllPages: goes by frames, the original by an unordered table.
- ColumnarScan.OpenReader: for files that were written by the writer; a footer shorter than it claims is read past its end by the original.
- WalRows.WalRoundTrip: the 256 MiB limit on reading a WAL object is not modelled, so a larger WAL is written here and read back.
- ColumnarScan.ColumnarWriter.Write: cells carry their column's type, as every column of the original does; a schema without columns or with an invalid type is not modelled.
- CloudSource.Scan: the protocol's store holds a data file's rows, and the bytes read are the columnar file of those rows; that the rows are of chunks the writer takes is `CloudSource.FilesAreWritten`, and that it makes those bytes of them is `ColumnarScan.ColumnarWriter.Close`.
- Columnar.ColumnBack: file positions below 2^64; zlib is any pair of functions the second of which undoes the first.
- Generations.CurrentBytesNeverRepeat: the state version is an unbounded number in the protocol; after 2^64 swaps the original wraps.
- The retry loops of the writer, the indexer and the snapshot loader are steps of a state machine, because other actors act between any two of their store calls; they are not methods with loops.
- Table id, schema and schema version are constant in the protocol model: identity mismatch checks always pass.
- The key generator, clocks and logging are inputs of the steps or absent; data-file paths are fresh, manifest and dedup keys need not be.
- A writer that gives up on a lost create and does not retry the same batch stays at its slot; that calls succeed under contention is not stated (`WriterPass` is the case without it, and `CallBounds` says that calls end).
- S3 access, request signing, local files, routing, catalog and service interfaces: network and pass-through code.
- B+Tree removal: above the leaf, borrowing from the left sibling shifts entries by two while the size grows by one (src/Storage/Page/BPlusTreeInternalPage.cpp:308-330).
- Root mutex, page latches and threads of the tree; garbage collection and compaction, which are not implemented.
- SequentialWalKey, SequentialStateStore::Initialize key names and MemStorage stream buffers: naming and plumbing with easy contracts only.
- Event loop, expression engine, hash table and other unrelated parts.
