# A verified model of SamehadaDB

SamehadaDB is a relational database written in Go: slotted table pages, a buffer pool, strict
two-phase locking with refusal instead of waiting, an ARIES-like log with redo and undo, a
concurrent skip list as index, a linear-probing hash table, a Selinger-style join optimizer and a
request manager in front. This project models these parts and proves what they are for. Where
the code changes things in place, so does the model: classes over 4096-byte arrays for pages and the
log buffer, linked nodes for the replacer, methods with loops. Where several threads meet, the model is
a state machine whose steps are the sections one latch or mutex covers, and the results are about
every interleaving.

`dafny verify dfyconfig.toml` checks everything.

## How the files build on each other

- Bytes and pages: `Bytes`, `Tiling`, `SlottedPage`, `PageLayout`, `TablePage`; the skip list node in
  `BlockPageLayout`, `BlockPageImages`, `BlockPagePacking`, `BlockPageOverwrite`, `EntryBytes`,
  `SkipListBlockPage`.
- Transactions: `LockManager` (the tables and the class), `Transactions` (the interleaved machine),
  `TransactionSafety` (its invariant), `TransactionManager` (the commit and rollback loops),
  `Serializability`, `Precedence`, `TransactionOutcomes` (what each operation gives its caller).
- Log and recovery: `LogCodec`, `LogManager`, `LogScan`, `LogImage`, `LogFile`; `Recovery`,
  `RecoveryTheorem`, `RecoveryOutcome`, `WriteAhead`, `Durability`; concrete runs in `RunStates`, `LostCommit`,
  `LostUpdate`, `SwappedTuples`.
- Index: `KeyOrder`, `KeyEncoding`; `SkipListNode`, `SkipListChain`, `SkipListContents`,
  `SkipListLinks`, `SkipList`, `SkipListIterator`, `SkipListIndex`; under concurrency
  `SkipListSections`, `OptimisticValidation`, `OptimisticProgress`, `SoloThread`.
- `ClockReplacer`, `BufferPool`; `HashCells`, `HashBlockPage`, `HashTable`; `TableSets`, `Selinger`;
  `RequestManager`, `RequestOrder`; `Wrappers` holds `Option`.

## Model

| member | source | states |
|---|---|---|
| LockTable.GrantReadSound | lib/storage/access/lock_manager.go:131-168 | a read lock is refused exactly when another transaction holds the RID exclusively; a granted one keeps exclusion and both records of who holds what in step |
| LockTable.GrantExclusiveSound | lib/storage/access/lock_manager.go:176-205 | an exclusive lock on a slot is refused exactly when another transaction holds any lock on it |
| LockTable.GrantWriteSound | lib/storage/access/table_page.go:165-176 | whatever the caller held before, a write lock, by upgrade or outright, is refused exactly when another transaction holds any lock on the RID; counting the shared holders decides an upgrade |
| LockTable.ReleaseAllLeavesNothing | lib/storage/access/transaction_manager.go:280-285 | releasing both lock lists leaves no entry of the transaction in either table and every entry of the others |
| LockManager.LockManager.LockShared | lib/storage/access/lock_manager.go:131-168 | answer, lock tables and lock lists after the call are those of the specified grant |
| LockManager.LockManager.LockExclusive | lib/storage/access/lock_manager.go:176-205 | the same for an exclusive lock |
| LockManager.LockManager.LockUpgrade | lib/storage/access/lock_manager.go:213-247 | the same for an upgrade of the caller's shared lock |
| LockManager.LockManager.Unlock | lib/storage/access/lock_manager.go:255-276 | the tables after it are those of the specified release |
| TransactionSafety.EveryRunIsSafe | lib/storage/access/table_page.go:68-445 | in every interleaving no assertion or panic of the page and rollback code is reachable, locks exclude each other, every write set can be rewound |
| TransactionSafety.AbortRestores | lib/storage/access/transaction_manager.go:130-270 | when a rollback has emptied its write set, every RID the transaction ever write-locked holds what it found there |
| TransactionSafety.RollbackUpdateSucceeds | lib/storage/access/transaction_manager.go:221-236 | the rollback of an update never runs out of page space and changes no lock |
| TransactionOutcomes.GetTupleOutcome | lib/storage/access/table_page.go:552-637 | in every reachable state a read is on offer, is refused exactly when another transaction writes there, and otherwise sees the slot; the reader goes on exactly if a tuple is there or the slot is its own |
| TransactionOutcomes.InsertOutcome | lib/storage/access/table_page.go:68-141 | an insert is refused, without a trace, exactly when the page could not hold one tuple more or somebody else has its first empty slot locked; otherwise that slot, the log and the write set hold the tuple |
| TransactionOutcomes.UpdateOutcome | lib/storage/access/table_page.go:148-264 | an update is refused exactly when the slot is locked by another or holds no live tuple; a tuple that fits and is not shorter is there at once; otherwise a move is noted with the tuple asked for and the bytes it replaces |
| TransactionOutcomes.MarkDeleteOutcome | lib/storage/access/table_page.go:266-333 | a delete is refused as an update is; otherwise the tuple keeps its bytes and carries the mark |
| TransactionOutcomes.MoveMarkOutcome | lib/storage/access/table_heap.go:176-200 | the delete half of a moving update cannot be refused |
| TransactionOutcomes.MoveInsertOutcome | lib/storage/access/table_heap.go:202-224 | the insert half puts the tuple asked for into the first empty slot and notes both RIDs with old and new bytes |
| TransactionOutcomes.MovedUpdateArrives | lib/storage/access/table_heap.go:152-224 | whatever others do between the three sections of a moving update, the tuple asked for is live under the new RID and the old one marked; a commit leaves the one and removes the other |
| TransactionManager.TransactionManager.Begin | lib/storage/access/transaction_manager.go:33-56 | a new transaction gets a number never used before and disturbs no other |
| TransactionManager.TransactionManager.Commit | lib/storage/access/transaction_manager.go:58-128 | exactly the tuples the transaction marked are gone, the log ends with its COMMIT, its locks and only its locks are free |
| TransactionManager.TransactionManager.Abort | lib/storage/access/transaction_manager.go:130-270 | every write-locked slot holds again what was found there, every other slot is as it was, the log ends with its ABORT, its locks and only its locks are free |
| Serializability.CommittedRunsSerially | lib/storage/access/transaction_manager.go:58-128 | for every interleaving: executing the committed transactions one after another in commit order repeats every value they read and leaves under each RID what the run leaves |
| Serializability.SerialIsComplete | lib/storage/access/transaction_manager.go:58-128 | that serial execution has a place for every commit, with everything the transaction had accessed by then (`OpsAreAccesses`) |
| Precedence.ConflictSerializable | lib/storage/access/lock_manager.go:131-247 | of two conflicting accesses the earlier transaction has ended in between; the precedence graph of any run has no cycle |
| PageLayout.TuplesTile | lib/storage/access/table_page.go:25-57 | on a valid page every byte behind the free space pointer belongs to exactly one tuple, and none before it to any |
| PageLayout.FreeSpaceDoesNotWrap | lib/storage/access/table_page.go:543-546 | the unsigned subtraction gives the exact free space of the slots |
| SlottedPage.RoomIsExact | lib/storage/access/table_page.go:83-91 | the room check of an insert passes exactly when the page with one tuple more is still a page |
| SlottedPage.OutcomesAreExact | lib/storage/access/table_page.go:148-264 | each outcome of an update, said of the page with the tuple replaced: no slot, no live tuple, does not fit, would shrink, or fits |
| TablePage.TablePage.InsertTuple | lib/storage/access/table_page.go:68-141 | refused without a trace when the page with one tuple more would not be a page or the lock is refused; otherwise put into the first empty slot with every other slot as it was |
| TablePage.TablePage.UpdateTuple | lib/storage/access/table_page.go:148-264 | each of the outcomes (slot invalid, marked, too large, shrinking, in place) on its exact condition, and the page after it; every other tuple keeps its bytes though they moved |
| TablePage.TablePage.MarkDelete | lib/storage/access/table_page.go:266-333 | only the deleted flag of one slot changes, under a granted lock |
| TablePage.TablePage.ApplyDelete | lib/storage/access/table_page.go:335-402 | one slot becomes empty, every other tuple keeps its bytes though they moved |
| TablePage.TablePage.RollbackDelete | lib/storage/access/table_page.go:404-445 | only the deleted flag of one slot changes |
| TablePage.TablePage.GetTuple | lib/storage/access/table_page.go:552-637 | each answer on its exact condition; a tuple found is the slot's bytes |
| TablePage.TablePage.Init | lib/storage/access/table_page.go:448-487 | both ids are written; a new page gets no slots and no successor, a page initialised for redo keeps the slots it had |
| PageLayout.RedoneInitIsNoPage | lib/storage/access/table_page.go:468-474 | a page that never reached the disk, initialised for redo, has no free space pointer and almost four billion bytes of computed room |
| LogCodec.DecodeEncoded | lib/recovery/log_recovery/log_recovery.go:46-102 | decoding any prefix of an encoded record followed by anything: stop inside the header, cut inside the body, otherwise the record itself |
| LogCodec.EncodeAllInjective | lib/recovery/log_record.go:221-236 | two sequences of records with the same bytes are equal |
| LogManager.LogManager.AppendLogRecord | lib/recovery/log_manager.go:101-189 | the record becomes the last of the log with the next number, through both buffer swaps; nothing appended before is lost or moved |
| LogManager.LogManager.Flush | lib/recovery/log_manager.go:52-79 | everything appended is in the log file, in order |
| LogManager.PersistentLsnIsDurable | lib/recovery/log_manager.go:52-79 | every record up to the persistent LSN is in the file if and only if the flush covered a numbered record or none exists |
| LogManager.NumberedInOrder | lib/recovery/log_manager.go:101-125 | log order is LSN order |
| LogScan.ScanLog | lib/recovery/log_recovery/log_recovery.go:114-219 | the redo loop's reads return exactly the appended records and where each starts, if and only if no read ends inside a record |
| LogScan.OneReadIsAligned | lib/recovery/log_recovery/log_recovery.go:114-135 | a log no longer than one read is always scanned |
| LogScan.CutIsNotAligned | lib/recovery/log_recovery/log_recovery.go:114-135 | a record that straddles the end of the first read breaks the scan whatever follows |
| LogScan.UndoFindsRecord | lib/recovery/log_recovery/log_recovery.go:226-240 | the offset noted for an LSN leads back to the record with that LSN |
| LogImage.StoredLogReadsBack | lib/recovery/log_recovery/log_recovery.go:46-219 | the log of any run, written as bytes and scanned, is the log recovery works on, exactly when no read ends inside a record |
| LogImage.LongLogBreaksScan | lib/recovery/log_recovery/log_recovery.go:114-135 | a concrete log of 26419 records that the scan cannot read |
| Recovery.LogRecovery.Redo | lib/recovery/log_recovery/log_recovery.go:114-219 | pages and loser map after the loop are those of the record-by-record specification |
| Recovery.LogRecovery.Undo | lib/recovery/log_recovery/log_recovery.go:226-281 | pages after the nested loop are those of undoing each loser's chain, in any order of the map |
| Recovery.RedoRepeatsHistory | lib/recovery/log_recovery/log_recovery.go:114-219 | from every crash image, each page in some earlier version, redo produces exactly the pages and page LSNs the log describes |
| Recovery.RedoIsIdempotent | lib/recovery/log_recovery/log_recovery.go:114-219 | redo after redo changes nothing |
| RecoveryOutcome.RecoveryYieldsCommitted | lib/recovery/log_recovery/log_recovery.go:114-281 | crash any run: when the log holds no shrinking update and no applied delete of a loser, and nobody has written since where an aborted transaction wrote, redo and undo reach no panic and each RID holds what the serial execution of the committed transactions leaves there, whatever the order of the losers; aborts that undid marks and updates are covered |
| RecoveryOutcome.UndoOfApplyDelete | lib/recovery/log_recovery/log_recovery.go:246-252 | undoing an applied delete restores the tuple under its RID if and only if that is the page's first empty slot and there is room; `SwappedTuples` has the run |
| RecoveryOutcome.RedoOfUpdate | lib/recovery/log_recovery/log_recovery.go:164-173 | redo repeats an update if and only if it does not shrink the tuple; `LostUpdate` has the run |
| LostCommit.AbortRecordLosesCommit | lib/recovery/log_recovery/log_recovery.go:130-281 | a run of ten events and its log, on which redo and undo lose a committed tuple and bring an aborted one back |
| LostCommit.AbortMayRecover | lib/recovery/log_recovery/log_recovery.go:226-281 | the same abort alone is recovered correctly, so that an applied delete of a loser does not decide the outcome by itself |
| LostUpdate.FollowedUpdateIsLost | lib/recovery/log_recovery/log_recovery.go:226-281 | a run of ten events: an update rolled back, then one committed on the same tuple, equally long; of the three conditions only the one on later writers fails, redo repeats history, undo takes the committed update back |
| LostUpdate.LongerUpdateIsLost | lib/recovery/log_recovery/log_recovery.go:164-173 | the same run with the longer tuple rolled back: redo refuses the compensating record and the committed update, and leaves the aborted bytes |
| SwappedTuples.DeletedTuplesAreSwapped | lib/recovery/log_recovery/log_recovery.go:246-252 | a run of six events, cut off before its COMMIT: only the condition on applied deletes fails, and undo leaves two tuples swapped under their RIDs though nothing aborted |
| WriteAhead.RuleIsCrashImage | lib/storage/buffer/buffer_pool_manager.go:72-110 | what is on disk can be repaired from the log file if and only if every page LSN on disk is covered by it |
| WriteAhead.FlushPageRule | lib/storage/buffer/buffer_pool_manager.go:213-231 | a page flush keeps that rule if and only if the page's last change is already in the log file |
| WriteAhead.EvictedIsCurrent | lib/storage/buffer/buffer_pool_manager.go:72-110 | an evicted page is on disk as it was in memory, and the log file covers it |
| WriteAhead.EveryRunIsSound | lib/storage/buffer/buffer_pool_manager.go:72-110 | over all runs with evictions, log flushes and page flushes whose log holds no shrinking update: every page on disk is an earlier version of itself, and the rule holds when the page flushes came in order |
| WriteAhead.CrashRecovers | lib/recovery/log_recovery/log_recovery.go:114-281 | crash such a run anywhere, under the three conditions on the log: recovery from disk and log file yields the committed transactions of an earlier moment of the run |
| WriteAhead.FlushedTooEarly | lib/storage/buffer/buffer_pool_manager.go:213-231 | a run whose early page flush leaves an uncommitted tuple that nothing can take back |
| Durability.CommittedSurvives | lib/storage/access/transaction_manager.go:112-128 | crash such a run anywhere: every transaction whose commit had returned after writing something is among the committed ones of the moment recovery arrives at |
| Durability.FlushLetsCommitEnd | lib/storage/access/transaction_manager.go:112-128 | a log flush is all a commit waits for before it releases its locks |
| KeyOrder.RankOrder | lib/types/column_value.go:127-306 | the comparisons of the strings agree with one total order in which distinct strings differ |
| KeyEncoding.KeysFollowValues | lib/samehada/samehada_util/samehada_util.go:263-353 | smaller value, smaller key, whatever the record ids |
| KeyEncoding.KeyRoundTrip | lib/samehada/samehada_util/samehada_util.go:290-388 | the value is read back from its key |
| KeyEncoding.KeysAreInjective | lib/samehada/samehada_util/samehada_util.go:317-353 | distinct pairs of value and record id have distinct keys |
| KeyEncoding.KeysAreNotMarkers | lib/samehada/samehada_util/samehada_util.go:317-353 | no key is one of the list's two marker keys |
| KeyEncoding.LowerBound | lib/storage/index/skip_list_index.go:81-127 | a key is at or above the scan key of the lower bound exactly when its value is |
| KeyEncoding.UpperBound | lib/storage/index/skip_list_index.go:81-127 | a key is at or below the scan key of the upper bound exactly when its value is |
| KeyEncoding.PackRoundTrip | lib/samehada/samehada_util/samehada_util.go:58-100 | a record id survives packing into eight bytes |
| BlockPageLayout.RoomIsExact | lib/storage/page/skip_list_page/skip_list_block_page.go:845-847 | the unsigned subtraction of a node's free space never wraps and is the capacity less what the entries take |
| SkipListBlockPage.SkipListBlockPage.InsertInner | lib/storage/page/skip_list_page/skip_list_block_page.go:169-204 | sliding slots and appending bytes inserts one entry into the sequence; every other entry reads back the same and the header fields stay |
| SkipListBlockPage.SkipListBlockPage.RemoveInner | lib/storage/page/skip_list_page/skip_list_block_page.go:380-418 | sliding payload, 16-bit offset fix-up and slot slide take one entry out; every other entry reads back the same and the header fields stay |
| SkipListBlockPage.SkipListBlockPage.SetEntries | lib/storage/page/skip_list_page/skip_list_block_page.go:804-836 | whatever the page held, it holds exactly the given entries in order |
| SkipListBlockPage.SkipListBlockPage.GetEntry | lib/storage/page/skip_list_page/skip_list_block_page.go:777-781 | reads back the entry of that position |
| EntryBytes.EntryRoundTrip | lib/storage/index/index_common/index_common.go:15-38 | key and value are read back from a serialized entry |
| SkipListBlockPage.RoomIsCapacityLessUsed | lib/storage/page/skip_list_page/skip_list_block_page.go:840-847 | what the byte page computes as room is the capacity less the use of the node its bytes stand for |
| SkipListBlockPage.InsertionRepresents | lib/storage/page/skip_list_page/skip_list_block_page.go:193-204 | the page's insertion is the node's on the entries the bytes stand for, key ranks included |
| SkipListBlockPage.RemovalRepresents | lib/storage/page/skip_list_page/skip_list_block_page.go:402-418 | the page's removal is the node's on the entries the bytes stand for, key ranks included |
| SkipListBlockPage.SkipListBlockPage.FindEntryByKey | lib/storage/page/skip_list_page/skip_list_block_page.go:118-160 | bisection over the key strings read from the page ends where the search among the key ranks ends |
| SkipListBlockPage.InsertionKeepsOrder | lib/storage/page/skip_list_page/skip_list_block_page.go:343-362 | inserting where an unsuccessful search ended keeps the keys of the page in order if and only if the key lies above the first one or the page has one entry |
| SkipListBlockPage.SkipListBlockPage.InsertKey | lib/storage/page/skip_list_page/skip_list_block_page.go:343-362 | on the bytes, with room: an absent key is added and nothing else, the page stays sorted; a key that is there changes nothing |
| SkipListBlockPage.SkipListBlockPage.Overwrite | lib/storage/page/skip_list_page/skip_list_block_page.go:236-266 | the branch for a key already present: bytes appended, slot pointed at them, count as before |
| BlockPageOverwrite.OverwriteLosesRoom | lib/storage/page/skip_list_page/skip_list_block_page.go:787-799 | an overwritten entry costs its length in room though nothing was added; without that room the computed remainder wraps around |
| BlockPageOverwrite.OverwriteReads | lib/storage/page/skip_list_page/skip_list_block_page.go:787-799 | with that room every entry reads back, the overwritten one with its new bytes |
| BlockPageOverwrite.OverwriteHitsSlots | lib/storage/page/skip_list_page/skip_list_block_page.go:787-799 | without it the new bytes stand where slots of the directory were |
| SkipListNode.FindEntryByKey | lib/storage/page/skip_list_page/skip_list_block_page.go:118-160 | bisection finds the match or the greatest smaller entry, with the exact index for a key below all; `SkipListBlockPage.FindEntryByKey` does the same on bytes |
| SkipListNode.SplitIndex | lib/storage/page/skip_list_page/skip_list_block_page.go:206-225 | the first index where half of the capacity is reached, or the panic |
| SkipListNode.SplitLeavesRoom | lib/storage/page/skip_list_page/skip_list_block_page.go:229-341 | with entries of at most 999 bytes neither panic of an insertion with split can happen |
| SkipListNode.LimitIsSharp | lib/storage/page/skip_list_page/skip_list_block_page.go:206-225 | with 1000 bytes the panic can happen |
| SkipList.SkipList.FindNode | lib/container/skip_list/skip_list.go:89-198 | the home of the key and, on every level, the node whose link a split or an unlink has to change |
| SkipList.SkipList.GetValue | lib/container/skip_list/skip_list.go:211-239 | the stored value, or the not-found value |
| SkipList.SkipList.Insert | lib/container/skip_list/skip_list.go:241-273 | a new key: the stored set grows by the entry, the list stays whole on all twenty levels; exactly a node without room is split, and the new node behind it is on as many levels as were drawn |
| SkipList.SkipList.Remove | lib/container/skip_list/skip_list.go:275-313 | the stored set loses the key's entry, an emptied node leaves every chain |
| SkipList.SkipList.SplitNode | lib/storage/page/skip_list_page/skip_list_block_page.go:612-674 | the entries behind the index move to a new node right behind, no entry lost, all chains whole |
| SkipListIterator.SkipListIterator.InitRIDList | lib/container/skip_list/skip_list_iterator.go:42-100 | the snapshot is every entry between the bounds, in order, each once |
| SkipListIndex.SkipListIndex.InsertEntry | lib/storage/index/skip_list_index.go:39-54 | the set of pairs grows by the pair |
| SkipListIndex.SkipListIndex.DeleteEntry | lib/storage/index/skip_list_index.go:56-79 | the set of pairs loses the pair |
| SkipListIndex.SkipListIndex.UpdateEntry | lib/storage/index/skip_list_index.go:100-109 | one pair replaced by another |
| SkipListIndex.SkipListIndex.ScanKey | lib/storage/index/skip_list_index.go:81-98 | exactly the record ids stored under the value, each once |
| SkipListIndex.SkipListIndex.GetRangeScanIterator | lib/storage/index/skip_list_index.go:111-129 | exactly the pairs with their value between the bounds, in value order |
| SkipListIndex.StoredBytes | lib/samehada/samehada_util/samehada_util.go:317-353 | the node entry of a pair is what the bytes of its serialized index entry stand for |
| OptimisticValidation.CornerHolds | lib/storage/page/skip_list_page/skip_list_block_page.go:429-512 | a corner noted without latch and validated by its LSN is still the last node of its level before the key |
| OptimisticValidation.PredecessorHolds | lib/storage/page/skip_list_page/skip_list_block_page.go:525-575 | the corners of a removal, noted at different moments and validated by LSN alone, are the predecessors of the node finally removed |
| OptimisticValidation.StepKeepsGood | lib/storage/page/skip_list_page/skip_list_block_page.go:229-600 | every section of every thread leaves a whole list |
| OptimisticValidation.SectionActsOnSet | lib/storage/page/skip_list_page/skip_list_block_page.go:229-600 | whatever the interleaving, a section is one insertion of a key not stored, or one removal of the thread's key |
| OptimisticValidation.EmptyListIsGood | lib/container/skip_list/skip_list.go:42-51 | runs can start from the empty list |
| OptimisticProgress.LockOutcome | lib/storage/page/skip_list_page/skip_list_block_page.go:429-512 | a latch is kept if and only if the node is still in the list with the LSN noted, and then it is the node noted; otherwise the thread and its latches are gone, and nobody else's |
| OptimisticProgress.LocksSucceed | lib/storage/page/skip_list_page/skip_list_block_page.go:429-512 | a thread whose notes still hold, and that nobody keeps from a latch, is validated by its lock steps alone |
| OptimisticProgress.SectionEnds | lib/storage/page/skip_list_page/skip_list_block_page.go:514-523 | a section ends its thread: it holds no latch any more, and nobody else's thread or latch has moved |
| SoloThread.AnyKeyCanBeInserted | lib/container/skip_list/skip_list.go:241-273 | from every reachable state without latches a thread alone can insert any new key, split or not, on any number of levels |
| SoloThread.AnyKeyCanBeRemoved | lib/container/skip_list/skip_list.go:275-313 | from every such state a thread alone can remove any stored key, by dropping an entry or unlinking its node |
| SoloThread.EmptyListStores | lib/container/skip_list/skip_list.go:42-51 | a run from the empty list that ends with an entry stored, and one on from there that ends without it |
| ClockReplacer.ClockReplacer.Victim | lib/storage/buffer/clock_replacer.go:27-51 | the frame evictable longest: first in, first out |
| ClockReplacer.ClockReplacer.Unpin | lib/storage/buffer/clock_replacer.go:53-61 | a frame not yet evictable becomes the last in the queue |
| ClockReplacer.ClockReplacer.Pin | lib/storage/buffer/clock_replacer.go:63-73 | the frame leaves the queue, the others keep their order |
| ClockReplacer.CircularList.Remove | lib/storage/buffer/circular_list.go:69-96 | the ring loses the node, links and ends stay right |
| BufferPool.BufferPoolManager.FetchPage | lib/storage/buffer/buffer_pool_manager.go:52-145 | the page's last content, pinned exactly once more: in its own frame, in the first free one, or in the one evictable longest, whose page goes to the disk if it was changed; nothing else changes; the panic comes exactly when the page is not cached and every frame is pinned |
| BufferPool.BufferPoolManager.NewPage | lib/storage/buffer/buffer_pool_manager.go:233-299 | a zeroed page with one pin, in the frame a fetch would take, under the id given back longest ago or else a fresh one, which no live page has; nothing else changes; the panic comes exactly when every frame is pinned |
| BufferPool.BufferPoolManager.UnpinPage | lib/storage/buffer/buffer_pool_manager.go:149-195 | one pin less on that page, its mark raised if asked, every other frame as it was; without pins the frame is evictable; no content is lost |
| BufferPool.BufferPoolManager.FlushPage | lib/storage/buffer/buffer_pool_manager.go:213-231 | the page's content is on disk and its mark cleared, every pin, frame and other page as it was; the write-ahead rule survives if and only if the log file covers the page LSN |
| BufferPool.BufferPoolManager.SetIsDeallocated | lib/storage/page/skip_list_page/skip_list_block_page.go:569-570 | the page gets the mark, and nothing else changes |
| BufferPool.BufferPoolManager.DeallocatePage | lib/storage/buffer/buffer_pool_manager.go:302-318 | the deallocation is in the log file before the id can be reused |
| BufferPool.GivenUpIsReused | lib/storage/buffer/buffer_pool_manager.go:75-100 | a page given up and unpinned: its eviction makes its id dead and reusable |
| HashBlockPage.HashTableBlockPage.Insert | lib/storage/page/hash_table_block_page.go:45-54 | through the two bitmaps, exactly one cell changes, unless it is in use |
| HashBlockPage.HashTableBlockPage.Remove | lib/storage/page/hash_table_block_page.go:56-63 | through the readable bitmap, exactly one cell becomes a tombstone |
| HashTable.HashTableIterator.Next | lib/container/hash/linear_probe_hash_table_iterator.go:32-50 | the next cell in cyclic order over all blocks |
| HashCells.AtIsCyclic | lib/container/hash/linear_probe_hash_table_iterator.go:32-50 | the order of probing is addition modulo the number of cells |
| HashTable.LinearProbeHashTable.GetValue | lib/container/hash/linear_probe_hash_table.go:65-97 | the multiset of live values stored under the hash, whatever insertions and removals made of the cells, in the order met from block `hash % numBlocks`, cell `hash % 252`, to the first cell never used |
| HashTable.LinearProbeHashTable.Insert | lib/container/hash/linear_probe_hash_table.go:99-144 | a duplicate is reported exactly when a live equal value is met, from block `hash % numBlocks`, cell `hash % 252`, before a cell that is not live; otherwise exactly that cell gets the pair, unless every cell is live, when nothing happens |
| HashTable.LinearProbeHashTable.Remove | lib/container/hash/linear_probe_hash_table.go:146-175 | exactly the live copies of the pair become tombstones |
| TableSets.KeyRoundTrip | lib/samehada/samehada_util/samehada_util.go:424-438 | a set of table names is read back from its map key |
| TableSets.KeyIsCanonical | lib/samehada/samehada_util/samehada_util.go:424-430 | however the set was listed, its key is the same |
| TableSets.StrSetToString | lib/samehada/samehada_util/samehada_util.go:424-430 | sorting and joining yields that key |
| Selinger.FindBestJoin | lib/planner/optimizer/selinger_optimizer.go:401-439 | whatever the map iteration orders, every entry is a cheapest join of two stored halves and the full set of tables has one |
| RequestManager.EveryRunKeepsInv | lib/samehada/request_manager.go:29-112 | in every interleaving each accepted request is in exactly one place and the count of running ones is exact |
| RequestManager.RequestManager.ReceiveOne | lib/samehada/request_manager.go:75-101 | a request aborted by the concurrency control is back at the head of the queue, any other message leaves the queue as it was; an answer goes to its request and no other |
| RequestManager.RequestManager.DispatchOne | lib/samehada/request_manager.go:68-111 | exactly the head of the queue is started, if it is not empty and fewer than the maximum are running |
| RequestOrder.QueueChanges | lib/samehada/request_manager.go:29-112 | what each step of anybody does to the queue, and which request it starts |
| RequestOrder.StartedInOrder | lib/samehada/request_manager.go:68-112 | in every run, of two waiting requests the one nearer to the head is started first |
| RequestOrder.AbortedGoesFirst | lib/samehada/request_manager.go:75-111 | an aborted request is started before every request that was waiting when its result was received |
| RequestOrder.NewGoesLast | lib/samehada/request_manager.go:29-56 | a new request is started after every request that was waiting when it came |
| RequestManager.StepsFinish | lib/samehada/request_manager.go:68-112 | every step but a new request or an abort brings the end closer |
| RequestManager.NoneIsStranded | lib/samehada/request_manager.go:68-112 | when only a new request can happen, every accepted one has been answered |

## Findings

Properties the code does not have, each with its input and its exact condition or the condition
under which it is proved:

- Recovery can lose a commit. Redo drops a transaction from the loser map at COMMIT but not at
  ABORT, so the already undone work of an aborted transaction is undone once more, backwards through
  its compensating records. `RecoveryYieldsCommitted` holds under three conditions that can be read
  off the log, and each has a run that shows what goes wrong without it:
  - somebody has written since where an aborted transaction wrote: the later commit is taken back
    (`LostUpdate.FollowedUpdateIsLost`);
  - a loser has applied a delete, because it aborted an insertion (`AbortRecordLosesCommit`) or crashed
    before its COMMIT (`DeletedTuplesAreSwapped`): undo re-inserts into the first empty slot, which is
    the right one exactly as `UndoOfApplyDelete` says;
  - an update that had lengthened its tuple was rolled back: redo refuses the compensating record,
    exactly as `RedoOfUpdate` says, and what comes after it on that tuple (`LongerUpdateIsLost`).
- A page that never reached the disk before the crash is initialised for redo without a free space
  pointer; its computed room then is 4294967272 bytes (`RedoneInitIsNoPage`). A page that had slots
  keeps them (`TablePage.Init`).
- Inserting a key that is already in a skip list node appends a second copy of the entry and asks for
  no room: each such insertion costs the entry's length, and once less than that remains, the bytes
  run over the directory and the computed room wraps around (`OverwriteLosesRoom`, `OverwriteReads`,
  `OverwriteHitsSlots`).
- A key below all of several entries of a node would be inserted behind the first of them
  (`InsertionKeepsOrder`); the list never asks for that, because the search ends at the key's home.
- A log file longer than one read is scanned correctly only when no read ends inside a record
  (`ScanLog`, `CutIsNotAligned`, `LongLogBreaksScan`): a cut record stops the recovery instead of starting the
  next read.
- `FlushPage` writes a page without flushing the log first; it keeps the write-ahead rule exactly when the page LSN is
  already durable (`FlushPageRule`, `FlushedTooEarly`).
- The persistent LSN after a flush before the first record is 0, although record 0 is not in the file
  (`PersistentLsnIsDurable`).
- The clock replacer is first in, first out: clearing the reference bit does not move the hand, so
  the first node is always taken (`ClockReplacer.Victim`).
- The hash table's `Insert` into a table of live cells does nothing and reports no error, and its
  duplicate check compares values without their keys (`LinearProbeHashTable.Insert`).
- A skip list entry of 1000 bytes with its slot can make the split panic; 999 cannot (`LimitIsSharp`,
  `SplitLeavesRoom`).

## Left out

- RecoveryOutcome.RecoveryYieldsCommitted: one direction only. The converse fails (`AbortMayRecover`): whether undoing an applied delete does harm depends on which slots of its page are empty and how much room is left at the moment its turn comes, which the order of the losers decides. What undo makes of one such record is stated exactly by `UndoOfApplyDelete`.
- WriteAhead.CrashRecovers: under the same conditions as `RecoveryYieldsCommitted`; so is `CommittedSurvives`.
- SoloThread.AnyKeyCanBeInserted: a thread alone. With others at work a search may have to start again any number of times; nothing bounds that in the code either.
- SkipList.SkipList.Insert: for a key not in the list, which is all the index asks for, and for entries of at most 999 bytes. The branch for a present key is modelled on the page's bytes (`Overwrite`); in the list it would break the account of room that every node keeps, as the findings say. For larger entries the split may panic (`LimitIsSharp`).
- SkipListIndex.SkipListIndex.InsertEntry: for a pair not stored yet and keys that fit the same bound; so is `UpdateEntry`.
- SkipListNode.FindEntryByKey: on the entries as the list model keeps them, with the rank of the key for its bytes; `EntryBytes.EntryOf` is the relation.
- Selinger.FindBestJoin: the cost of a plan and the choice of the join algorithm are parameters.
- In the runs, `NEW_TABLE_PAGE` and page allocation records and the allocation of table heap pages: pages exist from the start; which page an insertion tries next is left open.
- Lock checks that recovery bypasses are not modelled in `TablePage`; the record-level `Recovery` has them bypassed.
- Page LSN bytes and the log call inside each table page operation: the machine in `Transactions` logs per operation and `WriteAhead` keeps the page LSN beside the page.
- Updates of single columns of a tuple and index maintenance at rollback.
- The ABORT record and the release of the locks are one event; so is an append to the log, though its latch is released around a flush.
- Sections of the skip list that hold several latches at once are single steps; a thread reads a node as a whole.
- The replacer inside `BufferPool` is the queue that `ClockReplacer` is proved to be.
- The disk manager, its files and its failures; reading a page that was deallocated, which leaks a frame.
- Floating point and NULL keys, the hash function, the random level, join methods and predicates.
- SQL parsing, the catalog, executors and statistics.
