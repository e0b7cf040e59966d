# A verified model of LevelDB and nanopb

The repository vendors two libraries that keep its data: LevelDB, an ordered key-value store, and nanopb, a small
protocol-buffers encoder and decoder. This project models both and proves what they are for.

**The store as a whole.** A LevelDB store is a memtable, perhaps an immutable memtable on its way to disk, and seven
levels of table files. `lsm.dfy` is its state machine: entries inserted and made visible, writes that fail, memtable
switches, flushes that may skip levels, compactions that drop entries while flushes go on beside them, trivial moves,
snapshots taken and released. Over every run a read at a live snapshot gives what a plain map of the operations up to
that snapshot holds. `compaction.dfy` says exactly when dropping entries preserves reads. `db_impl.dfy` is the class
that does the work, on vectors of files; each of its methods is one of the steps. It stands on `version.dfy` (searching
levels), `input_selection.dfy` (choosing a compaction's inputs), `compaction_work.dfy` (the merging loop with its
advancing pointers) and `version_builder.dfy` (new versions from edits, one by one or at recovery). `file_refs.dfy`
counts who holds which file and deletes the rest. `resurrection.dfy` is a run on which the code gives a deleted key
back (see Findings).

**Readers.** `cursor.dfy` is a position in a sorted sequence. `merger.dfy` and `two_level.dfy` are shown to be cursors
on a merge and on a concatenation, `block.dfy` and the iterator of `skiplist.dfy` on what was added, and `db_iter.dfy`
a cursor on the live keys, each through every legal mix of moves and changes of direction.

**In memory.** `skiplist.dfy` (nodes with links, searched while being inserted into), `memtable.dfy`,
`handle_table.dfy` (chained hashing with resizing) and `lru_cache.dfy` (two rings, reference counts, eviction) are heap
structures tied to sequences, sets and maps.

**On disk.** `coding.dfy`, `crc32c.dfy`, `log.dfy` (the fragmenting writer and the reader, under truncation anywhere),
`write_batch.dfy` (batches, and recovery from a log), `group_commit.dfy` (the writers' queue), `version_edit.dfy`,
`comparator.dfy`, `filter.dfy`, `format.dfy` and `table.dfy` (building and searching a whole table file).

**Messages.** `pb_common.dfy` describes messages, `pb_encode.dfy` and `pb_decode.dfy` are the coders against recursive
meanings of the bytes, and `pb_roundtrip.dfy` proves that they undo one another.

Small shared definitions are in `wrappers.dfy`, `dbformat.dfy` (keys, entries, what a read finds), `files.dfy` and
`pb_words.dfy`.

A class's `Valid()` or `Inv()` is its invariant; where a row says what a method does, the method also keeps it.

## Model

| member | source | states |
|---|---|---|
| CompactionRule.CompactionExact | Auctioneer/Pods/leveldb-library/db/db_impl.cc:890-963 | Dropping what a later entry hides at the oldest snapshot, and obsolete deletion markers, leaves every read at or after that snapshot as it was **if and only if** no dropped marker was the newest visible entry of a key whose newest older entry outside the inputs is a value. |
| CompactionRule.CompactionKeepsHistory | Auctioneer/Pods/leveldb-library/db/db_impl.cc:890-963 | The same for all keys at once, against a history the tree agreed with before. |
| LsmTree.InstallExact | Auctioneer/Pods/leveldb-library/db/db_impl.cc:860-876 | Replacing a compaction's inputs by outputs holding the surviving entries keeps the whole invariant (disjoint sorted levels, recency across memtables and levels, numbers, every live read) if and only if nothing is resurrected in the sense of `CompactionExact`. |
| LsmTree.NoBoundaryKeepsReads | Auctioneer/Pods/leveldb-library/db/version_set.cc:1403-1447 | If no file left at the output level starts with the user key with which an input of that level ends, nothing is resurrected. |
| LsmTree.FlushInv | Auctioneer/Pods/leveldb-library/db/db_impl.cc:535-566 | A memtable written to any level that it overlaps nothing down to, also in the middle of a compaction, keeps the invariant: it meets no file the compaction will install, and stays newer than all it is above of. |
| LsmTree.FlushKeepsBoundary | Auctioneer/Pods/leveldb-library/db/db_impl.cc:907-918 | A memtable flushed in the middle of a compaction neither leaves nor removes a boundary file. |
| LsmTree.TrivialMoveInv | Auctioneer/Pods/leveldb-library/db/db_impl.cc:718-728 | Moving a single file one level down keeps the invariant. |
| LsmTree.StepExact | Auctioneer/Pods/leveldb-library/db/db_impl.cc:688-767 | Every step (an entry inserted, a number wasted by a failed write, a batch made visible, memtable switch, flush, a compaction begun, an output number taken at any moment, installation, trivial move, snapshot taken or released) keeps the invariant, an installation that resurrects a value being the only exception, and always one. |
| LsmTree.RunSound | Auctioneer/Pods/leveldb-library/db/db_impl.cc:688-767 | On every run from the empty store on which no compaction is begun with a boundary file left behind, each state satisfies the invariant and no installation resurrects anything. |
| LsmTree.HistoryIsMap | Auctioneer/Pods/leveldb-library/db/db_impl.cc:1100-1145 | The newest entry at or below n in the history of operations is what a plain map holds after the first n operations. |
| LsmTree.RunsReadTheMap | Auctioneer/Pods/leveldb-library/db/db_impl.cc:1100-1145 | In every state of such a run, reading the newest visible entry of memtables and levels at a live snapshot or the last sequence gives what the plain map of the operations up to it gives. (`DbImpl.Db.Get` is the search in order that finds this entry.) |
| LsmTree.ReadersKeepTheirMoment | Auctioneer/Pods/leveldb-library/db/db_impl.cc:1100-1145 | A reader that took memtables and version in one state still reads the map of its own sequence number in any later state, whatever entered its memtable meanwhile. |
| LsmTree.BadInstallRevives | Auctioneer/Pods/leveldb-library/db/db_impl.cc:951-963 | A resurrecting installation makes readable, at the oldest sequence kept, a key that the map does not have there. |
| Resurrection.DeletedKeyReturns | Auctioneer/Pods/leveldb-library/db/version_set.cc:1410-1411 | A run of twenty states from the empty store, sound up to its last step, ends by installing a compaction after which a deleted key is found again. |
| Resurrection.ChosenInputs | Auctioneer/Pods/leveldb-library/db/version_set.cc:1270-1322 | The two compactions of that run have the inputs `PickCompaction` chooses, for every file size allowed. |
| Resurrection.ChosenLevels | Auctioneer/Pods/leveldb-library/db/version_set.cc:491-516 | Its three memtables go to the levels `PickLevelForMemTableOutput` chooses, for every file size allowed. |
| DbImpl.Db.constructor | Auctioneer/Pods/leveldb-library/db/db_impl.cc:182-212 | A new store is the initial state. |
| DbImpl.Db.Get | Auctioneer/Pods/leveldb-library/db/db_impl.cc:1100-1145 | Memtable, immutable memtable, then version: the value returned is the one the plain map of all operations up to the snapshot (or the last sequence) holds, and none if it holds none. |
| DbImpl.Db.Write | Auctioneer/Pods/leveldb-library/db/db_impl.cc:1185-1256 | The group's operations are numbered from last_sequence + 1, all enter the memtable and become visible together; nothing else changes. |
| DbImpl.Db.FailedWrite | Auctioneer/Pods/leveldb-library/db/db_impl.cc:1205-1236 | A group that is numbered but not logged enters nothing, and its numbers are used up all the same. |
| DbImpl.Db.SwitchMemTables | Auctioneer/Pods/leveldb-library/db/db_impl.cc:1344-1364 | A full memtable becomes the immutable one and an empty one takes its place. |
| DbImpl.Db.GetSnapshot | Auctioneer/Pods/leveldb-library/db/db_impl.cc:1166-1169 | The last sequence joins the snapshots. |
| DbImpl.Db.ReleaseSnapshot | Auctioneer/Pods/leveldb-library/db/db_impl.cc:1171-1174 | One snapshot leaves, the others stay in order. |
| DbImpl.Db.WriteLevel0Table | Auctioneer/Pods/leveldb-library/db/db_impl.cc:491-533 | The new table file holds the memtable's entries, goes to a level it overlaps nothing down to, and the new version is the old one with it. |
| DbImpl.Db.CompactMemTable | Auctioneer/Pods/leveldb-library/db/db_impl.cc:535-566 | The immutable memtable becomes one such file, or nothing if it was empty, and the invariant stands. |
| DbImpl.Db.MakeJob | Auctioneer/Pods/leveldb-library/db/db_impl.cc:688-728 | The inputs are closed (gapless, nothing overlapping left out at either level, no file left above them that they share their last user key with at the upper level), and the sequence to keep is the oldest snapshot, or the last sequence. |
| DbImpl.Db.BackgroundCompaction | Auctioneer/Pods/leveldb-library/db/db_impl.cc:688-767 | From any chosen file, either a trivial move or the beginning of a compaction, with the invariant kept. |
| DbImpl.Db.OpenCompactionOutputFile | Auctioneer/Pods/leveldb-library/db/db_impl.cc:786-809 | The next file number goes to the compaction's outputs, in the midst of its work. |
| DbImpl.Db.DoCompaction | Auctioneer/Pods/leveldb-library/db/db_impl.cc:878-1036 | Merging, dropping and cutting the inputs and installing the result is an installation step for whatever output sizes; the store is valid afterwards if and only if nothing is resurrected, hence whenever no boundary file was left. |
| Version.FindFile | Auctioneer/Pods/leveldb-library/db/version_set.cc:88-106 | The least index whose file's largest key is not below the key. |
| Version.SomeFileOverlapsRange | Auctioneer/Pods/leveldb-library/db/version_set.cc:122-157 | True exactly if some file overlaps the range, disjoint or not. |
| Version.SearchLevel0 | Auctioneer/Pods/leveldb-library/db/version_set.cc:326-421 | Among overlapping files of any order, going from the newest number down and stopping at the first hit gives the newest visible entry of the level. |
| Version.SearchSorted | Auctioneer/Pods/leveldb-library/db/version_set.cc:326-421 | In a sorted level the one file found by binary search answers for the whole level. |
| Version.Get | Auctioneer/Pods/leveldb-library/db/version_set.cc:326-421 | Level by level with early stop: the value found is the newest visible one of all levels, and none is found exactly if that is a deletion or absent. |
| InputSelection.GetOverlappingInputs | Auctioneer/Pods/leveldb-library/db/version_set.cc:519-559 | Below level 0 exactly the files overlapping the request, in order; at level 0 exactly those overlapping every range around it that no overlapping file sticks out of, the least such range being the one the search ends with; every key this range gained lies inside some file. |
| InputSelection.AddBoundaryInputs | Auctioneer/Pods/leveldb-library/db/version_set.cc:1378-1401 | Files are only added, from the level, and afterwards no file of the level starts just above the inputs with the user key of their largest key. |
| InputSelection.ExpandedGapless | Auctioneer/Pods/leveldb-library/db/version_set.cc:1417-1447 | An accepted expansion of the upper inputs leaves no user key between the smallest and the largest of all inputs that no input spans. |
| InputSelection.SetupOtherInputs | Auctioneer/Pods/leveldb-library/db/version_set.cc:1403-1462 | The first choice stays among the inputs; both sets are complete for their ranges and together gapless; the lower inputs are exactly the files the upper ones overlap; and an expansion leaves the lower set the same as before it. |
| InputSelection.PickCompaction | Auctioneer/Pods/leveldb-library/db/version_set.cc:1270-1322 | The same, from any file chosen at any level, with that file among the inputs. |
| InputSelection.PickLevelForMemTableOutput | Auctioneer/Pods/leveldb-library/db/version_set.cc:491-516 | At most level 2; no file of the levels passed or the one reached overlaps the memtable; and it stopped short only at an overlap or at too many overlapping bytes two levels on. |
| CompactionWork.Compaction.IsBaseLevelForKey | Auctioneer/Pods/leveldb-library/db/version_set.cc:1533-1552 | For user keys asked in ascending order the advancing pointers give the answer of a full scan of the levels from level + 2 on. |
| CompactionWork.ShouldDrop | Auctioneer/Pods/leveldb-library/db/db_impl.cc:938-963 | True exactly for an entry hidden by the one before it, or for an obsolete marker at its base level. |
| CompactionWork.DoCompactionWork | Auctioneer/Pods/leveldb-library/db/db_impl.cc:907-999 | Whatever the cuts between outputs, these hold, in order, exactly what the drop rules keep of the merged input, and no output is empty. |
| CompactionWork.KeptElements | Auctioneer/Pods/leveldb-library/db/db_impl.cc:938-963 | What the loop keeps, with its memory of one user key and one sequence, is sorted and is exactly the entries that are not dropped by the rules read as statements about the whole input. |
| CompactionWork.MergeFilesSorted | Auctioneer/Pods/leveldb-library/db/version_set.cc:1237-1268 | The merge of the input files' runs is sorted. |
| CompactionWork.BuiltOutputs | Auctioneer/Pods/leveldb-library/db/db_impl.cc:811-858 | Files cut from a sorted sequence are valid, in order and disjoint, and hold just its entries. |
| VersionBuilder.Builder.Apply | Auctioneer/Pods/leveldb-library/db/version_set.cc:650-692 | After an edit each level's pending deletions and additions are those before with the edit's, an added number no longer being deleted. |
| VersionBuilder.Builder.SaveLevel | Auctioneer/Pods/leveldb-library/db/version_set.cc:695-754 | Merging the added files into the base files gives, in order and without overlap, the base files not deleted and the added ones. |
| VersionBuilder.LogAndApply | Auctioneer/Pods/leveldb-library/db/version_set.cc:801-884 | The version one edit makes of the current one. |
| VersionBuilder.ReplayIsInstall | Auctioneer/Pods/leveldb-library/db/version_set.cc:650-754 | Accumulating all edits of a level and applying them once gives the files that applying them one by one gives, if no file is added twice. |
| VersionBuilder.SameOrdered | Auctioneer/Pods/leveldb-library/db/version_set.cc:695-739 | Two sorted vectors of the same files are equal. |
| VersionBuilder.InstallEach | Auctioneer/Pods/leveldb-library/db/version_set.cc:801-884 | `LogAndApply` once per edit passes through versions each made from the one before. |
| VersionBuilder.Recover | Auctioneer/Pods/leveldb-library/db/version_set.cc:886-1011 | One builder over all the manifest's edits saves the very vectors, level by level, at which installing the edits one by one arrives. |
| DbIterator.DbIter.FindNextUserEntry | Auctioneer/Pods/leveldb-library/db/db_iter.cc:168-198 | From any place with a key to skip, it stops at the first live entry at or after it. |
| DbIterator.DbIter.FindPrevUserEntry | Auctioneer/Pods/leveldb-library/db/db_iter.cc:227-267 | It stops at the last live entry before its start, with key and value saved. |
| DbIterator.DbIter.Next | Auctioneer/Pods/leveldb-library/db/db_iter.cc:141-166 | The current entry becomes the first live one after it, also right after moving backwards. |
| DbIterator.DbIter.Prev | Auctioneer/Pods/leveldb-library/db/db_iter.cc:200-225 | The current entry becomes the last live one before it, also right after moving forwards. |
| DbIterator.DbIter.Seek | Auctioneer/Pods/leveldb-library/db/db_iter.cc:269-281 | The first live entry whose user key is at or after the target. |
| DbIterator.DbIter.SeekToFirst | Auctioneer/Pods/leveldb-library/db/db_iter.cc:283-292 | The first live entry. |
| DbIterator.DbIter.SeekToLast | Auctioneer/Pods/leveldb-library/db/db_iter.cc:294-299 | The last live entry. |
| DbIterator.LiveIsFound | Auctioneer/Pods/leveldb-library/db/db_iter.cc:168-198 | A user key and value are shown at the iterator's sequence exactly if a read at that sequence finds that value. |
| DbIterator.LiveAscending | Auctioneer/Pods/leveldb-library/db/db_iter.cc:141-166 | Live entries have strictly ascending user keys: each is shown once. |
| Merger.MergingIterator.FindSmallest | Auctioneer/Pods/leveldb-library/table/merger.cc:148-161 | With every child at its first entry from a place on, the merged position is that place. |
| Merger.MergingIterator.FindLargest | Auctioneer/Pods/leveldb-library/table/merger.cc:163-176 | With every child at its last entry up to a place, the merged position is that place. |
| Merger.MergingIterator.Seek | Auctioneer/Pods/leveldb-library/table/merger.cc:47-53 | The merged position is the first key at or after the target. |
| Merger.MergingIterator.SeekToFirst | Auctioneer/Pods/leveldb-library/table/merger.cc:31-37 | The first merged entry. |
| Merger.MergingIterator.SeekToLast | Auctioneer/Pods/leveldb-library/table/merger.cc:39-45 | The last merged entry. |
| Merger.MergingIterator.Next | Auctioneer/Pods/leveldb-library/table/merger.cc:55-79 | One forward in the sorted merge, also right after moving backwards. |
| Merger.MergingIterator.Prev | Auctioneer/Pods/leveldb-library/table/merger.cc:81-108 | One backward in the sorted merge, also right after moving forwards. |
| Merger.MergeOfFiles | Auctioneer/Pods/leveldb-library/db/version_set.cc:1237-1268 | Cursors over a compaction's input files merge to the run that the compaction loop is fed. |
| TwoLevel.TwoLevelIterator.Seek | Auctioneer/Pods/leveldb-library/table/two_level_iterator.cc:82-87 | The place in the concatenation of all blocks of the first key at or after the target. |
| TwoLevel.TwoLevelIterator.SeekToFirst | Auctioneer/Pods/leveldb-library/table/two_level_iterator.cc:89-94 | The first entry of the concatenation, past empty blocks. |
| TwoLevel.TwoLevelIterator.SeekToLast | Auctioneer/Pods/leveldb-library/table/two_level_iterator.cc:96-101 | The last entry of the concatenation. |
| TwoLevel.TwoLevelIterator.Next | Auctioneer/Pods/leveldb-library/table/two_level_iterator.cc:103-107 | One forward in the concatenation. |
| TwoLevel.TwoLevelIterator.Prev | Auctioneer/Pods/leveldb-library/table/two_level_iterator.cc:109-113 | One backward in the concatenation. |
| TwoLevel.TwoLevelIterator.SkipEmptyDataBlocksForward | Auctioneer/Pods/leveldb-library/table/two_level_iterator.cc:115-126 | Skipping terminates at the first entry ahead, or past the end. |
| TwoLevel.TwoLevelIterator.SkipEmptyDataBlocksBackward | Auctioneer/Pods/leveldb-library/table/two_level_iterator.cc:128-139 | Skipping terminates at the last entry behind, or nowhere. |
| TwoLevel.SeekPlace | Auctioneer/Pods/leveldb-library/table/two_level_iterator.cc:82-87 | Seeking the index and then the one block it names is seeking the concatenation. |
| TwoLevel.AllSorted | Auctioneer/Pods/leveldb-library/table/two_level_iterator.cc:82-161 | Blocks separated by their index keys concatenate to one sorted run. |
| SkipLists.SkipList.FindGreaterOrEqual | Auctioneer/Pods/leveldb-library/db/skiplist.h:262-281 | The node at the key's rank on the bottom level, and on each level the last node before the key. |
| SkipLists.SkipList.FindLessThan | Auctioneer/Pods/leveldb-library/db/skiplist.h:285-302 | The last node before the key, or the head. |
| SkipLists.SkipList.FindLast | Auctioneer/Pods/leveldb-library/db/skiplist.h:305-322 | The last node of the bottom level, or the head. |
| SkipLists.SkipList.Contains | Auctioneer/Pods/leveldb-library/db/skiplist.h:371-378 | True exactly if an entry with the key is there. |
| SkipLists.SkipList.SetForward | Auctioneer/Pods/leveldb-library/db/skiplist.h:356-367 | The new node's own link changes no level. |
| SkipLists.SkipList.Publish | Auctioneer/Pods/leveldb-library/db/skiplist.h:356-367 | The second store of a splice puts the node into its level, and into the contents if the level is the bottom one; each level stays a sorted part of the one below. |
| SkipLists.SkipList.Insert | Auctioneer/Pods/leveldb-library/db/skiplist.h:337-368 | The contents are the old ones with the entry at its place; no level loses or reorders a node. |
| SkipLists.Insertion.Step | Auctioneer/Pods/leveldb-library/db/skiplist.h:337-368 | Each single store of an insertion keeps the list well formed; the contents change at one store only. |
| SkipLists.Insertion.OneOrOther | Auctioneer/Pods/leveldb-library/db/skiplist.h:337-368 | At every moment the list holds the entries it held, or those and the new one. |
| SkipLists.Insertion.Find | Auctioneer/Pods/leveldb-library/db/skiplist.h:262-281 | A reader's search with any of the writer's stores between its own reads ends where the key belongs in the list of its last read. |
| SkipLists.SkipListIterator.Seek | Auctioneer/Pods/leveldb-library/db/skiplist.h:224-226 | The first entry at or after the target. |
| SkipLists.SkipListIterator.Next | Auctioneer/Pods/leveldb-library/db/skiplist.h:207-210 | One forward in the contents. |
| SkipLists.SkipListIterator.Prev | Auctioneer/Pods/leveldb-library/db/skiplist.h:213-221 | One backward, by a search, there being no backward links. |
| SkipLists.SkipListIterator.SeekToLast | Auctioneer/Pods/leveldb-library/db/skiplist.h:234-239 | The last entry. |
| MemTables.MemTable.Add | Auctioneer/Pods/leveldb-library/db/memtable.cc:75-98 | The skip list comes to hold what the store's steps add to their memtable. |
| MemTables.MemTable.Get | Auctioneer/Pods/leveldb-library/db/memtable.cc:100-134 | Looking only at the entry the seek lands on answers for the newest visible entry of the key. |
| MemTables.AddIsInsert | Auctioneer/Pods/leveldb-library/db/memtable.cc:75-98 | Adding in front of all entries of the same key is inserting in key order. |
| HandleTables.HandleTable.FindPointer | Auctioneer/Pods/leveldb-library/util/cache.cc:114-120 | The slot that points to the handle with the key, or the empty slot at the end of its chain if there is none. |
| HandleTables.HandleTable.Lookup | Auctioneer/Pods/leveldb-library/util/cache.cc:74-76 | A matching handle, or none exactly if there is none. |
| HandleTables.HandleTable.Insert | Auctioneer/Pods/leveldb-library/util/cache.cc:78-92 | The handle joins, in place of the one with its key if any, which is returned; growing the array loses nothing. |
| HandleTables.HandleTable.Remove | Auctioneer/Pods/leveldb-library/util/cache.cc:94-102 | The handle with the key leaves and is returned; the others stay. |
| HandleTables.HandleTable.Resize | Auctioneer/Pods/leveldb-library/util/cache.cc:122-146 | Every handle is in the bucket of its hash in an array at least as long as there are handles, the set unchanged. |
| LruCaches.LRUCache.Ref | Auctioneer/Pods/leveldb-library/util/cache.cc:217-223 | A reference more; an unused entry moves to the end of those in use. |
| LruCaches.LRUCache.Unref | Auctioneer/Pods/leveldb-library/util/cache.cc:225-237 | A reference less; the deleter runs exactly when it was the last; an entry only the cache still holds becomes the newest unused one. |
| LruCaches.LRUCache.Lookup | Auctioneer/Pods/leveldb-library/util/cache.cc:252-259 | A matching entry with one more client reference, or none exactly if none matches. |
| LruCaches.LRUCache.Release | Auctioneer/Pods/leveldb-library/util/cache.cc:261-264 | The client's reference goes; every entry is still on one list according to its references and usage is the sum of cached charges. |
| LruCaches.LRUCache.Insert | Auctioneer/Pods/leveldb-library/util/cache.cc:266-303 | The new entry is the client's and, unless capacity is 0, cached in place of the one with its key; then the oldest unused entries go, no more than needed, until usage is within capacity or none is left, and just the entries that lost their last reference are deleted. |
| LruCaches.LRUCache.EvictExcess | Auctioneer/Pods/leveldb-library/util/cache.cc:293-300 | Eviction takes a front of the unused list, oldest first, and stops as soon as usage is within capacity. |
| LruCaches.LRUCache.FinishErase | Auctioneer/Pods/leveldb-library/util/cache.cc:307-316 | The entry leaves its list and the usage, and is deleted exactly if no client holds it. |
| LruCaches.LRUCache.Erase | Auctioneer/Pods/leveldb-library/util/cache.cc:318-321 | The matching entry, and no other, leaves the table. |
| LruCaches.LRUCache.Prune | Auctioneer/Pods/leveldb-library/util/cache.cc:323-333 | All unused entries are deleted, oldest first, and those in use stay. |
| Crc32c.Extend | Auctioneer/Pods/leveldb-library/util/crc32c.cc:276-377 | Four interleaved strides folded with skip tables, for any length and alignment, equal the byte-by-byte fold, if the tables satisfy their defining recurrences. |
| Crc32c.ExtendComposes | Auctioneer/Pods/leveldb-library/db/log_writer.cc:92-96 | Extending by one piece and then another is extending by both. |
| Crc32c.StepIsBits | Auctioneer/Pods/leveldb-library/util/crc32c.cc:276-377 | A table step is eight shifts of the bit-serial register. |
| Crc32c.MaskRoundTrip | Auctioneer/Pods/leveldb-library/util/crc32c.h:29-38 | Unmask undoes Mask and Mask undoes Unmask. |
| Coding.EncodeVarint64 | Auctioneer/Pods/leveldb-library/util/coding.cc:47-57 | The loop writes the base-128 form. |
| Coding.EncodeVarint32 | Auctioneer/Pods/leveldb-library/util/coding.cc:20-45 | The five unrolled branches write the same base-128 form. |
| Coding.GetVarintPtr | Auctioneer/Pods/leveldb-library/util/coding.cc:112-128 | The loop reads the number the base-128 form denotes, cut to its width, or fails if it does not end within its limit. |
| Coding.VarintRoundTrip | Auctioneer/Pods/leveldb-library/util/coding.cc:112-157 | Reading a varint back from the front of any bytes gives the number and the rest. |
| Coding.FixedRoundTrip | Auctioneer/Pods/leveldb-library/util/coding.cc:9-18 | A fixed little-endian number reads back. |
| Coding.LengthPrefixedRoundTrip | Auctioneer/Pods/leveldb-library/util/coding.cc:171-179 | A length-prefixed string reads back, with the rest. |
| Log.Writer.AddRecord | Auctioneer/Pods/leveldb-library/db/log_writer.cc:34-80 | The file gains the record cut into fragments with checksums, and trailers filled with zeros, as the block format demands. |
| Log.ChecksumExtends | Auctioneer/Pods/leveldb-library/db/log_writer.cc:92-96 | The checksum the writer extends from a stored one is that of type and payload together. |
| Log.Reader.ReadPhysicalRecord | Auctioneer/Pods/leveldb-library/db/log_reader.cc:189-271 | On any bytes the reader advances or stops; on any front of a written log it finds the next fragment exactly if that ends in the file, and reports nothing. |
| Log.Reader.ReadRecord | Auctioneer/Pods/leveldb-library/db/log_reader.cc:56-174 | On any front of a written log the next record is returned, whole, exactly if its last byte is in the file, and no corruption is reported. |
| WriteBatches.WriteBatch.Put | Auctioneer/Pods/leveldb-library/db/write_batch.cc:98-103 | The batch gains a put. |
| WriteBatches.WriteBatch.Delete | Auctioneer/Pods/leveldb-library/db/write_batch.cc:105-109 | The batch gains a deletion. |
| WriteBatches.WriteBatch.Append | Auctioneer/Pods/leveldb-library/db/write_batch.cc:144-148 | The other batch's operations follow. |
| WriteBatches.BodyRoundTrip | Auctioneer/Pods/leveldb-library/db/write_batch.cc:42-80 | Decoding a batch's body gives its operations. |
| WriteBatches.Iterate | Auctioneer/Pods/leveldb-library/db/write_batch.cc:42-80 | On any bytes, the operations before the first bad one are handled, and it succeeds exactly if all are good and as many as the header says. |
| WriteBatches.Recover | Auctioneer/Pods/leveldb-library/db/db_impl.cc:371-489 | From any front of a log of groups, each group is replayed whole, with the sequence numbers it was written with, or not at all; those replayed are the ones whose last byte is there, nothing is reported, and the greatest number is that of the last of them. |
| VersionEdits.FieldRoundTrip | Auctioneer/Pods/leveldb-library/db/version_edit.cc:107-205 | Reading a field gives back the field written and stops where it ends. |
| VersionEdits.ParseRoundTrip | Auctioneer/Pods/leveldb-library/db/version_edit.cc:107-205 | So does reading a sequence of fields to the end. |
| VersionEdits.EditRoundTrip | Auctioneer/Pods/leveldb-library/db/version_edit.cc:26-85 | Decoding what was encoded gives the edit back if and only if the edit decoded into had no compaction pointers; otherwise those stay in front. |
| VersionEdits.VersionEdit.EncodeTo | Auctioneer/Pods/leveldb-library/db/version_edit.cc:41-85 | The fields of the edit are appended in their order. |
| VersionEdits.VersionEdit.DecodeFrom | Auctioneer/Pods/leveldb-library/db/version_edit.cc:107-205 | It succeeds exactly on well-formed fields, and then holds what they say over what Clear leaves. |
| VersionEdits.VersionEdit.Clear | Auctioneer/Pods/leveldb-library/db/version_edit.cc:26-39 | Everything but the compaction pointers is reset. |
| GroupCommit.BuildBatchGroup | Auctioneer/Pods/leveldb-library/db/db_impl.cc:1260-1306 | The batch returned holds, in order, the operations of a front of the queue that the size limit and the sync rule allow; it is the leader's own exactly when it is alone. |
| GroupCommit.StepInv | Auctioneer/Pods/leveldb-library/db/db_impl.cc:1185-1256 | Every step of the queue protocol keeps its invariant. |
| GroupCommit.WritesAreAtomic | Auctioneer/Pods/leveldb-library/db/db_impl.cc:1185-1256 | On every run the memtable is, in arrival order, the whole batch of each writer told all is well, once, nothing of one told otherwise, then at most the group in flight; numbers rise, ranges are disjoint and increasing, the visible entries are those of returned writers, and each successful sync write was synced. |
| Blocks.BlockBuilder.Add | Auctioneer/Pods/leveldb-library/table/block_builder.cc:72-106 | The layout of prefix-compressed entries and restarts gains the entry. |
| Blocks.BlockBuilder.Finish | Auctioneer/Pods/leveldb-library/table/block_builder.cc:62-70 | The bytes are the layout's, restart array and count at the end. |
| Blocks.DecodeAt | Auctioneer/Pods/leveldb-library/table/block.cc:54-74 | Decoding at an entry's offset finds its shared and own lengths, the rest of its key, its value, and the next entry's offset. |
| Blocks.Iter.ParseNextKey | Auctioneer/Pods/leveldb-library/table/block.cc:224-251 | The key is rebuilt exactly from the previous one, or the iterator ends behind the last entry. |
| Blocks.Iter.Seek | Auctioneer/Pods/leveldb-library/table/block.cc:163-201 | Binary search over restarts and a scan stop at the first key not below the target, for every restart interval. |
| Blocks.Iter.Next | Auctioneer/Pods/leveldb-library/table/block.cc:137-140 | One forward in the entries added. |
| Blocks.Iter.Prev | Auctioneer/Pods/leveldb-library/table/block.cc:142-161 | One backward, by way of a restart before it. |
| Blocks.Iter.SeekToFirst | Auctioneer/Pods/leveldb-library/table/block.cc:203-206 | The first entry. |
| Blocks.Iter.SeekToLast | Auctioneer/Pods/leveldb-library/table/block.cc:208-213 | The last entry. |
| Comparators.FindShortestSeparator | Auctioneer/Pods/leveldb-library/util/comparator.cc:29-50 | A string no longer than start, at or after it and, if start is below limit, below limit. |
| Comparators.FindShortSuccessor | Auctioneer/Pods/leveldb-library/util/comparator.cc:52-64 | A string no longer than the key, at or after it. |
| Comparators.InternalShortestSeparator | Auctioneer/Pods/leveldb-library/db/dbformat.cc:69-86 | The start itself, or a key whose user key lies strictly between both user keys. |
| Comparators.InternalShortSuccessor | Auctioneer/Pods/leveldb-library/db/dbformat.cc:88-101 | The key itself, or one of a greater user key. |
| Comparators.InternalTotal | Auctioneer/Pods/leveldb-library/db/dbformat.cc:51-67 | Of two different internal keys one is below the other. |
| Filters.BloomFilterPolicy.CreateFilter | Auctioneer/Pods/leveldb-library/util/bloom.cc:28-54 | Every key given matches the filter, for any hash. |
| Filters.BloomFilterPolicy.KeyMayMatch | Auctioneer/Pods/leveldb-library/util/bloom.cc:56-80 | It answers by the probed bits; short filters match nothing and unknown encodings everything. |
| Filters.FilterBlockBuilder.StartBlock | Auctioneer/Pods/leveldb-library/table/filter_block.cc:21-27 | There is a filter for each 2 KiB up to the block's offset. |
| Filters.FilterBlockBuilder.Finish | Auctioneer/Pods/leveldb-library/table/filter_block.cc:35-49 | The block holds all filters and their offsets, and each key added matches the filter it was added to. |
| Filters.FilterBlockReader.KeyMayMatch | Auctioneer/Pods/leveldb-library/table/filter_block.cc:90-104 | It answers by the filter of the block offset, and true for anything malformed. |
| Formats.HandleRoundTrip | Auctioneer/Pods/leveldb-library/table/format.cc:15-29 | A block handle reads back, with the rest. |
| Formats.FooterRoundTrip | Auctioneer/Pods/leveldb-library/table/format.cc:31-62 | A footer reads back. |
| Formats.ReadBlock | Auctioneer/Pods/leveldb-library/table/format.cc:64-139 | A block is read exactly if it and its trailer are in the file, its type is uncompressed, and, where wanted, its checksum is right. |
| Formats.HeldIsRead | Auctioneer/Pods/leveldb-library/table/format.cc:64-139 | Any block as written can be read, with or without the checksum. |
| Tables.TableBuilder.Add | Auctioneer/Pods/leveldb-library/table/table_builder.cc:94-123 | The entries recorded gain one, and all that is in the file or pending still stands for them. |
| Tables.TableBuilder.Flush | Auctioneer/Pods/leveldb-library/table/table_builder.cc:125-139 | The data block goes to the file, and no entry is lost. |
| Tables.TableBuilder.Finish | Auctioneer/Pods/leveldb-library/table/table_builder.cc:198-253 | The file stands for all entries added: data, filter, metaindex and index blocks, and footer. |
| Tables.Table.Open | Auctioneer/Pods/leveldb-library/table/table.cc:38-134 | A built file opens, with its filter exactly if there is a policy of its name. |
| Tables.RuledOut | Auctioneer/Pods/leveldb-library/table/table.cc:216-244 | A negative answer of the filter means that the first entry at or after the key has another user key. |
| Tables.SoughtBlock | Auctioneer/Pods/leveldb-library/table/table.cc:216-244 | The block that the index leads to is the one the first entry at or after the key is in, in spite of shortened separators. |
| Tables.Table.InternalGet | Auctioneer/Pods/leveldb-library/table/table.cc:216-244 | Only the first entry at or after the key is ever reported, and it is reported whenever it has the key's user key: neither separators nor filters cause a miss. |
| FileRefs.VersionSet.Unref | Auctioneer/Pods/leveldb-library/db/version_set.cc:476-483 | The last holder takes a version away, and its hold on its files; each file's count stays that of its listings and of builders holding it. |
| FileRefs.VersionSet.Apply | Auctioneer/Pods/leveldb-library/db/version_set.cc:650-692 | A new file object for each added file, held by the builder. |
| FileRefs.VersionSet.SaveTo | Auctioneer/Pods/leveldb-library/db/version_set.cc:695-754 | The new version takes, and holds, the files not deleted. |
| FileRefs.VersionSet.AppendVersion | Auctioneer/Pods/leveldb-library/db/version_set.cc:784-799 | The new version becomes current; the old one goes exactly if none but the set held it. |
| FileRefs.VersionSet.LogAndApply | Auctioneer/Pods/leveldb-library/db/version_set.cc:801-884 | The current version is the old one edited, every version in use stays, and all counts are right again. |
| FileRefs.ListingsCount | Auctioneer/Pods/leveldb-library/db/version_set.cc:68-86 | Where no version lists a file twice its count is the number of versions listing it. |
| FileRefs.Store.AddLiveFiles | Auctioneer/Pods/leveldb-library/db/version_set.cc:1167-1177 | The live numbers are the pending ones and those some version lists. |
| FileRefs.Store.DeleteObsoleteFiles | Auctioneer/Pods/leveldb-library/db/db_impl.cc:223-278 | A table goes exactly if no version lists it and it is no pending output. |
| FileRefs.Store.InstallFlush | Auctioneer/Pods/leveldb-library/db/db_impl.cc:535-566 | Also in the midst of a compaction, no table of a version in use and no pending output is lost. |
| FileRefs.Store.FinishCompaction | Auctioneer/Pods/leveldb-library/db/db_impl.cc:860-876 | The outputs are listed before they stop being pending, so none is lost. |
| PbCommon.FieldIter.Find | Auctioneer/Pods/nanopb/pb_common.c:78-95 | Going round from the current field, the first with the tag, or back where it was. |
| PbCommon.SearchFinds | Auctioneer/Pods/nanopb/pb_common.c:78-95 | With distinct tags it does not matter where the search starts. |
| PbEncode.OStream.EncodeVarint | Auctioneer/Pods/nanopb/pb_encode.c:608-628 | Whether counting or writing, exactly the base-128 form is appended, or it fails for want of room. |
| PbEncode.EncodeSubmessage | Auctioneer/Pods/nanopb/pb_encode.c:717-765 | The size pass and the write pass agree: length and fields are appended. |
| PbEncode.EncodeArray | Auctioneer/Pods/nanopb/pb_encode.c:147-236 | A packed array as one string of the size counted before, or each value with its tag. |
| PbEncode.PackedSize | Auctioneer/Pods/nanopb/pb_encode.c:169-189 | The size counted is that of the values' encodings. |
| PbEncode.Encode | Auctioneer/Pods/nanopb/pb_encode.c:528-550 | For every descriptor and message, counting or writing, the stream gains the bytes that the message denotes, failing only for want of room or for values the descriptor forbids. |
| PbEncode.GetEncodedSize | Auctioneer/Pods/nanopb/pb_encode.c:567-576 | The size is that of the bytes the writing pass emits, and there is none exactly if that would refuse the message. |
| PbDecode.IStream.DecodeVarint32 | Auctioneer/Pods/nanopb/pb_decode.c:187-252 | It succeeds exactly on varints of 32 bits and on sign-extended longer ones, with the value and what follows. |
| PbDecode.IStream.DecodeVarint | Auctioneer/Pods/nanopb/pb_decode.c:255-275 | It succeeds exactly on varints of at most ten bytes, with the value and what follows. |
| PbDecode.IStream.SkipWire | Auctioneer/Pods/nanopb/pb_decode.c:321-331 | What is skipped is what a field of the wire type takes. |
| PbDecode.IStream.MakeSubstream | Auctioneer/Pods/nanopb/pb_decode.c:372-385 | The substream is the length-prefixed string, and what remains is what follows it. |
| PbDecode.DecodeSubmessage | Auctioneer/Pods/nanopb/pb_decode.c:1519-1541 | The submessage is decoded from its own bytes, and the stream goes on behind them. |
| PbDecode.DecodePacked | Auctioneer/Pods/nanopb/pb_decode.c:426-454 | The values of a packed string, up to the array's bound. |
| PbDecode.DecodeStaticField | Auctioneer/Pods/nanopb/pb_decode.c:406-483 | The field's slot becomes what its bytes say for its rule and wire type. |
| PbDecode.RequiredPresent | Auctioneer/Pods/nanopb/pb_decode.c:1033-1073 | Whole words and then a masked one: true exactly if every tracked required field was seen. |
| PbDecode.DecodeNoinit | Auctioneer/Pods/nanopb/pb_decode.c:928-1076 | For every descriptor and every input, malformed or not, it succeeds exactly if, and with just the structure, the recursive meaning of the bytes has. |
| PbDecode.Decode | Auctioneer/Pods/nanopb/pb_decode.c:1078-1090 | The same, starting from the defaults. |
| PbRoundTrip.SignedBack | Auctioneer/Pods/nanopb/pb_decode.c:1339-1422 | Signed and zigzag numbers come back, with sign extension and casts. |
| PbRoundTrip.ValueBack | Auctioneer/Pods/nanopb/pb_decode.c:1339-1564 | Over the default of its type, a value sent is a value received. |
| PbRoundTrip.MessageBack | Auctioneer/Pods/nanopb/pb_decode.c:928-1090 | For every described message, decoding its encoding over the defaults gives it back, fields not sent at their defaults and strings up to their ends. |
| PbRoundTrip.UnknownSkipped | Auctioneer/Pods/nanopb/pb_decode.c:985-989 | Wherever it stands, what was sent for a field the reader lacks changes nothing. |

## Findings

Two properties one would expect of the code are false of it. Both are kept as the code has them.

| property | source | input on which it fails | exact condition |
|---|---|---|---|
| A compaction changes no read at or after the oldest snapshot. | Auctioneer/Pods/leveldb-library/db/version_set.cc:1410-1411 | Write 1 and 2, take a snapshot, flush; delete 2, flush, compact with the output cut between the two entries of 2; release the snapshot, write 1, flush, compact: the level + 1 inputs are taken without `AddBoundaryInputs`, so the file with the older entry of 2 stays behind while its deletion marker is dropped, and 2 is found again (`Resurrection.DeletedKeyReturns`, all of it a run from the empty store). | The installation keeps the invariant if and only if no dropped marker, newest of its key, has a value as its newest older entry outside the inputs (`LsmTree.InstallExact`, `LsmTree.StepExact`). A caller can check before a compaction begins that no file left at level + 1 starts with the user key an input there ends with; then no run goes wrong (`LsmTree.RunSound`). |
| Decoding an encoded version edit gives it back. | Auctioneer/Pods/leveldb-library/db/version_edit.cc:26-39 | An edit that already holds a compaction pointer, decoded into: `Clear` leaves its compaction pointers, and they stay in front of those read. | If and only if the edit decoded into has no compaction pointers (`VersionEdits.EditRoundTrip`). The code itself decodes only into fresh edits. |

## Left out

- User keys in the store, its levels and its iterators are real numbers: places in the comparator's order. Tables, blocks, batches and separators are about bytes.
- The choice of the level and the file to compact (`Finalize`, seek statistics, read sampling) is any choice.
- Where outputs are cut (`ShouldStopBefore`, file sizes) is any place; in `DoCompactionWork` it is decided by an arbitrary choice at each entry.
- Manual compactions (`CompactRange`), whose inputs may have gaps.
- `LsmTree.RunsReadTheMap`, `LsmTree.ReadersKeepTheirMoment` and `LsmTree.RunSound` are about the runs of the Findings' condition only.
- LsmTree.RunsReadTheMap: the condition at the beginning of each compaction suffices but is not necessary; the exact one, in `LsmTree.StepExact`, is about the contents at installation.
- DbImpl.Db.Write: one writer at the head of the queue; the queue is in `GroupCommit`, the log in `WriteBatches`. The numbers stay below 2^56 - 1.
- The memtable of `Db` is a sorted sequence; `MemTables.AddIsInsert` ties it to the skip list. Snapshots are a sorted sequence, not a ring of nodes.
- Shutdown, background errors, waiting, and the mutex: each operation of `Db` is one step.
- DbImpl.Db.DoCompaction: merges, drops and installs in one call; flushes in between and the output numbers taken meanwhile are steps of the state machine before it.
- Descriptors, renames, the manifest's and the CURRENT file's names, and directories; a file is its bytes.
- VersionBuilder.Recover: takes the decoded edits; log numbers and the like are in `VersionEdits`.
- FileRefs.VersionSet: the linked list of versions is a sequence and the seven vectors one sequence of files with their levels; the order of files in a level is in `VersionBuilder`.
- Removing obsolete logs, manifests and temporary files.
- WriteBatches.Recover: a log file that is appended to after a record cut off at its end (`reuse_logs`, db_impl.cc:457-466) is not modelled.
- Log.Reader.ReadRecord: from the start of the file (initial_offset 0), read block by block; what is reported of corrupt files is modelled, but nothing is promised about which records of a corrupt file come back.
- SkipLists.Insertion.Find: stores and loads are sequentially consistent; node allocation in an arena and acquire and release orders are not modelled.
- HandleTables.HandleTable.Resize: the bucket is the remainder of the hash, where the code masks it, the length being a power of two; equal keys have equal hashes by assumption of the caller.
- LruCaches.LRUCache: one shard, without its mutex; the deleters are recorded, not run.
- Crc32c.Extend: the tables are parameters that satisfy their recurrences; the constants themselves and the hardware path are not part of this model.
- Filters.BloomFilterPolicy.CreateFilter: the number of probes is any from 1 to 30 (the code gets it by a floating product), and the hash any function; nothing is said of how many false positives there are.
- Tables.Table.InternalGet: uncompressed blocks only, and read from the file each time, without the block cache; the file is below 2^64 bytes, and each block and the filter block below 2^32, as their offsets are.
- Filters of other encodings and tables of other versions; corrupt blocks beyond the checks of `Formats.ReadBlock`.
- DbIterator.DbIter.FindPrevUserEntry: the saved value's buffer is not given back at its size limit, and reads are not sampled.
- The iterator interface: each layer is a class of its own, specified as a cursor, and is built over `Iterators.Cursor`; clean-up functions and status values are not modelled.
- Structures' layouts in memory, callbacks, extensions, pointers (malloc mode), arrays of fixed count, delimited and null-terminated messages of nanopb, and its build without 64-bit numbers.
- PbRoundTrip.MessageBack: for encodings below 4 GiB, the limit of the decoder's string lengths, here applied to the whole message, and for tags of at most 29 bits.
- PbEncode.Encode: byte counts stay below 2^64, the range of `size_t`.
- PbDecode.DecodeNoinit: what a failed decoding leaves half filled is not described; nor is a field number of zero read for a message without fields, which the code takes for the descriptor's end mark, nor a descriptor with field sizes the decoder rejects.
- repair.cc, c.cc, dumpfile.cc, filename.cc, the environment, statistics and debugging text.
- The application itself: view controllers and callbacks of a remote database.
