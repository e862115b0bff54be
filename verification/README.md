# labdb: a verified model

labdb (C++20) is a small SQL engine: pages in a file behind a write-ahead log, a buffer
pool, B+Tree indexes, slotted pages of encoded rows, and above them a parser, a planner and operators that
run a row at a time or in batches. This project models its algorithms in Dafny, in the form the source has
(a class with methods where the source updates fields, functions where it computes values), and proves what
they are for. Nothing here runs labdb.

`dafny verify dfyconfig.toml` checks everything.

## How it is laid out

| part | files | what is proved of it |
|---|---|---|
| storage: crashes | Disk, Recovery, Crash, Redo, Wal, Pager, Reopen, Unordered, PowerLoss, LostCommit | after a process death at any write, or a power cut, reopening yields a whole commit, and which one; exactly when a power cut during recovery, or one that loses unsynced writes out of order, is survived, and runs in which it is not |
| storage: pages | Pager, BufferPool | free-list conservation; the pool is the pager's contents under any evictions |
| storage: index | BTreeShape, BTreeSplit, BTreeMerge, BTreeContents, BTreeScan, BTree | the unique tree is a finite map, balanced, half full, its leaf chain in order |
| storage: equal keys | DuplicateKeys, DuplicateChain, DuplicateTree, DuplicateRun | exactly when the non-unique tree's chain stays in order, a scan's meaning while it does, and a run after which it does not |
| storage: records | SlottedPage, Records, Bytes | the slotted page is a map from slots to bytes, at byte level; rows survive encoding |
| operators | Rows, Batches, JoinHash, Joins, IndexJoins, Cursors, Grouping, HashGroups, SortOrder, Sort | every operator's row path and batch path yield the stream its specification names, and what that stream is by the values of the rows |
| planner | IndexKeys, PlanScope, PlanTree, Products, Planner, PlanFrom, KeyOrder | whatever paths and join algorithms are chosen, the plan yields the rows the query's terms, as written, ask for |
| SQL text | SqlSyntax, SqlLexer, SqlText, SqlLexemes, SqlGrammar, SqlRules, SqlSpelling, SqlParser | the parser accepts exactly the texts that spell a statement by the grammar, which is unambiguous, and returns it; what the printer prints is read back |

A store is a file as of its last sync and the queue of writes since. A *moment* is a store, perhaps a write
in progress, and how many commits were acknowledged and issued; a pager's ghost `trace` records every moment
of its session (`Recorded`), so a statement about all moments of a trace is one about a crash at any write. A death leaves
every finished write and the one in progress whole, torn or lost. A power cut leaves, of each file, a prefix
of its unsynced writes with the last perhaps torn (`PowerLeaves`), or, in the harsher model, any of them, any
torn (`AnyPowerLeaves`). To *find* contents is to open the files without an error and read them
(`Finds`); files that *recover* (`Recovers`) are moreover such that a log begun anew over what is left commits
nothing of it. `Full`, `Normal` and `Off` are the durability settings.

Where a contract speaks of a specification function (the order of a sort, the rows of a loop, the answer of an
aggregate), a member whose name ends in `Mean` or `Means` says what that function gives in terms of the values
put in, without naming it.

## Findings

Where a natural claim is false of the code, the code is modelled as it is; a member gives an input on which
the claim fails, and another says exactly when it holds.

| claim | input on which it fails | when it holds |
|---|---|---|
| an index that allows equal keys reads in key order | `DuplicateRun.OutOfOrder`: 43,310 insertions into an empty index (43,181 of one key, 128 of a smaller, one of a larger), after which a search for the largest key reads on to a smaller one. A full internal node that splits finds the new child's place by key (src/btree.cpp:156-163) and not by the place descended through | `RootChain`, `NonUniqueTree.Insert`: the chain is the tree's leaves in order if and only if every separator that enters a full node is strictly below the next one there; `NonUniqueTree.Scan` is then right |
| under Full, a commit is atomic whatever order its writes persist in | `PowerLoss.RewrittenSlot` (a page written twice: src/wal.cpp:152-157), `RolledBackSlot` (src/wal.cpp:169-172): the commit frame survives with another frame of one of its slots | `CommitInAnyOrder`, `AtomicIff`: if and only if no slot of the transaction can hold another frame of the generation, and the slots it writes over separate no two versions of a page in the synced log; `WriteOnce` says which transactions meet this |
| under Full, an acknowledged commit is not lost to a power cut | `LostCommit.LostAcknowledged`: the header of a log begun anew is not synced, and the next transaction writes over the frames the old header still commits. The old header and one new frame survive, and the scan stops between two commits: the first one's meta page is found over the second one's pages (src/wal.cpp:104-126, 180-186) | `PowerLoss.AtRestInAnyOrder`: if and only if every slot written over agrees, that is, what the synced log commits before it is the last version of each page; so always where the synced log holds one commit (`OneCommitAgrees`) |
| what a power cut leaves under Full, the next session can go on from | `PowerLoss.UnsyncedHeader` with `LeftoverCommits` (src/wal.cpp:71-81, 180-186): the new commit frame survives alone under the old header, and the next session's first page, never committed, is committed by it | `CommitInAnyOrder`, `TidyAnyOrder`: if and only if no header older than the commit frame can be left; always between commits (`AtRestRecovers`) |
| a power cut during recovery loses no more than one before it | `Reopen.DeathThenPowerCut`: under Normal a commit is left unsynced, the process dies, and the power fails while the next one copies the commit into the file; the files no longer open | `Redoing.RecoverySurvives`, `RecoveryLosesNothing`, `Reopen.OpenFound`: if and only if every block copied, among the pages in range and the meta page, has a frame in whatever part of the log may be left or is already in the file. `Reopen.AfterQuietDeath`: always, after a death under Full with no commit in flight |
| every row the encoder accepts reads back | `RecordCodec.PointerWraps`: the pointer to a text is 16 bits and is not checked (src/record.hpp:153-192), so a text that begins 65,536 bytes in is read from the front | `RecordCodec.ReadsBackIff`: if and only if the bytes at each text's cut pointer are its own; `AnyRoundTrip`, `SmallFits`: so whenever no text begins past 65,535 |
| a page allocated, and not freed since, can be freed | `PagePool.FreeAgain`: a page freed, handed out again and freed again; the pager still has it marked free (src/pager.cpp:173-178, src/buffer_pool.cpp:124-141) | `PagePool.BufferPool.FreePage`: unless a client writes pages marked free, if and only if the page did not come off the free list or has been written back since; `FreeWrittenBack` is such a run |

The grammar in the parser's header (src/parser.hpp:11-32) lets `*` stand in any aggregate and LIMIT take any
integer; the parser refuses all but `COUNT(*)`, and a negative limit (src/parser.cpp:205-206, 330). The
model follows the parser.

## Model

| member | source | states |
|---|---|---|
| Reopen.AfterDeath | src/pager.cpp:97-119 | From any recorded moment of any run, whatever became of the write in progress, opening the files again yields the last acknowledged commit or the one in flight, whole, and a valid session whose own recovery can die in the same way |
| Reopen.AfterPowerCut | src/pager.cpp:188-224 | After a power cut at any moment, with a prefix of each file's unsynced writes left and the last perhaps torn: under Full no acknowledged commit is lost, under Normal some whole earlier commit is found, and the new session promises what its setting allows |
| Reopen.AfterQuietDeath | src/pager.cpp:203-224 | A session under Full that dies with no commit in flight (in a transaction, a checkpoint, its own recovery) leaves files in which the last commit is durable: the next session promises as much as one opened on synced files, unsynced writes or not |
| Reopen.OpenFound | src/pager.cpp:97-119 | On files found with unsynced writes, and for any contents `h`: every power cut at every moment of the recovery leaves one of `h` to be found if and only if every one before it did and every block that is copied, of the pages the database would then have and its meta page, is sheltered by whatever part of the log may be left. Where cuts before it found only commits, cuts during it find nothing else if and only if all is sheltered; and if the meta page is not, some cut leaves files that do not open |
| Reopen.DeathThenPowerCut | src/pager.cpp:203-224 | A run of the pager itself: one page committed under Normal, the process dies, the next opens the files it left and finds the commit; at a moment of that recovery a power cut leaves files the code refuses to open, though the first session promised some whole commit |
| Redoing.RecoverySurvives | src/pager.cpp:97-119 | The first equivalence for the trace of moments of any recovery |
| Redoing.RecoveryLosesNothing | src/pager.cpp:97-119 | The second: recovering loses nothing a power cut could not have lost before if and only if all that is copied is sheltered |
| PowerLoss.AtRestInAnyOrder | src/wal.cpp:104-126 | Between commits of a session that syncs each, opening finds the last acknowledged commit after every subset of the unsynced writes, any of them torn, if and only if no slot that is written over separates two versions of a page committed in the synced log |
| PowerLoss.AtRestRecovers | src/wal.cpp:180-186 | Then the next session may also go on from what is left; and a log begun anew over what is left never commits anything of it, whether or not slots are written over |
| PowerLoss.OneCommitAgrees | src/wal.cpp:104-126 | A synced log of a single commit meets that condition whatever is written over it |
| PowerLoss.CopyingInAnyOrder | src/pager.cpp:203-216 | While a checkpoint of such a session copies pages, every subset of the unsynced log and database writes leaves the last commit |
| PowerLoss.CommitInAnyOrder | src/pager.cpp:188-195 | A commit whose writes persist in any order redoes exactly its own frames with those before, or only frames committed before, each page's last version, if and only if what it writes over separates no two versions of a page in the synced log and its slots can hold nothing else of the generation: opening then finds the old contents or the new. What is left can be gone on from if and only if no header older than the commit can be left. Once the call has returned the new contents are found whatever is lost |
| PowerLoss.AtomicIff | src/wal.cpp:95-136 | The same two equivalences for a log alone, in terms of its state before the commit: atomic exactly by its slots and the slots it writes over, gone on from exactly by its header |
| PowerLoss.WriteInAnyOrder | src/wal.cpp:152-157 | A page write keeps the condition on slots if and only if its slot can hold no other frame of the generation, neither a rolled-back one nor an earlier version of the page, and the condition on the synced log if and only if its slot separates no two versions there |
| PowerLoss.WriteOnce | src/wal.cpp:152-157 | A transaction that writes each page once, in slots unused since the log was begun and that separate nothing in the synced log, commits atomically in any order; and what is left can be gone on from if and only if the header was its own or the only one |
| PowerLoss.RewrittenSlot | src/wal.cpp:152-157 | A run of the log that writes a page twice and a cut after which the first version is redone with the commit |
| PowerLoss.RolledBackSlot | src/wal.cpp:169-172 | A run that rolls back and writes another page, and a cut after which the rolled-back page is redone with the commit |
| PowerLoss.UnsyncedHeader | src/wal.cpp:180-186 | A first commit after the log is begun anew: it is atomic, but a cut may leave the old header with the new commit frame alone, which is nothing to go on from |
| PowerLoss.LeftoverCommits | src/wal.cpp:71-81 | A second log opened on what that cut left: it finds nothing committed, begins the generation of the leftover frame, and writes one page, which is then committed, with a meta page never acknowledged |
| LostCommit.LostAcknowledged | src/wal.cpp:104-126 | A run of the pager itself under Full: two commits, each synced, a checkpoint, and two pages of a third transaction written over the log. A cut that keeps the old header and the second of those frames opens to the meta page of the first commit over the pages of the second, which is no commit |
| Unordered.CommitAnyOrder | src/wal.cpp:95-136 | On any synced log and queue: whatever of the writes survive, what is redone is all of the queue's commits or only frames committed before, each page's last version, if and only if every slot touched agrees with what the synced log commits after it and each slot of the transaction can hold one frame of the generation |
| Unordered.TidyAnyOrder | src/wal.cpp:180-186 | And a log begun anew over what is left commits nothing of it if and only if no header older than the commit frame can be left |
| Recovery.RecoversFinds | src/pager.cpp:97-119 | Files that recover to some contents are found, by the code's own order of looking (the log's meta page if it commits one, else the file's, if the file is as long as that says), to hold exactly those |
| Crash.WritesRecorded | src/pager.cpp:97-245 | The trace of a session misses nothing: between one moment and the next, and from the last to the files as they are, lies the one write it names and perhaps a sync, so every write still unsynced is the write of some moment, or was there before the session |
| WriteAheadLog.Wal.constructor | src/wal.cpp:52-65 | Opening takes the generation in the header, or the one drawn when there is no usable header, and holds nothing committed or pending |
| WriteAheadLog.Wal.Scan | src/wal.cpp:104-126 | The scan ends at the first frame not valid for the generation, keeps each page's last frame up to the last commit frame, and counts a transaction if and only if there is such a frame |
| WriteAheadLog.Wal.Recover | src/wal.cpp:95-136 | What is committed after it is exactly the overlay the log's committed frames make; nothing is pending |
| WriteAheadLog.Wal.Write | src/wal.cpp:152-157 | The transaction sees the new version of the page and the committed pages do not change, in memory or for anyone who opens the file with any prefix of the writes issued, the last whole or torn; the page's slot is reused if it has one |
| WriteAheadLog.Wal.Commit | src/wal.cpp:159-167 | Every pending page and the meta page become the committed ones; until its last write the log still commits only what it did; with sync everything written is durable |
| WriteAheadLog.Wal.Rollback | src/wal.cpp:169-172 | Nothing is pending, the committed pages are as they were, and the slots are free again |
| WriteAheadLog.Wal.Reset | src/wal.cpp:180-186 | A new generation: no frame of the old one commits anything, the header write whole or torn |
| WriteAheadLog.Wal.Read | src/wal.cpp:138-146 | The pending version of a page, else the committed one, else none |
| WriteAheadLog.Wal.CommittedFrames | src/wal.cpp:174-178 | Every committed page once with its slot, in ascending page order |
| PageStore.Pager.constructor | src/pager.cpp:97-119 | Files that recover to `c` open to `c` with no transaction; the moments recorded are those of redoing, syncing and beginning the log anew; the session promises by its setting if what was found was durable, else nothing |
| PageStore.Pager.ReadPage | src/pager.cpp:133-144 | The page as the transaction in progress sees it: log first, then file |
| PageStore.Pager.WritePage | src/pager.cpp:146-151 | Changes that page and no other, and no commit; every moment of it is safe |
| PageStore.Pager.Commit | src/pager.cpp:188-195 | The contents are appended to the history of commits, if anything changed; every moment of the commit, and of the checkpoint it may start, is safe |
| PageStore.Pager.Rollback | src/pager.cpp:197-201 | The contents are the last commit's again |
| PageStore.Pager.Checkpoint | src/pager.cpp:203-224 | Changes no contents and no history, and leaves the log committing nothing; every moment of it is safe; under Full the new log's header is the one write it leaves unsynced |
| PageStore.Pager.Sync | src/pager.cpp:226-230 | Commits, and leaves no unsynced write in the database file |
| PageStore.Pager.Close | src/pager.cpp:121-131 | Leaves an empty log and the last commit whole in the database file |
| PageStore.Pager.AllocatePage | src/pager.cpp:153-169 | Hands out the head of the free list if there is one, and then moves the head to the next and changes nothing else; otherwise a new last page, which reads as empty, or as what a recovery left in a file longer than the database, and then only the page count changes. No root and no page there is changes; it fails if the head is not marked free |
| PageStore.Pager.FreePage | src/pager.cpp:171-186 | Marks a page free and puts it at the head of the free list, and changes no root, no other page and not the page count; refuses one already marked free |
| PageStore.Pager.FreelistLength | src/pager.cpp:232-245 | Counts the free list, and ends |
| PageStore.Pager.SetBtreeRoot | src/pager.cpp:247-250 | Sets the root in the meta page of the transaction and nothing else |
| PageStore.InUseAfterAllocate | src/pager.cpp:153-169 | The page handed out was not in use and is now; every other page keeps its state, and what is left of the free list is a free list |
| PageStore.InUseAfterFree | src/pager.cpp:171-186 | The page freed was in use and is not; the free list is it and the old one, without repetition |
| PageStore.FreeListFits | src/pager.cpp:232-245 | A free list has fewer entries than the database has pages, so a longer walk is a cycle |
| PagePool.BufferPool.ChooseVictim | src/buffer_pool.cpp:25-37 | Finds an unpinned frame if and only if there is one, within twice as many steps as there are frames, and changes nothing but use bits and the hand |
| PagePool.BufferPool.Evict | src/buffer_pool.cpp:39-48 | An unpinned frame is emptied and written back if dirty: what the pool's users see does not change |
| PagePool.BufferPool.Obtain | src/buffer_pool.cpp:58-92 | Pins a frame holding the page's current version, evicting if it must, and fails if and only if the page is not resident and every frame is pinned |
| PagePool.BufferPool.FetchPin | src/buffer_pool.cpp:94-96 | A pinned frame with the page's last written version; one pin more on it and on no other |
| PagePool.BufferPool.Unpin | src/buffer_pool.cpp:98-105 | One pin fewer, and a change made through the pin is seen by everyone |
| PagePool.BufferPool.ReadPage | src/buffer_pool.cpp:107-112 | The last version written to the page, wherever it is; nothing seen changes |
| PagePool.BufferPool.WritePage | src/buffer_pool.cpp:114-122 | That page, and no other, is seen changed |
| PagePool.BufferPool.AllocatePage | src/buffer_pool.cpp:124-130 | A page not in use comes into use, empty to the pool's users, and no other page and no root changes; the database grows only if the free list is empty. In the pager the page is what it was, so that one off the free list is still marked free there, and is then one of those reused and not written back |
| PagePool.BufferPool.FreePage | src/buffer_pool.cpp:132-141 | The page goes to the free list and no frame holds it any more. Refused exactly when the pager's copy is marked free; and, if no client ever wrote a page marked free, exactly when the page was handed out off the free list and not written back since |
| PagePool.BufferPool.Commit | src/buffer_pool.cpp:148-158 | What was seen is what the pager commits, every dirty frame included; no reused page is left that is not written back |
| PagePool.BufferPool.Rollback | src/buffer_pool.cpp:160-177 | What is seen, and which pages are free and in use, is as of the last commit, whichever changed frames were evicted and read again |
| PagePool.FreeAgain | src/buffer_pool.cpp:132-141 | A page is freed, handed out again and freed again: the pool refuses the last, as a page freed twice |
| PagePool.FreeWrittenBack | src/buffer_pool.cpp:148-158 | With a commit before the last it does not |
| BTreeIndex.BTree.Insert | src/btree.cpp:67-194 | The index is the map with the key set to the value, and the answer says whether it was new; the tree stays balanced, half full, ordered and chained |
| BTreeIndex.BTree.InsertNew | src/btree.cpp:171-194 | The same, leaving a key that is there alone |
| BTreeIndex.BTree.Erase | src/btree.cpp:196-366 | The map without the key, and whether it was there; the tree stays balanced, half full, ordered and chained through borrows, merges and the root's collapse, pages no longer used are given back, and the height drops by at most one |
| BTreeIndex.BTree.Search | src/btree.cpp:36-52 | The map at the key, one page read a level |
| BTreeIndex.BTree.Height | src/btree.cpp:54-65 | The number of levels; a tree of more than one has at least twice the fewest entries a subtree of its height can have |
| BTreeIndex.BTree.Seek | src/btree.cpp:398-415 | A cursor that will read exactly the map's pairs at or after the key, each once, in ascending order |
| BTreeIndex.BTree.Last | src/btree.cpp:417-433 | A cursor at the pair with the greatest key, if the map has any |
| BTreeIndex.Cursor.Next | src/btree.cpp:370-396 | One entry further along the leaf chain, empty leaves passed over |
| BTreeScan.LeafChain | src/btree.cpp:94-118 | Walking the chain from the first leaf under any siblings meets exactly their leaves, in tree order |
| DuplicateKeys.RoutedRight | src/btree.cpp:156-163 | In a full node the place found by the separator is the place descended through if and only if the separator is strictly below the next one there |
| DuplicateKeys.InsertSound | src/btree.cpp:84-167 | Routed so, an insertion keeps a non-unique tree in order and puts the entry after those with its key |
| DuplicateKeys.LandsFirst | src/btree.cpp:398-415 | The leftmost descent for a key leaves behind only smaller keys and has before it only the rest |
| DuplicateChain.RootChain | src/btree.cpp:94-167 | After an insertion the leaf chain, the new leaf linked after the one that split, is the tree's leaves in order if and only if every separator that enters a full node is strictly below the next one there |
| DuplicateTree.NonUniqueTree.Insert | src/btree.cpp:67-194 | Over pages with next links, into any tree a run of insertions has made, its nodes in order or not: the tree is what the halving searches make of it, and the run's entries and one more are in it; while the run was routed strictly, the chain is the tree's leaves in order if and only if this insertion is so routed too |
| DuplicateTree.NonUniqueTree.Scan | src/btree.cpp:370-415 | Seek, then next to the end: what the chain holds from there on; while the run was so routed, exactly the entries inserted at or after the key, in key order, equal keys in the order they were inserted |
| DuplicateTree.StableMeans | src/btree.cpp:84-118 | That order is sorted and gives each key's values in the order they were inserted |
| DuplicateTree.ScanMeans | src/btree.cpp:370-415 | So what such a scan gives is in key order, and has under each key from its start on every value inserted under it, in the order they were inserted, and nothing else |
| DuplicateRun.OutOfOrder | src/btree.cpp:156-163 | From the empty tree at the real capacities, for any keys s < k < largest: after 43,181 insertions of k, 128 of s and one of largest, the scan from largest yields it and then the smaller k |
| SlottedPages.SlottedPage.constructor | src/slotted_page.hpp:35-43 | Any 4,096 bytes become a page with no records, its id and type in the header |
| SlottedPages.SlottedPage.Insert | src/slotted_page.hpp:64-102 | The map of slots to records with the record in the lowest dead slot or a new one; refused, leaving every byte, exactly when it is empty or there is no room even after compaction |
| SlotLayout.NoRoom | src/slotted_page.hpp:64-102 | What is refused would fit nowhere: no page whatever holds the records there are, under their slot ids, and the refused one too |
| SlottedPages.SlottedPage.Read | src/slotted_page.hpp:105-109 | The record in a live slot, and none in any other |
| SlottedPages.SlottedPage.Erase | src/slotted_page.hpp:113-129 | The map without the slot; every other slot keeps its id and bytes; refused exactly for a slot that is not live |
| SlottedPages.SlottedPage.Compact | src/slotted_page.hpp:131-151 | No record changes; the live cells are packed against the end and no byte is a fragment |
| RecordCodec.Encode | src/record.hpp:153-192 | Null bits, fixed slots and text pointers at the byte level as `Encodes` lays them down; refused exactly for a row of the wrong width or a text over 65,535 bytes |
| RecordCodec.EncodesMean | src/record.hpp:153-192 | What lies where: a bit a column that says if it is NULL; in its slot a number in two's complement, least significant byte first, a truth value as one byte, a text as where it begins, cut to 16 bits, and how long it is; and there, after the slots, the text's bytes |
| RecordCodec.AnyRoundTrip | src/record.hpp:153-247 | Every record of a row whose texts all begin within 65,535 bytes decodes, whole and by column, to the row, whatever columns are NULL |
| RecordCodec.ReadsBackIff | src/record.hpp:153-247 | Every record the encoder makes decodes, and to the row it was made of if and only if the bytes at each text's cut pointer are the text's own |
| RecordCodec.TextReads | src/record.hpp:201-223 | A text reads as the bytes at its pointer cut to 16 bits, and comes back if and only if those are its own |
| RecordCodec.SmallFits | src/record.hpp:153-192 | A row whose texts take at most 65,535 bytes altogether meets that condition |
| RecordCodec.RowReadsBack | src/record.hpp:153-309 | Encode, then decode, decode into an existing row and project each column: each gives the row |
| RecordCodec.RunReadsBack | src/batch.hpp:199-291 | Encode any rows, then decode the run a column at a time: each column holds the rows' values |
| RecordCodec.PointerWraps | src/record.hpp:153-192 | A row the encoder accepts, its record, and a column that reads as another text |
| RecordCodec.DecodeInto | src/record.hpp:277-309 | Succeeds exactly when the whole row decodes, with the same values |
| Batches.Batch.SelectAll | src/operator.cpp:177-228 | The live rows become exactly those that pass every term, in order, the selection narrowed in place |
| Batches.KeptMeans | src/operator.cpp:177-228 | Those are the rows, and all of them, that every term holds of, each once and in order |
| Rows.ComparedMeans | src/operator.cpp:43-93 | A comparison holds of two fields if and only if neither is NULL and =, <>, <, <=, > or >= does of what they are worth: integers of any width and decimals as numbers, so that an integer column is compared with a decimal by value, and texts by their first different byte |
| Batches.Filter.Produce | src/operator.cpp:411-423 | The next row of the input that passes every term |
| Batches.Filter.ProduceBatch | src/operator.cpp:425-434 | A batch, never empty and never over the budget, of the same stream from where it was |
| JoinHash.JoinHashTable.Finish | src/join_hash.hpp:70-81 | Buckets, a power of two and at least as many as rows but less than twice, that together hold every row id once, in its hash's bucket, ascending |
| JoinHash.JoinHashTable.BucketRange | src/join_hash.hpp:84-87 | The range of positions holding exactly the bucket's ids |
| JoinHash.BucketIds | src/join_hash.hpp:70-81 | A bucket's ids are exactly those of the rows whose key falls in it, ascending |
| JoinSpec.HashJoinIsNestedLoop | src/operator.cpp:543-629 | Keys and residual terms of an ON yield the nested loop's rows on the ON: in the same order when the table is built from the right, as the same bag when from the left |
| JoinSpec.LoopMeans | src/operator.cpp:496-515 | A loop yields exactly the pairs of rows that join, each once, in order of the driving row's place and then of the other's |
| JoinOperators.NestedLoopJoin.Produce | src/operator.cpp:496-515 | The next pair, left rows outermost, that satisfies every term |
| JoinOperators.HashJoin.Open | src/operator.cpp:570-598 | For any hash and mixing functions: the stream to come is the loop over the probe rows and build rows on keys and residual, NULL keys matching nothing |
| JoinOperators.HashJoin.Produce | src/operator.cpp:602-629 | The next row of that stream |
| JoinOperators.HashJoin.ProduceBatch | src/operator.cpp:672-741 | A batch, never empty and never over the budget, of the same stream, a half-walked bucket resumed |
| IndexJoins.IndexNestedLoopJoin.constructor | src/operator.cpp:754-780 | What is to come, by rows or by batches, is every match of every outer row in the index |
| IndexJoins.IndexNestedLoopJoin.Produce | src/operator.cpp:788-814 | The next of the stream: each outer row with the indexed rows of its key that pass the terms |
| IndexJoins.IndexNestedLoopJoin.ProduceBatch | src/operator.cpp:816-886 | The same stream in batches, a half-read index cursor resumed |
| PlanTree.IndexJoinIsLoop | src/operator.cpp:788-814 | Searching an index for each outer row's key, with the inner filter and the other terms checked on each match, gives the rows, in order, of the nested loop on all the terms over the filtered inner rows |
| Cursors.TableCursor.Fill | src/catalog.cpp:295-330 | The same rows as row by row, up to a budget, and short of it only at the end |
| Cursors.IndexCursor.Seek | src/catalog.cpp:426-429 | The stream becomes the rows of exactly the entries whose keys are in the range, in entry order |
| Cursors.BetweenMeans | src/catalog.cpp:426-429 | Those are all the entries with a key in the range, and no other, in order |
| Cursors.IndexCursor.Fill | src/catalog.cpp:444-477 | The same rows as row by row, up to a budget, and short of it only at the end |
| Cursors.Limit.ProduceBatch | src/operator.hpp:723-729 | The first n rows of the input in batches; the input is advanced by exactly the rows returned, and no further |
| HashGroups.GroupTable.Add | src/operator.cpp:1038-1062 | One group more, numbered next; at most half the slots are taken, and every key is found by probing from its own slot |
| HashGroups.GroupTable.Grow | src/operator.cpp:1064-1072 | Twice the slots and the same groups, each found by probing |
| HashGroups.HashAggregate.FindOrAdd | src/operator.cpp:1038-1062 | The number of the row's group, all NULLs one key, by first appearance, added if it is new |
| HashGroups.HashAggregate.Open | src/operator.cpp:1074-1105 | Fails exactly when some sum of some group leaves 64 bits at some row; otherwise each group's state is the aggregate over exactly its rows |
| HashGroups.HashAggregate.OpenBatches | src/operator.cpp:1199-1282 | Folding an aggregate at a time over batches of any sizes fails exactly when the row path does and otherwise ends in the same answers |
| HashGroups.HashAggregate.Produce | src/operator.cpp:1323-1330 | The groups' rows, in order of first appearance |
| HashGroups.HashAggregate.ProduceBatch | src/operator.cpp:1284-1321 | The same answers in batches |
| GroupSpec.AnswerMeans | src/operator.cpp:965-987 | A group's row is its key's fields, then for each aggregate: COUNT the number of values it takes from the group's rows, SUM their sum, AVG the sum divided by the number, MIN or MAX one of them than which none is less, or greater; over no values COUNT is 0 and the others NULL of their type |
| GroupSpec.GroupsMean | src/operator.cpp:1022-1062 | The groups are in order of the first row with each key, whose columns the key is; every row has some group's key, NULL equal to NULL; with nothing to group by there is one group, even of no rows |
| GroupSpec.MembersMean | src/operator.cpp:1074-1105 | A group's rows are exactly those with its values in the columns grouped by, in order |
| GroupSpec.ValuesMean | src/operator.cpp:899-918 | The values an aggregate takes are the column's that are not NULL, in order; COUNT(*) takes every row |
| GroupSpec.OverflowsMeans | src/operator.cpp:899-918 | A query overflows if and only if some running total of a SUM or AVG leaves 64 bits in some group |
| GroupSpec.SeenMeans | src/operator.cpp:1022-1062 | The groups are each key once, and the rows' keys exactly |
| GroupSpec.FoldMeans | src/operator.cpp:899-918 | COUNT counts a group's values and SUM adds them, failing exactly when some running total leaves 64 bits |
| GroupSpec.BestMeans | src/operator.cpp:899-918 | MIN and MAX give a value the group has with none better, NULL for a group with none |
| GroupSpec.EarlyOverflow | src/operator.cpp:899-918 | A sum that overflows part way through a group makes the whole query one that overflows |
| SortOperator.Sort.Open | src/operator.cpp:1392-1446 | What is to come is the first n rows, n the limit or all, of the input rearranged so that each comes before the next by the first term in which their values differ (smaller first for ASC, larger for DESC, NULL last for ASC and first for DESC), or if none does by arrival; whether a heap of n and a scratch row kept them or all were sorted |
| SortOperator.Sort.OpenBatches | src/operator.cpp:1480-1543 | The same, from batches |
| SortOperator.Sort.ProduceBatch | src/operator.cpp:1545-1556 | That stream in batches |
| SortOperator.EntryAgrees | src/operator.cpp:1366-1390 | Comparing by 64-bit prefix first agrees with the full comparison |
| SortOrder.PrecedesMeans | src/operator.cpp:1376-1390 | The comparison puts one row before another exactly in that order, for any terms |
| SortOrder.BytesOrder | src/record.hpp:130-135 | The eight-byte prefix of a text never reverses the order of two texts |
| SortSpec.OrderedSorted | src/operator.cpp:1376-1390 | The specification's order is a sorted rearrangement, ties by arrival |
| SortSpec.SortedUnique | src/operator.cpp:1376-1390 | Only one sequence of given rows is so sorted |
| IndexKeys.NarrowMeans | src/executor.cpp:241-263 | A range tightened by a comparison holds exactly the values it held that satisfy it |
| IndexKeys.KeysMean | src/executor.cpp:270-296 | The key range holds every value of the range; for exact keys, exactly those; for text, perhaps more |
| IndexKeys.RangeKeys | src/executor.cpp:270-296 | Computes that key range, or finds that no entry can be in it |
| PlanScope.Resolve | src/operator.cpp:20-41 | The one column a name matches; nothing if none or several do |
| PlanScope.LookupMeans | src/operator.cpp:20-41 | A name means a column if and only if that has the name, under the label if one is written, and no other column of the scope does |
| PlanScope.BindMeans | src/executor.cpp:118-154 | A term is bound if and only if it is no aggregate, its names mean columns, and its sides are both numbers, both truth values or both text, or it compares with NULL; and what it is bound to holds of a row if and only if the operator as written holds of the values of what it names |
| PlanScope.BindPart | src/executor.cpp:118-154 | A term bound in a joined scope compares the same columns as in the part of it that has them |
| PlanAccesses.PlanAccess | src/executor.cpp:314-442 | For any choice among the candidates: the bag of exactly the table's rows that satisfy every term as written, in the table's own order if it is said to be in key order; it fails if and only if a term cannot be compared |
| PlanJoins.PlanFrom | src/executor.cpp:446-652 | For any choice of access paths and join algorithms: of all ways to take a row of each table, exactly those, each once, whose row satisfies every term of every ON (in the scope of the tables so far) and of the WHERE as written; it fails only if a term cannot be compared or the choice refuses every option |
| Products.CrossMeans | src/executor.cpp:446-652 | The product of the tables has a row for every way to take one of each, once |
| KeyOrder.NoSortNeeded | src/executor.cpp:815-820 | A source in key order is left unchanged by the stable sort on the key and anything after it |
| SqlLexer.Lexer.Tokenize | src/lexer.hpp:38-46 | The tokens the text's specification says, or an error where that has one |
| SqlLexemes.LexMeans | src/lexer.hpp:36-215 | Those are the tokens of a text if and only if it is blanks and lexemes, none of which what follows would make longer: a keyword letter by letter in either case, a name that is no keyword in any case, an integer of 64 bits, a decimal, a quoted string with its quotes doubled, a symbol |
| SqlLexemes.KeywordAnyCase | src/lexer.hpp:178-215 | Every word that is a keyword letter by letter in either case lexes to it |
| SqlText.UnparseLexes | src/unparse.hpp:34-137 | The text a statement is printed as lexes to its tokens: quotes doubled, 64-bit minimum, names beside keywords, every operator |
| SqlText.ScriptLexes | src/unparse.hpp:81-137 | So does the text of several statements with semicolons between them |
| SqlParser.ParseText | src/parser.cpp:53-80 | A text is accepted if and only if it is tokens that spell some statement by the grammar, to the end, perhaps with a semicolon, whatever optional words (AS, INNER, ASC, NULL) stand in their places and in whatever case keywords and aggregates are written; and that statement is what is returned, well formed enough to print |
| SqlParser.SpellsOnce | src/parser.hpp:11-32 | The grammar is unambiguous: no text spells two statements |
| SqlParser.CaseSpells | src/lexer.hpp:178-184 | A text with its keywords in another case spells the same statements and scripts |
| SqlParser.PrintedSpells | src/unparse.hpp:34-137 | The text a statement is printed as spells that statement |
| SqlParser.Reparse | src/parser.cpp:53-80 | Whatever text parses, printing it and parsing that gives the same statement |
| SqlParser.ParseScriptText | src/parser.cpp:43-51 | The same if and only if for scripts, statements with a semicolon after each, except perhaps the last: what is returned is the one script the text spells |
| SqlParser.SpellsScriptOnce | src/parser.cpp:43-51 | No text spells two scripts |
| SqlParser.PrintedSpellsScript | src/unparse.hpp:81-137 | The text several statements are printed as spells them |
| SqlParser.ReparseScript | src/parser.cpp:43-51 | Whatever script parses, printing it and parsing that gives the same statements |
| SqlParser.Parser.ParseSelect | src/parser.cpp:261-334 | If the tokens up to some place where a statement may end spell a SELECT, with every clause present or absent and every optional word written or not, that is what is returned, and the parser stops there; and the tokens taken always spell what is returned |

## Left out

The whole model:
- I/O errors, interrupted and short reads, and the demonstration switches: every write is issued whole, and a crash is what cuts it.
- Checksums are ideal (src/wal.cpp:35-50): a log slot holds a whole frame or nothing valid, and a torn write over the same content is harmless. The database file has none: a torn block reads as any page with its own id or none, and a torn meta page as one with any counts and roots, for its magic and database id are the same in both versions. A generation drawn fresh is greater than any in the file, and generations do not wrap.
- Creating a database (src/pager.cpp:44-70): the crash runs begin with a file that has its meta page; the check of the log's database id is not part of this model either.
- 32-bit row, group and frame numbers: fewer than 2^32 of each are assumed, and page ids do not wrap.
- Counters, EXPLAIN text, error wording and positions (line and column of a token).
- Heap pages, the catalog's directory page, INSERT and CREATE as executed, and the shell.

Storage:
- PageStore.Pager.constructor: does not model a durability changed in mid-session (set_durability); recovery runs as Full, which is the code's default when the constructor runs (src/pager.hpp:147).
- PageStore.Pager.ReadPage: an id outside the file, and a page whose own id is another's, are preconditions, not errors.
- PageStore.Pager.SetBtreeRoot: stands for the heap and catalog roots too, which are set the same way.
- PowerLoss.AtRestInAnyOrder: the harsher power cut is proved of sessions that opened on synced files under Full, and up to the truncation at close. The writes to one location are taken in issue order, any of them lost or torn, which covers every order of writes to different locations.
- PowerLoss.CommitInAnyOrder: the equivalence is about which frames are redone; about contents it goes one way, since redoing other frames can give the same contents.
- PagePool.BufferPool.Unpin: a change made through a pin takes effect at the unpin; between the two the model does not say what others see.
- PagePool.BufferPool.AllocatePage: when every frame is pinned the page allocated is in nobody's use until the transaction is rolled back, as in the code.
- PagePool.BufferPool.Commit: the pool's sync and destructor are not modelled.
- BTreeIndex.BTree.Insert: nodes hold sequences of entries; the byte offsets inside a page are not modelled. The pages come from a pool held in the tree object.
- BTreeIndex.BTree.Seek: a cursor is proved right while the tree does not change.
- DuplicateTree.NonUniqueTree.Insert: what the chain is after a second misrouted insertion is stated (`ChainAfter`) but not compared with the leaves; deletion is refused by the code for such trees (src/btree.cpp:196-199).
- SlottedPages.SlottedPage.constructor: two-byte numbers are little-endian; the code stores them in the host's order.
- RecordCodec.Encode: a DOUBLE is one of a set of numbers held exactly, with a code below 2^64; NaN and negative zero are not numbers here.
- RecordCodec.RunReadsBack: decode_to, which decodes one record into a batch, is not modelled apart from it.

Operators:
- Rows.ComparedMeans: a 64-bit integer is compared with a decimal exactly; the code rounds it to a double first (src/record.hpp:106-108), which differs past 2^53.
- Batches.Batch.SelectAll: a batch is its rows and a selection; the columnar layout is not modelled, nor is Project or the adapters between row and batch plans.
- JoinOperators.HashJoin.Open: requires an ON without DOUBLE columns, which no table can declare (src/executor.cpp:40); masks are taken as remainders by a power of two, and hash and mixing functions are arbitrary.
- HashGroups.HashAggregate.Open: which aggregate an overflow is reported for is not modelled; it can differ between the two paths. AVG divides by an arbitrary function. The flat array of states is a sequence a group. IndexMinMax is not modelled.
- SortOperator.Sort.Open: std::sort, push_heap and pop_heap are taken by contract (a sorted rearrangement, a heap); the folding of a DOUBLE is any monotone function.
- Cursors.TableCursor.Fill: the heap is the list of its live rows and the pages they are on.
- Cursors.IndexCursor.Seek: the entries are taken in key order, as an index's are (but see the first finding).

Planner:
- PlanAccesses.PlanAccess: costs and estimates are not modelled; any candidate may be chosen. An index is taken to hold exactly the rows whose column is not NULL.
- PlanJoins.PlanFrom: joins forced by the reference planner are choices like any other; the literal plans of plan_join, HAVING and aggregation planning, coercion, the check that labels are distinct and the 64-table limit are not modelled. A choice may refuse, as a forced algorithm that does not apply does.
- KeyOrder.NoSortNeeded: is about one table read in key order; the order of scans by other indexes is not spoken of.

SQL:
- SqlText.UnparseLexes: decimals are an abstract pair of showing and reading, assumed to be inverse, since std::to_chars and from_chars are not part of this model.
