# A verified model of the OpenAFS cache manager's core

This project models the hardest parts of the OpenAFS Unix cache manager (`src/afs`) in Dafny
and proves what they promise, over whole runs where the code runs for ever. Routines that
change things step by step are classes and methods with loops, proved against functions and
state machines on values; the theorems about runs are lemmas about those.

- **Callback timing wheel** (`Queues`, `CallbackWheel`, `CallbackQueue`, `CallbackRuns`,
  `CallbackDaemon`): `afs_cbqueue.c` on real doubly linked rings, proved to do what a
  128-slot wheel of lists does; then every run of grants, stalings and daemon rounds, and how
  long a file can stay marked valid after its callback has expired.
- **Directory buffers** (`PagePool`, `PoolRuns`, `PoolWalks`, `BufferCache`): every routine of
  `afs_buffer.c` is a sequence of the steps that its locks make atomic, and any interleaving of
  those refines a flat store and disk of (file, page) contents; no store is lost through eviction,
  growth or flushing.
- **Background requests** (`RequestSlots`, `BackgroundDaemon`): claims happen once each, in the
  order of queueing, although the 32-bit counter wraps.
- **Choosing a replica and retrying** (`RetryMeasure`, `RetryModel`, `RetryRuns`, `Failover`,
  `Retry`, `Connections`): `afs_Conn` and `afs_Analyze`, when a call is made again and to whom, a
  bound on how often, the outcomes for which there is none, and the connections handed out and
  put back.
- **Replay after disconnected operation** (`Resync`, `ResyncSends`, `ResyncProgress`, `DirtyList`):
  the order in which creations and removals reach the server, that no change is dropped, and
  exactly when the dirty list empties.
- **New fids for files made offline** (`HashChains`, `FidTables`): every table and directory that
  named the file by its made-up fid names it by the server's, on the real arrays of chains.
- **The made-up `/afs` directory** (`DirLayout`, `DirBits`, `DynrootDir`, `Dynroot`,
  `DynrootVersion`): the two-pass builder and its version tag.
- **Reads that bypass the cache** (`Bypass`), **cell numbers on disk** (`CellNames`), **access
  cache lists** (`AccessCache`), **chunk arithmetic** (`Bits`, `Chunks`).

`Basics` and `Seqs` hold what several of them share. `dafny verify dfyconfig.toml` checks the
whole project.

Eight promises turned out not to hold of the code as it is. Each is kept as it is in the code,
shown by a concrete case, and given the condition under which it does hold:

- A file created through `afs_create` is filed under a hash of its *absolute* expiry time, so it
  may land in any slot: `CreatedKeepsExactly` says when the slot is right and
  `CreatedOutlivesGrace` shows a file staying valid beyond the server's grace period.
- A `DRead` that succeeds may return a buffer that belongs to no page (`SecondReadSucceeds`),
  exactly when it waited for a buffer and the read that was filling it failed (`TakenExactly`).
- `DFlushDCache` may leave a dirty page of the file unwritten, because it lets other threads
  change the chain it walks (`PassedOver`); `FlushReaches` says which steps do that.
- Calls are not always given up: every outcome that is not bounded is repeated for ever by some
  request (`UnboundedRepeats`), and the bounded ones by none (`BoundedExactly`).
- `afs_GetDynroot` reports the current version even when the directory it hands out is older
  (`ReportedVersionMayBeAhead`); the two agree if and only if nothing was invalidated since the
  rebuild began (`ReportedVersionExactly`).
- A name of 2004 characters or more in `/afs` is written over the end of its page (`TooLongName`),
  one of 2000 to 2003 is marked beyond its page's bitmap (`TooManyBits`), and a listing of more than
  128 pages is counted beyond the end of `alloMap` (`TooManyPages`); nothing else is
  (`InPageExactly`, `InBitmapExactly`, `InAlloMapExactly`).
- Reading a cell number of 2147483647 makes the next cell number wrap (`MaxBreaksOrder`), and
  nothing else does (`LoadTidy`).
- A connection vector counts in a `short`, so 65536 connections count as none (`CountWraps`); a
  count of 0 means none below that (`FreeIsSafe`).

## Model

| member | source | states |
|---|---|---|
| Queues.QAdd | src/afs/afs.h:219-220 | a well formed ring stays one and gains the entry right after the head, all other entries in order |
| Queues.QRemove | src/afs/afs.h:221 | unlinking by the entry alone removes exactly that entry from its ring and zeroes its pointers |
| Queues.QCat | src/afs/afs.h:225-227 | all of one ring, in order, goes behind the other ring's entries and the first ring is empty |
| CallbackWheel.CheckAllEffect | src/afs/afs_cbqueue.c:199-253 | after a walk over base slot entries a read-write one still there is good for the look-ahead, one that moved is in a slot that begins no later than it expires, one still valid is still queued, and everything not visited is unchanged |
| CallbackWheel.CheckAllExactly | src/afs/afs_cbqueue.c:199-253 | for every entry of the base slot, read-only or not: it is valid afterwards if and only if it was and is good for the look-ahead, or its volume is, or all servers of its volume are down; its expiry becomes the volume's exactly when that renews it; and the slot it is on, if any, follows from its expiry |
| CallbackWheel.QueueEffect | src/afs/afs_cbqueue.c:110-121 | a vcache on no slot joins the one atime ahead of the base and others stay; the volume's expiry becomes at least the vcache's, and no other changes |
| CallbackWheel.BumpOnceEffect | src/afs/afs_cbqueue.c:390-398 | one bump puts the old base slot's entries in the next one and every other slot one step nearer; nothing leaves the wheel or joins it |
| CallbackWheel.BumpBaseEffect | src/afs/afs_cbqueue.c:381-403 | afterwards basetime is at most 107 seconds behind the clock and, if it moved, at most 19 ahead; it moves 127 seconds a slot; exactly the same entries are queued, and those not in the base slot have stayed where they were |
| CallbackWheel.BucketNoLongerThanTable | src/afs/afs_cbqueue.c:199-255 | no slot ever holds more entries than there are vcaches, so a sanity limit of at least that many never trips |
| CallbackQueue.CBQueue.QueueCallback | src/afs/afs_cbqueue.c:110-121 | on the linked queue: raises the volume's expiry and files the vcache in slot (atime + base) mod 128 unless it is on a chain already; the rings stay well formed |
| CallbackQueue.CBQueue.DequeueCallback | src/afs/afs_cbqueue.c:135-145 | takes the vcache off whichever ring it is on, and only it |
| CallbackQueue.CBQueue.StaleVCacheFlags | src/afs/afs_vcache.c:3028-3083 | clears CStatd, dequeues unless told not to, and drops the callback server if asked; nothing else changes |
| CallbackQueue.CBQueue.CheckCallbacks | src/afs/afs_cbqueue.c:187-267 | the backward walk, during which entries leave the ring, visits every entry of the base slot exactly once; each is then as `CheckAllExactly` says; past the sanity limit everything is flushed |
| CallbackQueue.CBQueue.BumpBase | src/afs/afs_cbqueue.c:381-403 | the loop on rings does what the wheel's bump does, and reports whether it moved the base |
| CallbackQueue.CBQueue.FlushCBs | src/afs/afs_cbqueue.c:291-310 | no vcache stays valid, with a server, or queued; the wheel starts again at slot 0 and the current time |
| CallbackQueue.CBQueue.AbsWellFormed | src/afs/afs_cbqueue.c:49-60 | the linked structure always stands for a wheel in which every vcache is on at most one slot, once |
| CallbackDaemon.Daemon.Check | src/afs/afs_daemons.c:171 | one daemon check on the linked queue is the check step of the run model |
| CallbackDaemon.Daemon.Bump | src/afs/afs_daemons.c:181-187 | one daemon bump test, the bump with its own reading of the clock and the second check are the bump step of the run model |
| CallbackRuns.StepKeeps | src/afs/afs_cbqueue.c:49-60 | every grant, staling, flush, check, bump and change of a server's state keeps the slot bound for any set of vcaches: an entry d slots ahead of the base expires no sooner than that slot begins, up to the stated slack |
| CallbackRuns.RunKeeps | src/afs/afs_daemons.c:170-187 | the slot bound holds after every run of grants, stalings, flushes and timely daemon rounds, in any order |
| CallbackRuns.ExpiryBound | src/afs/afs_cbqueue.c:31-60 | in every run with daemon rounds at most `period` apart and grants stamped at most `lag` before the last bump, no read-write vcache is still valid more than 126 + period + lag seconds after its callback expired |
| CallbackRuns.DueBound | src/afs/afs_cbqueue.c:199-230 | the same for every vcache, with servers going down and coming up: no vcache is still valid that much later than its own and its volume's callback, unless it is read-only and all servers of its volume are down or one came up within the last period |
| CallbackRuns.ReadOnlyBound | src/afs/afs_cbqueue.c:204-224 | so a valid read-only vcache of a volume with a server up is within the bound of its own callback or its volume's |
| CallbackRuns.BumpsExactly | src/afs/afs_daemons.c:181-187 | the base moves if and only if more than 128 seconds have passed since the last try and basetime is at least 108 behind; otherwise nothing changes |
| CallbackRuns.WithinServerGrace | src/afs/afs_cbqueue.c:31-33 | with period + lag at most 54 seconds that is within the three minutes the server adds |
| CallbackRuns.FreshAfterBump | src/afs/afs_daemons.c:181-187 | right after a bump and its check nothing read-write on the wheel had expired at the time of the bump |
| CallbackRuns.CreatedKeepsExactly | src/afs/VNOPS/afs_vnop_create.c:452-457 | a grant hashed by its absolute expiry keeps the slot bound if and only if the slot this selects does not begin after the expiry |
| CallbackRuns.CreatedStaysLive | src/afs/VNOPS/afs_vnop_create.c:452-457 | otherwise any number of punctual daemon rounds leaves the file valid until the clock reaches the slot |
| CallbackRuns.CreatedOutlivesGrace | src/afs/VNOPS/afs_vnop_create.c:331 | a concrete run, in January 2025, in which a created file is still valid more than 180 seconds after its callback expired |
| PagePool.RefiledKeeps | src/afs/afs_buffer.c:390-400 | reusing an unheld clean buffer for another page changes no page of the flat store: until it is filled, the page it is for still reads from disk |
| PagePool.ViewFilling | src/afs/afs_buffer.c:231-261 | while a page is being read in, its contents are still those on disk |
| PagePool.FlushedKeeps | src/afs/afs_buffer.c:468-479 | writing a buffer out changes no page of the flat store |
| PagePool.CleanViewIsDisk | src/afs/afs_buffer.c:506-543 | where no buffer of a page is dirty or has unsettled stores, the flat store is what is on disk |
| PagePool.FourChains | src/afs/afs_buffer.c:58-67 | all buffers of a file are on the four chains that share the file's part of the hash, which is why zapping or flushing a file visits only those |
| BufferCache.DirBuffers.constructor | src/afs/afs_buffer.c:109-148 | an empty pool that stands for what is on disk |
| BufferCache.DirBuffers.Sound | src/afs/afs_buffer.c:150-575 | whatever routines have been called, the recorded steps lead from the initial pool to the present one, so the invariant of the runs holds |
| BufferCache.DirBuffers.DRead | src/afs/afs_buffer.c:150-268 | unless somebody is just reading the page in: on success the caller holds a buffer with the page's current contents; 0 exactly if the page is cached, or there is room, the directory is not empty, the page begins before its end and is on disk; ENOENT exactly if it begins at or after the end; otherwise EIO; so a page of the store within the length is always read; every page of the store stays as it was, and no one else's reference count changes |
| BufferCache.DirBuffers.BeginRead | src/afs/afs_buffer.c:150-234 | in every state, also while somebody fills the page's buffer: if the page is cached DRead waits for its buffer and no buffer has changed; if not it has claimed one, referred to once, or fails with EIO exactly if there is no room |
| BufferCache.DirBuffers.ClaimSlot | src/afs/afs_buffer.c:225-233 | the first half of a DRead that misses is exactly the claim step: the buffer is filed under the page, locked and referred to once |
| BufferCache.DirBuffers.Fill | src/afs/afs_buffer.c:234-267 | its second half, without afs_bufferLock: the page's contents, or the buffer given up, with the code given exactly by the directory's length and the disk; no page of the store changes |
| BufferCache.DirBuffers.ReadIn | src/afs/afs_buffer.c:249-267 | the first of these is exactly the read step |
| BufferCache.DirBuffers.Abandon | src/afs/afs_buffer.c:242-261 | the second is exactly the fail step |
| BufferCache.DirBuffers.MatchBuffer | src/afs/afs_buffer.c:172-174 | the first half of a DRead that hits is exactly the match step |
| BufferCache.DirBuffers.TakeBuffer | src/afs/afs_buffer.c:174-182 | the second half of a DRead that hits is exactly the take step, stamped with the time counter |
| BufferCache.DirBuffers.FindSlot | src/afs/afs_buffer.c:295-388 | fails if and only if every buffer is held and the pool cannot grow; otherwise an unheld buffer, written out if dirty, all pages and reference counts unchanged |
| BufferCache.DirBuffers.Victim | src/afs/afs_buffer.c:305-351 | the victim is unheld and, unless the time counter has wrapped since the access times restarted, no unheld buffer's last use was earlier, whatever the hint |
| BufferCache.DirBuffers.DNew | src/afs/afs_buffer.c:545-575 | the caller holds a zeroed buffer for a page that had none, the only page changed, and the directory grows to cover it |
| BufferCache.NewReadable | src/afs/afs_buffer.c:546-575 | a page made by DNew is, after any run that neither zaps nor overwrites it, cached or on disk as made, and within the length DNew left, so that DRead gives it |
| BufferCache.DirBuffers.StoreData | src/dir/dir.c:124-145 | a holder's store is exactly the store step: that page of the flat store and no other |
| BufferCache.DirBuffers.DRelease | src/afs/afs_buffer.c:404-421 | exactly the release step: one reference fewer, and a dirty release settles the holder's stores |
| BufferCache.DirBuffers.DZap | src/afs/afs_buffer.c:446-466 | no buffer of the file is left, its pages read from disk again, other files are untouched |
| BufferCache.DirBuffers.DFlush | src/afs/afs_buffer.c:506-543 | every buffer is clean, no page of the store has changed, and disk equals the store wherever no holder has unsettled stores |
| BufferCache.DirBuffers.DFlushDCache | src/afs/afs_buffer.c:481-504 | left alone, it writes out all pages of the file, all of whose buffers are on the chains visited, and nothing else changes |
| PoolWalks.AheadExactly | src/afs/afs_buffer.c:270-292 | a buffer ahead of a walk on its chain is still ahead of it after a step of any thread if and only if the step does not move it to the front, give it to another page, or give the walked buffer to a page of another chain |
| PoolWalks.WalkExactly | src/afs/afs_buffer.c:489-501 | a walk that lets any steps happen at each stop keeps a buffer ahead until it visits it if and only if no step overtakes the buffer before |
| PoolWalks.FlushReaches | src/afs/afs_buffer.c:481-504 | the same for the four chains of a file, walked one after the other: a buffer of the file stays on its chain, ahead of the walk, and is visited, if and only if none of those steps happens to it before |
| PoolWalks.PassedOver | src/afs/afs_buffer.c:489-501 | a concrete walk of two dirty buffers in which a DRead moves the second to the front while the first is written, and the walk ends with the second still dirty |
| PoolRuns.StepRefines | src/afs/afs_buffer.c:150-575 | every step of the pool is one step of the flat store and disk, named by file and page: a write, a write-back, a discard or nothing |
| PoolRuns.RunRefines | src/afs/afs_buffer.c:150-575 | after any interleaving of steps the pool stands for what those named operations alone make of the store and disk it stood for before |
| PoolRuns.NoLostStore | src/afs/afs_buffer.c:295-543 | a stored page reads back as stored after any run that does not write or discard it, and once clean and settled that is what is on disk |
| PoolRuns.WaitedExactly | src/afs/afs_buffer.c:174-182 | a DRead that waits for a buffer still finds the page in it if and only if no read that was filling the buffer has failed since |
| PoolRuns.TakenExactly | src/afs/afs_buffer.c:174-182 | it then returns with the page's contents if none has failed, and otherwise with a buffer that belongs to no page |
| PoolRuns.SecondReadSucceeds | src/afs/afs_buffer.c:241-261 | a concrete interleaving of two DReads of an unreadable page in which the second succeeds with such a buffer |
| PoolRuns.LeastRecentlyUsed | src/afs/afs_buffer.c:315-333 | over every run in which the time counter rises, access times are in the order of the buffers' last uses |
| RequestSlots.ComparisonIsAge | src/afs/afs_daemons.c:1072-1083 | the 32-bit difference of two waiting requests' timestamps orders them by age, wherever the counter has wrapped |
| RequestSlots.ClaimsInOrder | src/afs/afs_daemons.c:1072-1121 | in every run the k-th claim is the k-th request queued: each is claimed once, in order |
| RequestSlots.SlotKeptWhileHeld | src/afs/afs.h:155-160 | through any run a slot keeps its request unless there was a moment at which neither a user nor the daemon held it |
| RequestSlots.BusySlotNotFree | src/afs/afs_daemons.c:653-660 | a slot is free for reuse exactly when no user and no daemon holds its request |
| BackgroundDaemon.Requests.BQueue | src/afs/afs_daemons.c:643-689 | takes the first free slot, or reports that there is none; otherwise exactly the queue step |
| BackgroundDaemon.Requests.FindOldest | src/afs/afs_daemons.c:1072-1083 | the scan finds the request queued earliest, and nothing only when nothing waits |
| BackgroundDaemon.Requests.Claim | src/afs/afs_daemons.c:1084-1091 | marks that request started, which still has the opcode it was queued with: exactly the claim step; no other slot changes |
| BackgroundDaemon.Requests.BRelease | src/afs/afs_daemons.c:619-631 | drops one reference and clears the flags with the last one: exactly the release step |
| Retry.Request.Choose | src/afs/afs_conn.c:270-344 | finds an address if and only if some host is up, not skipped and at a level of not_busy: host 0's first if it is good, else the first of the lowest rank at the lowest level; a search notes exactly whether it met busy and offline hosts |
| RetryModel.ChosenUnique | src/afs/afs_conn.c:305-342 | that address is unique |
| RetryRuns.ChosenExists | src/afs/afs_conn.c:305-342 | and there is one whenever any is usable |
| Retry.Request.Connect | src/afs/afs_conn.c:352-362 | with the address comes one more reference on a connection to it, counted in its vector |
| Retry.Request.WaitForBusy | src/afs/afs_analyze.c:452-488 | every replica but the offline ones is eligible again; retried if and only if there is one and fewer than 101 waits have passed |
| Retry.Request.BlackListOnce | src/afs/afs_analyze.c:246-275 | exactly the server and those whose first address is down become skipped; reports whether any host is left |
| Retry.Request.MarkMissing | src/afs/afs_analyze.c:801-812 | the server's replicas move one level on, from the last level to offline; the others start afresh only if the VLDB has changed |
| Retry.Request.AnalyzeFailure | src/afs/afs_analyze.c:613-847 | for every failure code: whether to retry, and exactly the request and replicas that result |
| Retry.Request.AnalyzeNoConnection | src/afs/afs_analyze.c:452-584 | without a connection: retried only while waiting for a busy volume; otherwise an error is recorded |
| Retry.Request.AnalyzeCall | src/afs/afs_analyze.c:495-852 | the same for every outcome; where the connection has lost its server, after a success, and at the end, the connection is put back, so exactly once on every path, and its vector still counts what is handed out |
| Failover.RetriedExactly | src/afs/afs_analyze.c:625-848 | a call is made again if and only if its code is one of those listed; after an idle timeout if and only if it may be repeated or the volume is read-only, and a replicated volume has another host, not skipped, whose first address is not down |
| Failover.IdleExactly | src/afs/afs_analyze.c:629-657 | exactly the server that idled out and those known to be down are skipped from then on; counted only for a read-only volume |
| Failover.BusyExactly | src/afs/afs_analyze.c:668-697 | exactly the replicas on the busy server become busy, and the count follows the code |
| Failover.TokenExactly | src/afs/afs_analyze.c:698-751 | a server that refuses a known user's token is skipped while another is left, and the count starts again when none is |
| Failover.MissingExactly | src/afs/afs_analyze.c:785-813 | every replica's new status after a missing volume, with the old hosts and with new ones |
| Failover.DownExactly | src/afs/afs_analyze.c:661-666 | exactly the address that was called is taken for down |
| Failover.LostExactly | src/afs/afs_analyze.c:495-584 | without a server: when the call is made again and when the network is blamed |
| Failover.UnconnectedExactly | src/afs/afs_analyze.c:452-584 | without anybody to call: when the request waits, what becomes eligible, and what is recorded |
| Failover.IdleFailsOver | src/afs/afs_analyze.c:629-657 | after an idle timeout of a read-only volume the next turn does not choose the server that timed out, and chooses somebody if another host has a usable address |
| Failover.FailsOver | src/afs/afs_analyze.c:661-751 | the next turn does not choose a server that was just busy, or refused the token while others are left, nor an address that just failed |
| Failover.MissingFailsOver | src/afs/afs_analyze.c:785-813 | where the volume is missing, every usable replica as good is asked before that one again |
| Failover.SearchedExactly | src/afs/afs_conn.c:270-344 | what a search notes about busy and offline hosts that are not passed over |
| Retry.Request.CallOnce | src/afs/afs_analyze.c:404-411 | afs_Conn, the call and afs_Analyze together are one turn of the run model, and leave no connection handed out |
| Retry.Request.CallLoop | src/afs/afs_analyze.c:404-411 | if no outcome is one that is repeated without bound, the loop ends within (c + 1) * 102 * (n + 2) turns for c changes of the VLDB entry and lists of size at most n; it ends with a final code, after an idle timeout of a read-only volume with every host skipped, or with an error recorded or every host offline, and every connection handed out has been put back |
| RetryRuns.CallRunsDown | src/afs/afs_analyze.c:613-847 | a retry after any outcome of a call that is bounded leaves less: levels, addresses that are up, hosts not skipped |
| RetryRuns.RunBound | src/afs/afs_analyze.c:404-411 | the same bound for every sequence of bounded outcomes that are all retried |
| RetryRuns.RepeatsForAsLong | src/afs/afs_analyze.c:629-657 | packets that are too big, dead tokens and idle timeouts on a read-write volume are repeated n times, for every n, from every request that can make a call |
| RetryRuns.UnboundedRepeats | src/afs/afs_analyze.c:629-751 | for every outcome that is not bounded, also rxkad errors of a known user, idle timeouts on a backup volume and restarting servers, there is a request that repeats it for ever |
| RetryRuns.BoundedExactly | src/afs/afs_analyze.c:586-852 | an outcome that leaves the volume's hosts alone is bounded if and only if no request repeats it for ever |
| RetryMeasure.SumDecreases | src/afs/afs_conn.c:311-319 | if no replica got further from being given up and one got nearer, the measure of the replicas is smaller |
| Resync.TurnOutcome | src/afs/afs_disconnected.c:1145-1160 | an entry that waits for another is left untouched, and deferred unless a lookup fails; one that does not wait is never deferred |
| Resync.RunInOrder | src/afs/afs_disconnected.c:1120-1264 | whatever the calls return: a creation is sent at most once successfully and only below a parent on the server, a directory is removed only after everything dirty that was in it, nothing finishes twice, or without its removal or else its creation, renaming and, if it is new, storing, and everything unfinished stays on the list |
| ResyncSends.TurnSends | src/afs/afs_disconnected.c:1145-1222 | exactly what a turn sends, in which order, and when it finishes the entry |
| ResyncSends.FinishStores | src/afs/afs_disconnected.c:1200-1213 | in every run, an entry not to be removed that finishes in a turn whose changes are to be sent, or that was made offline, is stored in that turn before it finishes; otherwise nothing is stored in it |
| ResyncSends.AllStored | src/afs/afs_disconnected.c:1200-1213 | if changes are always to be sent, every entry that has finished and was not to be removed has been stored before |
| ResyncSends.NoneStored | src/afs/afs_disconnected.c:1200-1222 | if they never are, only entries made offline are stored |
| ResyncProgress.SomeoneFree | src/afs/afs_disconnected.c:1136-1252 | if no entry waits for itself through others, some entry on the list waits for nothing |
| ResyncProgress.RotationFinishesOne | src/afs/afs_disconnected.c:1136-1252 | then, when the calls succeed, as many turns as there are entries finish at least one |
| ResyncProgress.EmptiesIffAcyclic | src/afs/afs_disconnected.c:1136-1264 | when the calls succeed the list is emptied, within n + (n - 1) + ... + 1 turns, if and only if no entry waits for itself through others |
| ResyncProgress.CycleStays | src/afs/afs_disconnected.c:1237-1241 | the entries of a cycle are deferred for ever, whatever the calls return |
| ResyncProgress.TreesAcyclic | src/afs/afs_disconnected.c:530-534 | nothing waits for itself when parents and shadow directories form trees and nothing is both to be created and to be removed |
| ResyncProgress.BothMayBlock | src/afs/afs_disconnected.c:942-948 | with an entry that is both, trees do not suffice: a concrete cycle |
| DirtyList.Discon.AddDirty | src/afs/discon.h:49-62 | a vcache is on the dirty list exactly while it has dirty flags, once |
| DirtyList.Discon.CheckDeletedChildren | src/afs/afs_disconnected.c:312-388 | reports a dirty child if and only if the shadow directory names one |
| DirtyList.Discon.ProcessOpRemove | src/afs/afs_disconnected.c:919-1008 | the removal turn of the model, including what is sent |
| DirtyList.Discon.ReplayOne | src/afs/afs_disconnected.c:1145-1222 | one entry's turn: the model's code, flags and messages |
| DirtyList.Discon.ResyncDisconFiles | src/afs/afs_disconnected.c:1120-1264 | the loop ends, short of calls that return EAGAIN, as the corresponding run of the model; with code 0 exactly when the list is empty; empty when the calls succeed; if changes are always to be sent, everything that has left the list and was not to be removed has been stored, and if never, only what was made offline |
| HashChains.Chains.Remove | src/afs/afs_dcache.c:964-1003 | on the arrays of first and next items: the item leaves its chain, found by its predecessor, and every other chain and the order on this one stay |
| HashChains.Chains.Push | src/afs/afs_disconnected.c:876-884 | an item that is on no chain becomes the first of one, all else as before |
| HashChains.WalkOn | src/afs/afs_disconnected.c:861-862 | while a chain is walked and items leave it or come to its front, what is ahead of the walk stays ahead |
| FidTables.Tables.constructor | src/afs/afs_dcache.c:3548-3555 | empty tables in which every vcache and slot, there being none, is filed under its fid |
| FidTables.Tables.FileVcache | src/afs/afs_vcache.c:984-989 | a new vcache is filed under its fid in both vcache tables, every other one as before |
| FidTables.Tables.FileSlot | src/afs/afs_dcache.c:2205-2213 | a slot taken for a chunk is filed under its fid and chunk in both dcache tables, every other one as before |
| FidTables.Tables.FindVCache | src/afs/afs_vcache.c:2544-2649 | the chain search finds a vcache with the fid if there is one |
| FidTables.Tables.FindDCacheByFid | src/afs/afs_disconnected.c:64-92 | the chain search finds a slot of the file if there is one |
| FidTables.Tables.FindDCache | src/afs/afs_dcache.c:1561-1600 | the chain search finds the slot of a file's chunk if there is one |
| FidTables.Tables.RekeyVcache | src/afs/afs_disconnected.c:825-854 | both vcache tables file the vcache under its new fid, and every other one as before |
| FidTables.Tables.RekeySlot | src/afs/afs_dcache.c:955-1019 | the slot leaves both of its chains and is filed under the new fid in both tables, no other slot moving |
| FidTables.Tables.RekeySlots | src/afs/afs_disconnected.c:858-890 | walking the old fid's chain while its slots leave it, all slots of the old fid, and no others, come to be filed under the new fid in both dcache tables |
| FidTables.Tables.FixChildrenFids | src/afs/afs_disconnected.c:393-467 | exactly the files named in the directory get the new fid as parent, and exactly the directories named in it get it as ".." |
| FidTables.Tables.ProcessOpCreate | src/afs/afs_disconnected.c:790-894 | lookups by the new fid find the vcache and all its chunks, nothing answers to the old one; exactly the file's entry in its parent, its own "." and the ".." of the directories in it get the new vnode and uniquifier, and exactly the vcaches of the files in it get them as parent; no entry for the file has the old ones |
| FidTables.Tables.GenFakeFid | src/afs/afs_disconnected.c:1420-1450 | the vnode number has the parity of its kind, and no vcache of the volume has both numbers unless the uniquifier wrapped to 0, which happens exactly when the chain holds the largest one |
| DirLayout.PlaceLaid | src/afs/afs_dynroot.c:202-213 | the entries are in order, overlap neither each other nor a header, and do not cross a page, if and only if every name fits a page |
| DirLayout.BlobsExactly | src/dir/dir.c:84-89 | n blobs hold names of up to 32n - 17 characters |
| DirLayout.Packed | src/afs/afs_dynroot.c:232-255 | each entry is next to the one before unless it does not fit there; then it is the first of the next page |
| DirLayout.InPageExactly | src/afs/afs_dynroot.c:232-264 | the bytes of every entry end within its page if and only if no name is longer than 2003 characters |
| DirLayout.InBitmapExactly | src/afs/afs_dynroot.c:235-274 | the bits that mark the entries are among the 64 of their pages' bitmaps, and the counts never go below 0, if and only if every name has fewer than 64 blobs |
| DirLayout.InAlloMapExactly | src/afs/afs_dynroot.c:235-274 | every page in use has one of the 128 counts of alloMap if and only if there are at most 128 pages |
| DirLayout.NoneShared | src/afs/afs_dynroot.c:235-264 | no blob belongs to two entries, or to an entry and a header |
| DirLayout.PrefixPage | src/afs/afs_dynroot.c:398-399 | no entry lies beyond the pages the whole list needs |
| DynrootDir.DynDir.AddDirEnt | src/afs/afs_dynroot.c:220-280 | the directory then holds one item more: cursor, bitmap, free counts and hash chains all agree with the layout |
| DynrootDir.DynDir.FindItem | src/dir/dir.c:603-664 | looking a name up along its chain finds the item listed last under it, or nothing if none is |
| DirBits.ChainFinds | src/afs/afs_dynroot.c:268-273 | the chain a name hashes to leads to the item listed last under that name |
| DirBits.FindsOwnExactly | src/afs/afs_dynroot.c:268-273 | looking an item's name up arrives at that item if and only if no later item has the name |
| Dynroot.ComputeSize | src/afs/afs_dynroot.c:338-398 | the sizing pass ends at the cursor to which writing the same listing leads |
| Dynroot.SecondPassFits | src/afs/afs_dynroot.c:408-465 | the listing of the second pass, from which cells may have been hidden since the first, ends no later than what the first allocated |
| Dynroot.Rebuild | src/afs/afs_dynroot.c:319-476 | the directory has exactly the pages the sizing pass found, and what the writing pass lists stays within them, also if cells were hidden in between; bitmap and counts mark exactly headers and entries, and every entry is on its hash chain |
| Dynroot.TooManyPages | src/afs/afs_dynroot.c:235-255 | there are 65 different aliases, each of which fits a page, whose listing ends on a page that has no alloMap entry |
| Dynroot.TooLongName | src/afs/afs_dynroot.c:235-264 | with a single alias of 2004 characters or more, whichever it is, its entry runs over the end of its page |
| Dynroot.TooManyBits | src/afs/afs_dynroot.c:235-274 | with a single alias of 2000 to 2003 characters its entry ends within the page, but the bits for it do not end within the bitmap |
| Dynroot.CellNumberDecodes | src/afs/afs_dynroot.h:19-30 | kind, index and mode are read back from a cell's or alias's vnode number if and only if the index has at most 22 bits |
| Dynroot.SymlinkNumberDecodes | src/afs/afs_dynroot.h:19-22 | the same for symlinks, with 24 bits |
| Dynroot.ListedExactly | src/afs/afs_dynroot.c:421-476 | a name is listed if and only if it is one of the three fixed ones, that of a cell that is not hidden or of an alias, plain or dotted, or a symlink's |
| Dynroot.FixedFirst | src/afs/afs_dynroot.c:421-427 | the first three entries and their vnode numbers |
| Dynroot.CellLeadsBack | src/afs/afs_dynroot.c:429-452 | a listed cell's name, plain or dotted, arrives at the cell's entry if and only if no later item has that name, and then at a number that decodes to the cell if and only if its index has at most 22 bits |
| Dynroot.AliasLeadsBack | src/afs/afs_dynroot.c:454-469 | the same for aliases |
| Dynroot.LinkLeadsBack | src/afs/afs_dynroot.c:471-476 | the same for symlinks, with 24 bits |
| DynrootVersion.RunKeeps | src/afs/afs_dynroot.c:286-299 | under any interleaving, whatever a rebuild tagged v has read is at least as new as the lists were when version v was reached |
| DynrootVersion.AnswersShow | src/afs/afs_dynroot.c:541-564 | every directory handed out shows every change already invalidated at its tag, so with the tag of the reported version all that the version promises |
| DynrootVersion.ReportedVersionExactly | src/afs/afs_dynroot.c:541-564 | the version reported is the tag of the directory handed out if and only if nothing was invalidated between the beginning of the rebuild installed last and the report |
| DynrootVersion.UndisturbedAnswer | src/afs/afs_dynroot.c:334-564 | a rebuild nothing interferes with answers with the current version and the current lists |
| DynrootVersion.ReportedVersionMayBeAhead | src/afs/afs_dynroot.c:541-564 | a concrete interleaving in which the version reported promises a change that the directory handed out lacks |
| Bypass.CopyFills | src/afs/afs_bypasscache.c:295-324 | a copy stays within its page, its piece and the reply, and puts each byte in its place |
| Bypass.Fetch.CopyReply | src/afs/afs_bypasscache.c:395-446 | however the reads cut the reply into pieces and the request into pages, the wanted pages hold exactly what the reads delivered, byte for byte, all of it up to the reply's end or their own, or, if a read failed, all that came before; the loop ends, and its error is that of the last read |
| Bypass.NoCacheFetchProc | src/afs/afs_bypasscache.c:326-452 | the whole routine: short or oversized announcements are EIO with nothing read; otherwise every byte of the pages is in its place from what the reads, each asking for all that is missing, delivered, or as it was; after a failed read everything delivered before it is in place, and the result is that read's code, or EIO if it delivered nothing |
| CellNames.ParseRecord | src/afs/afs_cell.c:332-359 | a written record, followed by anything, is read back with its number, name and length |
| CellNames.RoundTrip | src/afs/afs_cell.c:332-373 | reading a file that begins with what was written, with any trailing bytes, restores every used cell with its number |
| CellNames.LoadTidy | src/afs/afs_cell.c:228-248 | whatever the file holds, names and numbers are unique and the next number is above them all if and only if no record read carries the largest 32-bit number, or 0 when that number is next |
| CellNames.MaxBreaksOrder | src/afs/afs_cell.c:244-245 | a file of one record after which the next number is negative |
| CellNames.WrittenTidy | src/afs/afs_cell.c:404-433 | a file that holds just what was written never leads to that number |
| CellNames.LoadExtends | src/afs/afs_cell.c:361-370 | loading forgets nothing and never lists a name twice |
| CellNames.CellTable.Init | src/afs/afs_cell.c:303-373 | the offset loop over the file computes the load function |
| CellNames.CellTable.Write | src/afs/afs_cell.c:404-433 | the file begins with the records of the used cells; what lay beyond them stays |
| CellNames.Restart | src/afs/afs_cell.c:303-433 | written and read after a restart, every used cell has its number again; everything is in order exactly when the file, old contents included, does not lead to the largest number, and always if the old file was no longer than the new |
| AccessCache.AxsPool.SlowFind | src/afs/afs_axscache.c:32-55 | the search unrolled by two finds the first entry for the user and moves it, and only it, to the front; without one the list is unchanged |
| AccessCache.AxsPool.Find | src/afs/afs_axscache.h:37 | the same with the quick check of the first entry |
| AccessCache.AxsPool.Alloc | src/afs/afs_axscache.c:58-90 | an entry that is in no list, from the free list or a new slab; no cache list changes and no entry is lost |
| AccessCache.AxsPool.Add | src/afs/afs_axscache.h:41-47 | the new entry is first in its list, the rest follows as before, no other entry's user or rights change, and every entry is still in exactly one list |
| AccessCache.AxsPool.FreeAll | src/afs/afs_axscache.c:140-169 | the whole list, in order, goes before the free list; every entry is still in exactly one list |
| Bits.MaskSplits | src/afs/afs_chunkops.h:29-36 | shifting right and masking with a power of two less one take a number apart, for every number and power |
| Chunks.OffsetParts | src/afs/afs_chunkops.h:29-44 | for every offset and any first chunk size: base plus offset in chunk is the position, the offset in chunk is below the chunk's size, and the base is that of the chunk's number |
| Chunks.ChunksTile | src/afs/afs_chunkops.h:13-19 | chunks cover the file without gap or overlap: an offset lies in a chunk exactly when that is the chunk the macro gives |
| Connections.FindPreferred | src/afs/afs_conn.c:79-107 | the first slot with a call to spare or that may be opened; failing that, the open ones in turn; none only when nothing is eligible and the last slot is not open |
| Connections.PreferredUnique | src/afs/afs_conn.c:79-107 | there is exactly one such choice |
| Connections.TakenSound | src/afs/afs_conn.c:109-122 | taking a connection keeps the vector's count the sum of its connections' counts as a short holds it |
| Connections.PreferredExactly | src/afs/afs_conn.c:79-107 | that choice in terms of which slots are open and how many calls each has, for all cases |
| Connections.InTurn | src/afs/afs_conn.c:63-67 | when all connections are open and busy they are handed out in turn |
| Connections.ConnPool.Get | src/afs/afs_conn.c:401-412 | one reference more on a connection to the address, from the user's vector or a new one; every vector still counts exactly what is handed out from it |
| Connections.ConnPool.Put | src/afs/afs_conn.c:661-673 | one reference fewer, the counts still agreeing |
| Connections.ConnPool.Release | src/afs/afs_conn.c:130-173 | a vector is freed if its count is 0; every connection handed out still has its vector if and only if fewer than 65536 of the freed one's were handed out |
| Connections.FreeIsSafe | src/afs/afs_conn.c:139-173 | a vector whose count is 0 has no connection handed out if and only if fewer than 65536 are |
| Connections.TakingCounts | src/afs/afs_conn.c:79-122 | any number of connections can be taken from a new vector, and are counted as a short holds them |
| Connections.CountWraps | src/afs/afs_conn.c:79-122 | 65536 connections taken from a new vector leave it with a count of 0 |

## Left out

- Clock readings and callback times are unbounded numbers; 32-bit wrap-around of time is not modelled.
- CallbackRuns.ExpiryBound: excludes created files that do not fit their slot, for which `CreatedStaysLive` says how long they stay valid; read-only vcaches, which the volume's expiry time keeps, are in `DueBound`; the effect of `afs_ResetVolumeInfo` on a volume is not modelled.
- CallbackRuns.RunKeeps: takes from the callers that a relative callback time is at least one slot (128 seconds) long, that a queued vcache is not granted a shorter time unless its volume's callback lasts as long, and that the daemon starts within 107 seconds of `afs_InitCBQueue`.
- CallbackQueue.CBQueue.StaleVCacheFlags: of the state bits only CStatd is modelled, so the further bits a caller asks to clear are not; nor are the name cache purges.
- `afs_FlushServerCBs` and `afs_FlushVCBs`.
- PoolRuns.RunRefines: the steps are those between which a thread may hold no lock or wait for one: a DRead that misses is a claim under `afs_bufferLock` and a read or failure without it, one that hits finds its buffer and then waits for the buffer's lock; writing a buffer out is one step under that lock, without the reference it takes meanwhile; a holder of a buffer that belongs to no page neither stores into it nor releases it dirty; the memory cache variant and disk write errors are not modelled.
- BufferCache.DirBuffers.DRead: run without interruption, and not while somebody is filling the page's buffer; `BeginRead` is its first part in every state, and the interleavings are those of `PoolRuns.TakenExactly`.
- BufferCache.DirBuffers.DFlushDCache: run without interruption, although the source drops `afs_bufferLock` around each write; what other threads can do to its walk meanwhile is in `PoolWalks.FlushReaches`.
- BufferCache.DirBuffers.Find: hash chains are the sequences met along `hashNext`, so moving a buffer to the front is one step rather than three pointer updates, made after the search.
- BufferCache.DirBuffers.DNew: takes from the caller that the page has no buffer yet.
- BufferCache.DirBuffers.DZap: takes from the caller that no buffer of the file is held.
- BufferCache.DirBuffers.DRelease: takes from the callers that the last one to release a buffer it stored into says so.
- BackgroundDaemon.Requests.BQueue: one pass of the loop; sleeping and waking, credentials and parameters are not modelled, and reference counts are unbounded.
- Retry.Request.AnalyzeCall: soft mounts in connected mode, with the volume cached; error translation, connection flags and `lasterror` are not modelled, nor that other threads change the volume or bring servers up meanwhile; the request's counters are unbounded where the source has `char`.
- Retry.Request.CallLoop: excludes the outcomes that `UnboundedRepeats` shows the code to repeat for ever; the number of changes of the VLDB entry is a parameter, since each starts the count again.
- DirtyList.Discon.ResyncDisconFiles: `afs_ProcessOpRename`, fetching status, conflict policies and storing are calls that end in some code; shadow directories are not discarded; vcaches are identified by what they are, so that giving one a new fid does not change who its parent is.
- FidTables.Tables.ProcessOpCreate: requires that a directory is cached in a single slot and that no two vcaches share a fid; unreadable slots (EIO) are not modelled; hash functions are parameters, and the rings of `afs_vhashTV` are chains like the others.
- FidTables.Tables.FileSlot: finding a free vcache or slot is not modelled.
- FidTables.Tables.FindDCache: the search only; marking the slot as recently used is not modelled.
- Dynroot.Rebuild: between its two passes cells may be hidden, but the numbers of cells and aliases are those of the first pass and the symlinks are read under one lock; names need fewer than 64 blobs and the listing at most 128 pages, which the code does not check, and beyond which, by `InBitmapExactly` and `InAlloMapExactly`, it writes elsewhere; the hash function is a parameter; byte order and the page tags are not modelled.
- DynrootVersion.AnswersShow: a list is the number of changes made to it, and one reading of a list is one step.
- Bypass.NoCacheFetchProc: non-negative lengths from an ordinary server; multi-block replies of the AFS/DFS translator and the locking and release of pages are not modelled.
- CellNames.CellTable.Init: a negative name length ends the loop; I/O errors are not modelled.
- AccessCache.AxsPool.FreeAll: `afs_RemoveAxs` and the release of slabs at shutdown are not modelled.
- Connections.ConnPool.Get: one user, and one vector to an address; opening is one step with choosing; `selectIndex` is unbounded; connected mode only, since a disconnected `afs_ConnBySA` returns without handing out the reference it took.
- Bits.MaskSplits: numbers are unbounded; offsets beyond the file size type are not modelled.
- Tokens themselves, hard mounts, volume lookup, the vnode operations, pioctls and everything platform specific.
