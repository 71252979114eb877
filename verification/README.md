# Verification of the replication log

SurrealDB's iroh sync layer replicates a bounded log of changes between peers. This project models
that log from memory to disk to wire and proves what it keeps, over every run and every input:

| file | models |
|---|---|
| `Changes.dfy`, `Sequences.dfy`, `Arithmetic.dfy`, `ByteOrder.dfy` | the values passed around, 64-bit counters, laws of sequences and quotients, length prefixes |
| `Sync.dfy` | the bounded change log, reads racing with writers, peer keys, snapshot and restore |
| `Protocol.dfy` | `process_message`, paged pulls racing with local writes, replication between two nodes |
| `Connection.dfy` | the length-prefixed message stream of one incoming connection |
| `Persist.dfy` | the change log on disk, its sparse index, its write buffer, and the in-memory store |
| `StoreThreads.dfy` | the file store's locks and buffer under any number of threads |
| `Base64.dfy` | the unpadded base64url codec that peer keys depend on (sections 3.2, 3.5 and 5 of RFC 4648) |
| `Snapshot.dfy` | grouping a log into a snapshot, cutting it into chunks, putting it together again |
| `Batch.dfy` | batching under any number of concurrent callers, and as one caller drives it |
| `BatchLocks.dfy` | the order in which the batcher takes its locks |
| `BatchRefinement.dfy` | that a run of the batcher's locks does what a run of its steps does |
| `Pool.dfy` | the connection pool under any number of concurrent callers |
| `Retry.dfy`, `Reputation.dfy` | backoff and the choice of peers |

Code that changes its state in place is a class or a method with the source's loops, and its
contract ties the new state to a function of the old one; what the source promises is proved about
those functions. Code that takes its locks one at a time is a machine whose steps are the single
lock acquisitions: an event that is not enabled changes nothing, so a statement about all event
sequences is a statement about all interleavings.

A codec (bincode or JSON) is a pair of functions; `Lossless` says that decoding inverts encoding
and that no encoding is empty. Times are numbers handed in by the caller, a hash map yields its
entries in any order, and the outcome of a channel send, a connect or a retried operation is a
parameter.

## Where the code does not do what its documentation says

Each of these is proved, most with the exact condition under which the code does keep the promise.

- `is_complete` (snapshot.rs:313) does not wait for all chunks: it is true as soon as the sequence
  numbers received have no hole, so after the first chunk alone (`Snapshot.CompleteMeansNoHole`,
  `Snapshot.PrematureCompletion`).
- A read through the index (persist.rs:526) returns one change too many unless it starts at an
  indexed offset or behind the end of the log (`Persist.IndexedReadExact`).
- The file store answers as the memory store does in every run exactly if its flush threshold is
  below the index interval; a flush of a whole interval makes later reads fail
  (`Persist.RefinesExactly`).
- A flush that fails loses the buffered changes that did not get through, none exactly if all bytes
  were written (`Persist.FailedSyncLosesNothing`). If it cuts a record in its body, every read before
  the next flush fails (`Persist.FailedFlushLoses`); after that the reader takes what was written
  behind the cut for the rest of the record (`Persist.TornSwallows`). `flush` without an open file reports
  success and drops the buffer, although the comment at persist.rs:954-956 says that the changes are
  not lost (`Persist.FlushAfterCloseLoses`).
- The offsets that `append` returns number the records in every run of an open file store exactly if
  at most one thread uses it: the offset is counted and the change pushed under different locks
  (`StoreThreads.OffsetsHoldExactly`). In the same case only does `close` write everything that was
  in the buffer when it was called: it releases the file while another thread's flush holds what it
  took (`StoreThreads.CloseKeepsExactly`).
- The tail offset after reopening (persist.rs:197) is the number of records only if the last record
  happens to be indexed (`Persist.ReopenTailExact`).
- `decode_peer_id` (sync.rs:261) cannot report a wrong length: it panics on a short key and cuts a
  long one (`Sync.ShortKeyPanics`, `Sync.OwnKey`).
- A log restored longer than `max_changes` never shrinks to it (`Sync.RetainedLength`), and a
  snapshot taken while others write is a true log exactly if the counter does not lead the copied
  history: no writer between its two steps at the first read, no reserve between the two reads, and
  no remote change that raised the counter (`Sync.TornSnapshot`).
- The counter wraps after 2^64 - 1, which one remote change can bring about, and a read after the
  wrap finds nothing (`Sync.WrappedCounterHidesLog`, `Sync.RemoteChangeHidesLog`).
- A page read while the counter leads the pushed changes, because a writer is between its reserve and
  its push or a remote change raised the counter, can move the cursor past a change
  (`Protocol.UnsafePullSkips`, `Protocol.PullBetweenStepsSkips`). Pulls that meet no lead, find
  nothing or start in the trimmed part are safe (`Protocol.SafePullsNeverSkip`). No run of pulls from
  the beginning skips anything exactly if the server retains nothing (`Protocol.PullsSkipExactly`).
- Batch numbers follow the order of changes in every run exactly if batching is off or there is at
  most one caller (`Batch.OrderHoldsExactly`). Every change pending at rest is timed in every run exactly if batching
  is off, there is at most one caller, or the batch limit is at most one (`Batch.TimerHoldsExactly`).
- `flush` takes `batch_start` while it holds `pending`, the background task takes them the other way
  round (batch.rs:170-175, 330-341), so the two can block each other for good. Every call can finish
  in every run exactly if there is one thread only, no batching add, or no background task
  (`BatchLocks.CallsAlwaysFinish`).
- Two callers can end up with one pooled connection; it never happens exactly if there is at most one
  caller or connections are used once (`Pool.NeverShares`). `cleanup` (pool.rs:294) removes the
  connections in use (`Pool.CleanupForgetsHolders`).
- After a flush of an interval or more into a store without an index, a read from an offset before the
  flushed ones returns every change from the first on (`Persist.LargeFlushRereads`). A record cut in
  its body counts as a record when the file is opened again (`Persist.TornIsScanned`).
- The connection handler leaves the peer in state `Syncing` exactly when it returns an error: after
  an oversized message, a failed write, or a failed finish (`Connection.HandleConnection`).

Apart from these, one thing the source shows by itself: nothing outside the tests ever adds a peer to
the reputation map (reputation.rs:493 is the only insert), so the selection proved here chooses from
an empty map in production.

## Model

| member | source | states |
|---|---|---|
| Base64.RoundTrip | src/common.rs:15-72 | decoding the encoding of any byte sequence gives it back |
| Base64.EncodeInjective | src/common.rs:15-36 | different byte sequences have different texts |
| Base64.EncodedText | src/common.rs:15-36 | the text has ceil(4n/3) characters, all of the alphabet, and no padding sign |
| Base64.DecodeOutcome | src/common.rs:41-72 | decoding fails exactly on a character outside the alphabet and otherwise yields floor(6n/8) bytes |
| Base64.Canonicality | src/common.rs:41-72 | re-encoding the decoded bytes gives the text back exactly if it is over the alphabet, its length mod 4 is not 1 and its unused trailing bits are zero |
| Base64.AccumulatorStep | src/common.rs:55-69 | although the 32-bit buffer overflows, each byte pushed is made of the last two sextets only |
| Base64.Group6Bits | src/common.rs:23-33 | sextets are the input bits, padded with zeros to a multiple of six |
| Base64.Group8Bits | src/common.rs:55-69 | decoded bytes are the text's bits, cut to a multiple of eight |
| Base64.Base64UrlEncode | src/common.rs:15-36 | the chunk loop computes the bit-stream encoding |
| Base64.ChunkWordByLoop | src/common.rs:19-22 | the inner loop assembles a chunk of one to three bytes into the top 24 bits of a word |
| Base64.WordSymbols | src/common.rs:23-33 | the second inner loop emits the leading sextets of the word as alphabet characters |
| Base64.BuildDecodeTable | src/common.rs:42-51 | the decode table is the exact inverse of the alphabet, and -1 elsewhere |
| Base64.Base64UrlDecode | src/common.rs:41-72 | the accumulator loop computes the bit-stream decoding, errors included |
| Sync.SyncManager.constructor | src/sync.rs:93-103 | a new manager has an empty log at offset 0 and no peers |
| Sync.SyncManager.RecordChange | src/sync.rs:117-138 | returns the reserved offset; the log grows by the change and loses one entry from the front if too long |
| Sync.SyncManager.GetChangesSince | src/sync.rs:141-155 | a read counts back from the end of the retained log |
| Sync.SyncManager.ApplyChanges | src/sync.rs:159-174 | the counter rises to the identifiers' low 64 bits, and the value returned is another number |
| Sync.SyncManager.UpdatePeerState | src/sync.rs:177-185 | exactly the entry under the peer's base64 key changes, or appears |
| Sync.SyncManager.Snapshot | src/sync.rs:194-210 | offset, log, and every peer with its last offset, as nobody writes meanwhile |
| Sync.SyncManager.Restore | src/sync.rs:213-259 | log and counter are replaced; each listed key that names a peer is restored and the others are skipped, until a key is too short, which panics |
| Sync.RestoreIsExact | src/sync.rs:230-250 | for any list of peers: up to the first key that is too short every key that names a peer is there with the offset of its last occurrence, every other key is skipped, and all else is as before; a panic exactly if some key is too short |
| Sync.DecodesExactly | src/sync.rs:261-275 | a key decodes to a peer exactly if its bytes begin with the peer's 32 and those are a curve point |
| Sync.RecordExtends | src/sync.rs:117-138 | recording keeps the log the tail of the history and the counter its length |
| Sync.RecordAllExtends | src/sync.rs:117-138 | the same for any number of changes, with nothing trimmed while there is room |
| Sync.RaiseKeepsLog | src/sync.rs:159-174 | applying remote changes records none of them and only raises the counter, to the largest identifier |
| Sync.RetainedLength | src/sync.rs:117-174 | the exact retained length after any run, never above the larger of the limit and the initial length |
| Sync.RunKeepsInvariant | src/sync.rs:117-174 | with reserve and push apart for any number of writers, the retained log stays a tail of the pushed changes and the counter stays ahead of them by at least the writers in flight |
| Sync.ReadWindow | src/sync.rs:117-174 | in every reachable state a read returns the history from max(first retained, o - d), d the counter's lead |
| Sync.SurplusIsWritersInFlight | src/sync.rs:117-138 | without remote changes that lead is the number of writers between their two steps |
| Sync.CounterCoversRemote | src/sync.rs:117-174 | in every run the counter is at least the low 64 bits of every remote identifier applied so far |
| Sync.RemoteChangeLeads | src/sync.rs:159-174 | so one remote change makes the counter lead, by exactly that much, with no writer about |
| Sync.TornSnapshot | src/sync.rs:194-210 | a snapshot taken among writers and remote changes: with d the counter's lead at its second read, it is a true log exactly if d is zero, and reads of it start d early and miss nothing; without remote changes d counts the writers in flight at the first read and the reserves in between |
| Sync.ReserveKeepsExactly | src/sync.rs:117-118 | a reserve keeps the invariant exactly if the counter does not wrap |
| Sync.WrappedCounterHidesLog | src/sync.rs:117-155 | after recording into any non-empty log, every read is empty exactly if that record wrapped the counter |
| Sync.RemoteChangeHidesLog | src/sync.rs:117-174 | one remote change whose identifier ends in 64 ones, then a record, and every read is empty, from any state |
| Sync.ShortKeyPanics | src/sync.rs:261-275 | decoding panics exactly on a text over the alphabet shorter than 43 characters |
| Sync.PeerKeyRoundTrip | src/sync.rs:177-178 | a peer's key has 43 characters and decodes to the peer |
| Sync.OwnKey | src/sync.rs:261-275 | a key is the one the manager itself would use exactly if it has 43 characters and is canonical |
| Sync.RestoreKeepsEveryPeer | src/sync.rs:194-276 | restoring a manager's own snapshot drops no peer and keeps every last offset |
| Sync.SnapshotRestore | src/sync.rs:379-408 | restoring a snapshot into a fresh manager reproduces its log, counter and peers |
| Protocol.ProcessMessage | src/protocol.rs:215-273 | reply and new log for each of the five messages |
| Protocol.RequestAnswered | src/protocol.rs:217-242 | a request is answered with the history from the cursor, or from the first retained change if that is later, as far as the end or the limit; the answer is final exactly if it is empty or its cursor reaches the end |
| Protocol.AnswersGoOn | src/protocol.rs:262-271 | between two nodes that answer everything a ping is answered by pong and ping for ever, and an acknowledgement by the two nodes' offsets in turn |
| Protocol.PageWithinLog | src/protocol.rs:217-229 | a page never runs past the counter, so the cursor never wraps |
| Protocol.PageOfHistory | src/protocol.rs:217-229 | a page is the history from the cursor, or from the first retained change if that is later |
| Protocol.PullNeverSkips | src/protocol.rs:217-242 | in every interleaving of writes, page reads and answers, every retained change between start cursor and cursor has been delivered |
| Protocol.FinalMeansComplete | src/protocol.rs:217-242 | a final answer means that every retained change from the start cursor on, up to the page read, has been delivered |
| Protocol.FetchDeliverIsProcess | src/protocol.rs:217-242 | the two steps of a page with no write between them are one `process_message` |
| Protocol.SafePullsNeverSkip | src/protocol.rs:217-242 | with any number of writers between their two steps and any remote changes, pulls that find nothing, meet no lead of the counter, or start in the trimmed part never skip a retained change |
| Protocol.UnsafePullSkips | src/protocol.rs:217-242 | a pull keeps that exactly if it is such a one, while nothing behind the cursor has been delivered ahead |
| Protocol.PullBetweenStepsSkips | src/protocol.rs:217-242 | a caught-up requester that pulls between a writer's reserve and push never gets that change: the answer after it is final and empty |
| Protocol.StartHasNoHole | src/protocol.rs:217-242 | from an idle server, before anything is pulled, nothing has been skipped |
| Protocol.SkippingRunSkips | src/protocol.rs:217-242 | from there, for every server that retains something, a run of one writer and two pulls after which a retained change was skipped for good |
| Protocol.PullsSkipExactly | src/protocol.rs:217-242 | no run from there skips a retained change exactly if the server retains nothing |
| Protocol.PullUnfold | src/protocol.rs:217-242 | every answer that is not final moves the cursor strictly forward and short of the end |
| Protocol.PullIsExact | src/protocol.rs:217-242 | on a quiet server the loop ends at the end of the log after delivering its length less the cursor, each retained change included, with exactly max(0, base - c0) repeats and none, in order, if c0 >= base |
| Protocol.PullAll | src/protocol.rs:217-242 | the paging loop terminates, leaves the server unchanged and computes that pull |
| Protocol.Replicate | src/protocol.rs:217-260 | feeding every response to the other node records exactly the pulled changes, and each acknowledgement is the server's cursor |
| Protocol.RecordAllAppend | src/protocol.rs:244-249 | recording page by page is recording all at once |
| Protocol.ReplicationConverges | src/protocol.rs:217-260 | the receiving node's history becomes its own followed by the sender's from the cursor |
| ByteOrder.Be32RoundTrip | src/protocol.rs:125 | big-endian lengths read back |
| ByteOrder.Le32RoundTrip | src/persist.rs:538 | little-endian lengths read back |
| Connection.ReadWholeFrame | src/protocol.rs:107-152 | a framed payload of 1 byte to 16 MiB is read back whole, whatever follows |
| Connection.ReadPartialFrame | src/protocol.rs:107-152 | no proper prefix of a frame yields a payload |
| Connection.ServeWholeStream | src/protocol.rs:107-182 | the stream of any messages, closed by the zero marker, is answered message by message, in order, until a write fails |
| Connection.WritesDecide | src/protocol.rs:168-182 | a failed write costs its answer only: that message is processed, and none after it |
| Connection.ServePrefix | src/protocol.rs:107-182 | of the stream cut at any byte the server acts on exactly the messages that lie whole in it, until a write fails |
| Connection.HandleConnection | src/protocol.rs:76-211 | the read loop computes that service, and leaves the peer in `Syncing` exactly after an oversized length, a failed write or a failed finish, which are its errors |
| Persist.RecordAt | src/persist.rs:531-548 | each record of a well-formed log is found at its position, with its length prefix |
| Persist.PositionsIncrease | src/persist.rs:219-262 | later records lie at higher positions |
| Persist.BuildIndex | src/persist.rs:211-265 | the scan computes the index of any file, broken ones included |
| Persist.BuildIndexFindsRecords | src/persist.rs:211-265 | on a well-formed log the index is exactly the records 0, k, 2k, ... at their byte positions, strictly sorted |
| Persist.ScanStops | src/persist.rs:223-248 | behind the records a length of zero, one over 16 MiB, or fewer than four bytes end the scan: the index is exactly that of the records before |
| Persist.TornIsScanned | src/persist.rs:223-262 | a record cut in its body is scanned like a whole one, and indexed if its number is a multiple of the interval |
| Persist.InitializeFile | src/persist.rs:163-200 | new file, bad magic, unsupported version, or an index and a tail offset |
| Persist.VersionAt | src/persist.rs:187 | the version checked is the little-endian word behind the magic |
| Persist.ReopenTailExact | src/persist.rs:196-199 | the tail offset after reopening falls short of the record count by the records after the last indexed one, so it is right exactly if that is the last |
| Persist.LowerBound | src/persist.rs:506-515 | the binary search: the first entry at or after the offset |
| Persist.ReadChangesSince | src/persist.rs:496-559 | the read loop computes the indexed read of any file, errors included |
| Persist.ReadWellFormed | src/persist.rs:529-556 | on a well-formed log the loop returns exactly the records whose count reaches the offset |
| Persist.ReadStops | src/persist.rs:529-540 | a length of zero behind the records, or fewer than four bytes, end the read without an error, whatever follows |
| Persist.IndexedRead | src/persist.rs:496-559 | an indexed read is the plain scan, with one extra record in front unless the offset is indexed |
| Persist.IndexedReadExact | src/persist.rs:496-559 | it is the plain scan exactly if the offset is indexed or exceeds the record count |
| Persist.FlushKeeps | src/persist.rs:594-671 | a flush moves the buffer to the end of the log and keeps the log well formed and indexed as before |
| Persist.AppendKeeps | src/persist.rs:563-584 | an append buffers the change or flushes all of the buffer with it, and counts one |
| Persist.StepRefines | src/persist.rs:562-738 | each operation of the file store answers as the memory store does, up to a fixed lag of offsets and one extra change between indexed offsets, and a flush makes their contents equal |
| Persist.SameAsMemory | src/persist.rs:562-738 | on a log that was empty when opened, with nothing buffered, the reply is the memory store's own |
| Persist.NewStoreRefines | src/persist.rs:562-738 | every run on a new log with a flush threshold below the index interval refines the memory store |
| Persist.RefinesExactly | src/persist.rs:562-738 | every run on a new log refines the memory store exactly if the flush threshold is below the index interval |
| Persist.ReopenedStoreRefines | src/persist.rs:163-200 | every run of a reopened store: each read is the plain scan from its offset or the one before, and offsets lag by a fixed amount |
| Persist.LargeFlushBreaksReads | src/persist.rs:646-668 | after a flush of an interval into a store without an index, every read from the flushed offsets on fails |
| Persist.LargeFlushRereads | src/persist.rs:496-559 | and every read from an offset before the flushed ones, zero included, returns all changes from the first on |
| Persist.PlaceholdersExact | src/persist.rs:646-668 | such a flush adds one entry for each interval begun, at the offsets one interval apart, all at position 0 |
| Persist.FlushAfterCloseLoses | src/persist.rs:594-671 | on a closed store a flush leaves the file as it is and empties the buffer |
| Persist.FailedFlushLoses | src/persist.rs:594-642 | a flush whose file takes some bytes and then fails: reads find the disk and the records that got through whole, or fail if a record was cut in its body, until the next flush; the rest is lost |
| Persist.FailedSyncLosesNothing | src/persist.rs:629-642 | a failure after all bytes, in flushing or syncing, is reported as an error and loses nothing: reads find every change |
| Persist.AppendFailsExactly | src/persist.rs:563-642 | an append reports an error exactly if it reaches the threshold and the file fails in what the flush sends; its offset is counted in any case |
| Persist.FailedAppendLoses | src/persist.rs:563-642 | what reads find after such an append: the disk and the changes that got through whole, or an error if one was cut in its body |
| Persist.ReadBefore | src/persist.rs:529-556 | whatever bytes follow a well-formed log, a read is its records from the offset, in front of what those bytes read as |
| Persist.TornSwallows | src/persist.rs:529-556 | with bytes behind a record cut in its body the reader fails if they are fewer than the record lacks, and otherwise decodes or skips the mixture and goes on where the record would have ended |
| Persist.ReadTorn | src/persist.rs:529-556 | a read of a log cut inside a record: the records before it if the cut is in the length prefix, an error otherwise |
| Persist.FileChangeStore.constructor | src/persist.rs:120-160 | the store starts from what opening the file found |
| Persist.FileChangeStore.Append | src/persist.rs:563-584 | the new state and offset are the state machine's, and a failed flush loses what did not get through |
| Persist.FileChangeStore.GetSince | src/persist.rs:586-588 | a read sees the file and the index, not the buffer |
| Persist.FileChangeStore.Flush | src/persist.rs:594-671 | the record loop writes exactly the buffered changes, in order, up to where the file fails |
| Persist.FileChangeStore.AddPlaceholders | src/persist.rs:646-668 | the entries a large flush adds, all at position 0 |
| Persist.FileChangeStore.Close | src/persist.rs:673-686 | flushes, then gives up the file if that succeeded |
| Persist.MemoryChangeStore.Append | src/persist.rs:715-719 | the list grows by the change, whose index is returned |
| Persist.MemoryChangeStore.GetSince | src/persist.rs:721-724 | the list without its first `offset` changes |
| StoreThreads.EveryChangeOnce | src/persist.rs:563-686 | in every reachable state of any number of threads each change is in the file, in the buffer, with one thread, or lost, and only once; none is lost while the file is open |
| StoreThreads.FileFollowsOffsets | src/persist.rs:563-609 | while no thread pushes past a smaller offset or writes past an earlier batch, record n of the open file is at every moment the change whose append returned n, and at rest the buffer continues the file |
| StoreThreads.PushThrough | src/persist.rs:573-609 | a push puts the change behind all that is in the file and the buffer: into the buffer alone below the threshold, and with the whole buffer into the file from the threshold on |
| StoreThreads.BufferStaysSmall | src/persist.rs:573-609 | in every run of any number of threads the buffer at rest is empty or below the threshold, and above it some thread is about to take it |
| StoreThreads.TwoThreadsReorder | src/persist.rs:563-609 | for every threshold and two threads or more, a run that leaves two changes in the order opposite to their offsets |
| StoreThreads.OffsetsHoldExactly | src/persist.rs:563-609 | the offsets number the records at rest in every run exactly if there is at most one thread |
| StoreThreads.CloseLosesHeld | src/persist.rs:594-686 | for every threshold and two threads or more, a run in which a change was in the buffer before `close` was called, `close` reports no error, and the change is written nowhere |
| StoreThreads.CloseKeepsExactly | src/persist.rs:594-686 | whatever had been pushed when `close` was called is in the closed file in every run exactly if there is at most one thread |
| Persist.Reopen | src/persist.rs:120-200 | closing, opening again and reading, any number of times, finds every change written before |
| Snapshot.SnapshotSerializer.AddChange | src/snapshot.rs:151-153 | the pending list grows by the change |
| Snapshot.SnapshotSerializer.BuildSnapshot | src/snapshot.rs:159-194 | the pending log becomes a snapshot in which each database occurs once and holds the log's subsequence for it, in order |
| Snapshot.SnapshotProjects | src/snapshot.rs:159-194 | read from front to back, a snapshot has the same writes to each database as the log, in the same order |
| Snapshot.InterleavingIsIrrelevant | src/snapshot.rs:159-194 | two write sequences that agree on every database replay to the same state |
| Snapshot.SnapshotPreservesMeaning | src/snapshot.rs:159-194 | replaying a snapshot, its databases in any order, gives the key-value state of the log |
| Snapshot.MeaningNeedsShape | src/snapshot.rs:159-194 | the shape asked of each change is exactly what is needed: a change keeps the meaning behind every well-shaped log exactly if it has it |
| Snapshot.SnapshotCountsChanges | src/snapshot.rs:90-92 | the total number of entries is the number of changes, and the writes are the same multiset |
| Snapshot.PiecesJoin | src/snapshot.rs:245-267 | the chunks' bytes join to the original and their number is the announced total |
| Snapshot.ImportAnyOrder | src/snapshot.rs:291-311 | every chunk is accepted in any order and repetition, and exactly the delivered ones are filled in |
| Snapshot.ImportIsExact | src/snapshot.rs:291-311 | for any chunks at all: the first one fixes the total, later ones are refused exactly if their number reaches it, and the last accepted chunk of each number stands |
| Snapshot.CompleteMeansNoHole | src/snapshot.rs:313-319 | `is_complete` is true exactly if the numbers received are 0 to some m, and means "all" exactly with the last one in |
| Snapshot.PrematureCompletion | src/snapshot.rs:313-332 | of several chunks, the first alone is complete and finalizes to other bytes |
| Snapshot.ReassemblyIsOrderFree | src/snapshot.rs:245-332 | finalizing gives the original bytes exactly if every chunk was delivered, in whatever order and however often |
| Snapshot.FinalizeOutcome | src/snapshot.rs:313-332 | for any chunks: incomplete exactly if none came or a number below the total and the largest accepted one has no bytes; otherwise the joined bytes decoded, or the error that they do not decode |
| Snapshot.SnapshotImporter.ImportChunk | src/snapshot.rs:291-311 | the importer's step, refusing only numbers beyond a known total |
| Snapshot.SnapshotImporter.Finalize | src/snapshot.rs:321-332 | the joined and decoded bytes, or an error if incomplete or undecodable |
| Snapshot.SnapshotImporter.Reset | src/snapshot.rs:334-337 | the importer is as new |
| Snapshot.Export | src/snapshot.rs:245-267 | build, serialize, cut |
| Snapshot.Receive | src/snapshot.rs:291-332 | importing chunks as they come and finalizing |
| Snapshot.TransferPreservesMeaning | src/snapshot.rs:245-332 | a log exported, delivered in full in any order and received replays to the log's own state |
| Batch.NothingLostOrOversized | src/batch.rs:258-365 | in every reachable state of any number of callers: batches and pending are the added changes in order, pending and every batch keep the bound, and at rest every batch has one number and one outcome and pending is below the limit |
| Batch.BoundIsReached | src/batch.rs:258-296 | for every limit and number of callers some run reaches that bound |
| Batch.NumbersFollowChanges | src/batch.rs:329-365 | if no pending changes are taken while another batch has no number, sorting by number restores the order of the changes at rest |
| Batch.OvertakingReverses | src/batch.rs:329-365 | whenever two callers hold batches at once, the later batch can get the smaller number |
| Batch.TwoCallersReorder | src/batch.rs:329-365 | with batching on and two callers or more, a run that sends a later change under the smaller number |
| Batch.OrderHoldsExactly | src/batch.rs:258-365 | the numbers follow the changes at rest in every run exactly if batching is off or there is at most one caller |
| Batch.NoStaleMarkKeepsTimer | src/batch.rs:281-293 | if no changes are taken between a mark and its push, the timer runs exactly while a change is pending or about to be |
| Batch.TimerIsFirstMark | src/batch.rs:280-341 | in every run of any number of callers the timer stands at a time exactly if that is the time of the first mark since pending changes were last taken |
| Batch.StaleMarkStrandsChange | src/batch.rs:280-341 | otherwise a change stays pending with no timer and is never found aged |
| Batch.TwoCallersStrand | src/batch.rs:280-341 | with batching on, a limit above one and two callers or more, a run that ends at rest in that state |
| Batch.TimerHoldsExactly | src/batch.rs:258-341 | every change pending at rest is timed in every run exactly if batching is off, there is at most one caller, or the limit is at most one |
| Batch.SoloRun | src/batch.rs:258-365 | one caller alone never meets either case |
| Batch.GapMeansDrop | src/batch.rs:329-365 | one caller: batch k has number k + 1, the timer runs exactly while changes are pending, and a number is missing at the receiver exactly if its batch was dropped |
| Batch.ChangeBatcher.constructor | src/batch.rs:122-134 | a new batcher is empty |
| Batch.ChangeBatcher.Add | src/batch.rs:258-296 | the change is pending, or leaves with all pending ones in one batch when the limit is reached or batching is off; the answer is whether a batch went out, but always yes when off |
| Batch.ChangeBatcher.SendSingle | src/batch.rs:265-279 | with batching off the change is sent as a batch of its own |
| Batch.ChangeBatcher.MarkAndPush | src/batch.rs:281-292 | the change joins the pending ones, and the timer starts unless one is pending already |
| Batch.AddsThenTick | src/batch.rs:158-296 | of any changes added one after the other those since the last full batch wait, and a wake-up sends them exactly if the first of them has waited for the maximum age |
| Batch.ChangeBatcher.CheckFlush | src/batch.rs:310-326 | flushes exactly at or above the limit |
| Batch.ChangeBatcher.Flush | src/batch.rs:329-365 | all pending changes leave as one batch under the next number, sent or dropped |
| Batch.ChangeBatcher.Offer | src/batch.rs:349-364 | sending one numbered batch: the channel gets it exactly if it is accepted, and what is pending, the timer and the number stay |
| Batch.ChangeBatcher.ForceFlush | src/batch.rs:368-370 | nothing stays pending |
| Batch.ChangeBatcher.BackgroundTick | src/batch.rs:158-195 | flushes exactly when changes are pending and the timer has run for the maximum age |
| BatchLocks.RunIsExclusive | src/batch.rs:258-365 | in every reachable state of any number of threads no two hold one lock in excluding ways |
| BatchLocks.MeetingIsForever | src/batch.rs:170-341 | once a flush and the background task wait for each other they never move again, and the number of pending changes never changes |
| BatchLocks.SomebodyMoves | src/batch.rs:158-365 | in every state without such a pair, some thread inside a call can move |
| BatchLocks.StuckMeansMeeting | src/batch.rs:158-365 | so a state in which nobody can move contains such a pair |
| BatchLocks.Collide | src/batch.rs:158-365 | for every batch limit and two threads or more, a run of adds and one background wake-up in which the two meet |
| BatchLocks.FinishUnlessMeeting | src/batch.rs:158-365 | without such a pair, the calls under way suffice to bring any of them to its end |
| BatchLocks.AllFinishUnlessMeeting | src/batch.rs:158-365 | so all calls under way can finish exactly if no two have met |
| BatchLocks.CallsAlwaysFinish | src/batch.rs:158-365 | in every run every call under way can finish, exactly if there is one thread only, no add with batching on, or no background task |
| BatchRefinement.LocksFollowSteps | src/batch.rs:158-365 | every run of the locks by any number of threads does what a run of the batcher's steps does: each lock given back is one step or none, each step goes through, and pending count, timer and callers agree throughout |
| BatchRefinement.RestIsBelowLimit | src/batch.rs:258-365 | so with all threads at rest fewer changes than the limit are pending |
| BatchRefinement.FlushesOnlyAged | src/batch.rs:158-195 | if every wake-up reads the timer as it stands, then in every run of any number of threads no background flush begins before the timer has run for the maximum age |
| Pool.SizeNeverExceeds | src/pool.rs:173-313 | over every run the size is at most the larger of the limit and the most connections ever in use at once, so at most the larger of the limit and the number of callers; use counts keep their limit |
| Pool.InsertCosts | src/pool.rs:206-221 | in any state an insert removes at most one entry, only from a full pool, the oldest not in use; every other entry but the peer's own stays as it was |
| Pool.HoldersAreExclusive | src/pool.rs:173-241 | while no held peer is connected anew, no two callers share a connection |
| Pool.ReplacingShares | src/pool.rs:173-241 | once a held peer is about to be connected anew, that insert, the holder's release and its next lookup lead to a shared connection |
| Pool.TwoCallersShare | src/pool.rs:173-241 | with two callers or more and connections used more than once, a run that shares a connection |
| Pool.SingleUseIsExclusive | src/pool.rs:173-278 | connections good for one use are never shared |
| Pool.NeverShares | src/pool.rs:173-278 | no run shares a connection exactly if there is at most one caller or connections are used once |
| Pool.CleanupForgetsHolders | src/pool.rs:181-203 | after a cleanup nothing is in use, and the next lookup of a peer that somebody holds connects it a second time |
| Pool.HolderIsServed | src/pool.rs:173-229 | such a holder is there after any caller's first two steps |
| Pool.FailedConnectCostsNothing | src/pool.rs:181-203 | a lookup that misses and a connect that fails leave pool and callers as they were |
| Pool.RemovedIsReconnected | src/pool.rs:244-248 | a removed peer is connected anew by its next lookup, and no other entry is touched |
| Pool.KeptExactly | src/pool.rs:173-307 | a connection made and given back is handed out again, and outlasts a cleanup, exactly if its age and its idle time are within their limits and it may be used more than once |
| Pool.ReuseIsFresh | src/pool.rs:181-280 | in every run a connection handed out again was inserted within the maximum age, and the last release of one to that peer came after that insert and within the maximum idle time |
| Pool.ConnectionPool.Lookup | src/pool.rs:181-200 | a healthy idle connection is reused and marked, otherwise nothing changes |
| Pool.ConnectionPool.Insert | src/pool.rs:206-221 | evicts from a full pool, then inserts the new connection as in use |
| Pool.ConnectionPool.FindOldestUnusedConnection | src/pool.rs:282-291 | an oldest entry not in use, if there is one |
| Pool.ConnectionPool.Release | src/pool.rs:232-241 | the peer's entry, if any, is no longer in use |
| Pool.ConnectionPool.Remove | src/pool.rs:244-248 | the peer's entry is gone |
| Pool.ConnectionPool.Cleanup | src/pool.rs:294-307 | keeps the healthy entries not in use |
| Retry.RetryOperation.Execute | src/retry.rs:152-179 | the loop calls until the first success or the last retry, and sleeps the sum of the delays in between; watched for any number of calls, it has ended exactly if that run ends within them |
| Retry.CallCount | src/retry.rs:152-179 | the number of calls is one more than the smaller of the first success and the retries left |
| Retry.CallCountOnFailure | src/retry.rs:152-179 | if nothing succeeds, all retries are used and no more |
| Retry.EndsExactly | src/retry.rs:152-179 | the loop ends exactly if there is a limit or some call succeeds |
| Retry.RunIsBounded | src/retry.rs:91-179 | a fresh policy of R retries: at most R + 1 calls, and a total sleep within R maximum delays and within the geometric sum |
| Retry.WholeMultiplierIsExact | src/retry.rs:100-110 | for a whole multiplier, below the maximum delay, the geometric sum is the sleep exactly |
| Retry.RetryPolicy.NextDelay | src/retry.rs:100-110 | the capped exponential delay, or none if no retry is left |
| Retry.DelayIsExact | src/retry.rs:100-110 | the delay is the maximum once the exact exponential reaches it, and otherwise that exponential in whole milliseconds |
| Retry.DelaysNeverFall | src/retry.rs:100-110 | for a multiplier of at least one, delays never fall as attempts grow |
| Reputation.TakeFilterCommute | src/reputation.rs:295-301 | cutting before filtering equals filtering before cutting for every count exactly if the reliable peers come first, which the descending order gives |
| Reputation.ReputationManager.GetAllReputations | src/reputation.rs:283-292 | every peer once, scores descending |
| Reputation.ReputationManager.GetBestPeers | src/reputation.rs:295-301 | the best reliable peers: any reliable one left out finds the list full of peers at least as good |

## Left out

- Persist.NewStoreRefines: `compact` is not part of the model; it reads the 16-byte header as a record, so its promise to keep the records from an offset does not hold.
- Persist.ReadWellFormed: changes whose encoding exceeds the 4-byte length prefix are excluded.
- Persist.BuildIndexFindsRecords: asks for records of at most 16 MiB, as the scan stops at a longer one.
- Persist.TornSwallows: where a read goes on behind the torn record is given, not what it finds in the middle of a record.
- StoreThreads.EveryChangeOnce: a flush writes whole; a failing one is stated for one thread by `Persist.FailedFlushLoses`. Reads take part as the file's content at one moment, and the tail offset does not wrap at 64 bits.
- Persist.FailedFlushLoses: errors of a closing or dropped store beyond its flush are not modelled.
- Persist.RefinesExactly: asks for a change of which an index interval of records is shorter than the number the file's magic spells (about 1.2 GB). With no change that short, the magic taken for a record length could lie within the file, and what the read decodes there depends on the serialization.
- Protocol.PullNeverSkips: `record_change` is atomic here and `apply_changes` does not take part; `Protocol.SafePullsNeverSkip` has both, with the read of a page and its answer in one step.
- Protocol.UnsafePullSkips: asks that no page has reached past the cursor, as one does when trimming overtakes the cursor; such a delivery ahead can happen to cover what the pull skips.
- Protocol.PullIsExact: `limit: Some(0)` is excluded; it is answered as final without progress. So is an empty log with a cursor before its end.
- Protocol.ReplicationConverges: `connect_and_sync` is not modelled; it waits for an acknowledgement that no request is answered with. The client is the paging loop over `process_message`.
- Sync.ReadWindow: assumes the 64-bit counter does not wrap; `Sync.WrappedCounterHidesLog` shows what a wrap does.
- Sync.SyncManager.RecordChange: the racing steps are modelled on values (`Sync.Racing`); the class runs both steps at once.
- Sync.SyncManager.Snapshot: reads log, counter and peers in one step; the source reads them one after the other. `Sync.TornSnapshot` states what that does to the log and its counter; the peers are not covered there.
- Snapshot.SnapshotPreservesMeaning: asks that a key comes with a set and its value or with a delete and none, which `Snapshot.MeaningNeedsShape` proves necessary. What a change of another kind with a key means is taken to be nothing. Entry timestamps, schemas, the checksum and `validate` are dropped.
- Connection.HandleConnection: the bytes of an answer whose write fails half-way are not part of its output.
- Snapshot.ReassemblyIsOrderFree: asks for a non-empty serialization; a chunk size of zero divides by zero in the source and is excluded. Sizes larger than the machine word are not modelled.
- Batch.NothingLostOrOversized: sequence numbers do not wrap at 64 bits; task start, restart, shutdown and crash detection are left out.
- BatchLocks.CallsAlwaysFinish: a reader waits only for a thread that holds the lock for writing; that the lock library may also let readers wait behind a waiting writer, and the locks of task supervision, are left out.
- Batch.ChangeBatcher.Add: the class runs one caller at a time; interleavings are proved on the machine of steps it records.
- Pool.SizeNeverExceeds: statistics and the cleanup channel are left out, and use counts do not wrap at 64 bits.
- Retry.RunIsBounded: `f64` is modelled as a real number, the exponent does not wrap at 32 bits, and durations are whole milliseconds; `RetryBudget` is left out.
- Reputation.ReputationManager.GetBestPeers: scores are reals, so no NaN; recording, decay, statistics and filters are not modelled; each changes or reads one score by a formula.
- The endpoint, QUIC streams, tickets, discovery, tokio tasks and the file system: foreign calls and I/O.
- `compress.rs`, `telemetry.rs`, `config.rs`, `error.rs`, `hook.rs`, `replicator.rs` and `notify.rs`: they pass values on or keep a list of subscribers.
- `change.rs`: only its types are used.
