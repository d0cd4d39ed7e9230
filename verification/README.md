# Verified model of the worker's job output, enrollment, screen bridge and workspace

A worker runs shell jobs. Each job has two line buffers, one for stdout and one for
stderr, that split raw bytes into lines, number them from one shared counter and keep the
newest ones in a ring. Every completed line is offered to live subscribers and to the
bounded queue of a single database writer. A reader rebuilds a job's history from the
stored rows and the ring lines numbered above them. The main question is when that
cache-plus-log agrees with the plain list of completed lines; the answer is proved here
over every run of a step system, together with what subscribers see, what a crash leaves
behind, who owns the worker across reboots, what the screen bridge makes of a byte stream,
and where unpacked files may go. `dafny verify dfyconfig.toml` checks everything.

## Layout

| file | contents |
|---|---|
| `Options.dfy` | a value that may be missing |
| `Recs.dfy` | lines, streams, sorting by number, filtering by stream |
| `LineBuffer.dfy` | splitting bytes into lines on values (`LineSpec`), and the ring buffer class proved against it (`LineBuffers`) |
| `Merge.dfy` | persisted rows plus ring suffixes: soundness, and exactness as if-and-only-if |
| `Store.dfy` | job listings (`Listing`), tables, queue and writer on values (`StoreSpec`), and the store class (`Stores`) |
| `Pipeline.dfy` | the step system: buffers, callbacks in flight, subscribers, writer, tables |
| `Persistence.dfy` | what queue, batch and tables hold along every run |
| `Reading.dfy` | reads made while the job runs, over every run |
| `Sequential.dfy` | writers that wait for each call to return: exact reads without assumptions about the queue |
| `Watchers.dfy` | live subscribers over every run |
| `Witnesses.dfy` | concrete runs showing that each condition of exactness is needed |
| `Finished.dfy`, `Paging.dfy`, `Retention.dfy` | finished jobs, pages in 32-bit arithmetic, the hourly tick |
| `Manager.dfy` | the job, the registry and the watch of a stored job as classes |
| `Gate.dfy` | the enrollment gate and its state file: values, classes, whole runs |
| `Bridge.dfy` | the screen bridge's byte reader and packet loop |
| `Paths.dfy`, `Sync.dfy` | workspace containment of request paths, unpacking an archive |

Where the program updates objects in place, a class with the same fields is proved against
a function on values, and the properties are proved about that function. The job's class
carries the step system's view of its subscribers as ghost state: publishing, subscribing,
receiving, closing and settling move that view exactly as the steps of `Pipeline.dfy` say.

## How runs are modelled

- Every job is the job in focus of its own run. The rest of the worker is the environment:
  it may queue anything about other jobs, insert other rows and trim the tables at any step.
- A step is one critical section or one message: bytes reaching a buffer, a flush of a
  partial line, the publishing half of a callback, its queueing half, the writer taking an
  item, a batch reaching the database (all of it or a first part), a finish record applied
  or refused, a retention pass, each of the two ring copies and the registration of a
  subscription, a subscriber reading, and the four moments of a job's end.
- Each buffer has its own lock, and the two share only the counter, taken line by line. So
  the bytes of one `Write` call are one or several `Chunk` steps with the same call number,
  and steps of the other buffer may come between them, taking numbers inside the call.
  Without anything in between, several steps are one (`Pipeline.ChunkTwice`). Callbacks run
  after the lock is released, in order within a call and freely interleaved between calls.
- Storing a shorter part of a batch stands for every database failure of a flush; the batch
  is emptied all the same. Closing the store is a flush followed by nothing; a crash is a
  run that stops in any state.
- Times, minted secrets, database and file failures are parameters of the steps.

## Where the code and its documentation differ

The model follows the code in each case.

- `List` says that memory is fresher than the store, but the stored row is the one listed
  (`internal/jobsvc/manager.go:193-196`): a job whose starting time is its own is shown as
  memory has it if and only if the store has no row for it or the same one (`MemoryShownIff`), and a job that has ended is
  listed as running while its finish record waits (`ListedRunning`).
- The merge comment promises the full history. A read of one stream is exact if and only if
  the rows are the stream's first lines and the ring, when copied, has evicted no line beyond
  them (`ReadOneExactAlways`). Having every evicted line stored by the time of the copy is not
  enough when a line is stored between the query and the copy (`EvictedBetween`). A read of both streams also
  needs that no stdout line is completed between the two ring copies (`TornCopy`). When
  callbacks reach the queue out of order, a stored line hides an unstored one with a smaller
  number (`HiddenLine`).
- A page request panics if and only if the history's length, as a 32-bit integer, is
  negative: from 2^31 lines up to 2^32, and again in later stretches (`PageDefined`).
- A subscription that lands after the subscriptions were closed and before the done signal
  gets a channel that nobody closes (`LateSubscriber`).
- Pruning gives a finished job its hour only once its finishing time is set: between the
  assignments of the state and of the time, a tick drops it at once (`PruneGrace`, with the
  run `DroppedAtOnce`).
- "Memory follows the store" holds for jobs whose row was inserted; between registering a
  job and inserting its row a tick finds it without one (`NotYetInserted`).
- A release or claim is final only if its state write succeeded, and a failed write is only
  logged: a revoked token is accepted again after a reboot if and only if the release's
  write failed and the file still held the token (`ReleaseLastsIff`).
- "Exactly one caller can win per worker lifetime" holds of a code: one that a saved claim
  spent never works again (`OneClaimACode`), but after a claim whose write failed a reboot
  offers the spent code again if the file held it (`CodeAgainIff`), and every release
  opens the worker to another claim.
- `Retention` answers with a number of deleted jobs even when the commit fails and nothing
  is deleted (`internal/jobsvc/store.go:299-304`): the answer is true if and only if a
  statement was refused, the commit succeeded, or no row had expired.
- Closing tails agree between memory and store if and only if each ring holds at least fifty
  lines or never overflowed (`PruneUnobservable`).
- Archive entries are confined to the workspace, not to the destination, which is the
  directory created and emptied (`BesideDestination`, `BesideWritten`). Entries are resolved
  against the destination text without a leading "./"; that is the same directory if and
  only if no further slash follows the "./", or the rest climbs out of the whole root
  (`BaseIff`): for the root /a/b and the destination ".//a/b" an unpacking empties
  /a/b/a/b and writes to /a/b (`DotSlashSlash`). For every destination under the root, an
  entry with a relative name goes under it if and only if its cleaned name, climbing by its
  leading ".."s and descending by the rest from where entries are resolved, lands there
  (`EntryStaysIff`); where the two directories agree, that is a name with no leading "..",
  or one that descends again by the names it climbed. An archive of such entries changes
  nothing outside the destination (`UnpackStaysUnder`), and in an unpacking that does not
  fail a regular entry with a relative name that lands elsewhere leaves its file there
  (`LandsOutside`).
- A workspace root of "/" accepts no path but itself (`ResolveIffDescends`).

## Model

| member | source | states |
|---|---|---|
| LineSpec.FeedAppend | internal/shellh/runner.go:173-192 | Feeding a and then b completes the same lines and leaves the same partial line as feeding a + b. |
| LineSpec.SplitJoins | internal/shellh/runner.go:155-159 | Joining the completed lines and the partial one gives back the fed text without carriage returns: nothing else is lost or added. |
| LineSpec.SplitUnique | internal/shellh/runner.go:177-191 | The split is the only one: any lines without line feeds that join to the same text are the same lines. |
| LineSpec.StripExact | internal/shellh/runner.go:177-180 | What is removed from the fed text is byte 13 and nothing else. |
| LineSpec.WriteTwice | internal/shellh/runner.go:173-200 | Write(a) then Write(b) leaves the buffer, the counter and the fired callbacks of Write(a + b). |
| LineSpec.WindowAppend | internal/shellh/runner.go:184-188 | Appending lines keeps the ring equal to the newest max of all lines ever completed, with the rest counted as dropped. |
| LineSpec.TailOfWindow | internal/shellh/runner.go:240-255 | A tail no longer than the ring is the tail of the unbounded history plus the partial line. |
| LineSpec.JoinIsUnlines | internal/shellh/runner.go:254-255 | Joined lines are the lines each followed by byte 10, without the last of these. |
| LineSpec.TailCountsPartial | internal/shellh/runner.go:240-255 | A tail of n is the last n lines, or, with a partial line pending, the last n - 1 and the partial one. |
| LineBuffers.LineBuffer.constructor | internal/shellh/runner.go:166-171 | A new buffer is empty; a size that is not positive becomes 10000. |
| LineBuffers.LineBuffer.Write | internal/shellh/runner.go:173-200 | The byte loop with eviction, while the other buffer is idle, refines the value-level write; the log grows by exactly the lines whose callbacks fire, each once, in order. |
| LineBuffers.LineBuffer.FlushLine | internal/shellh/runner.go:220-238 | A pending partial line becomes one numbered line, fires one callback and is returned; nothing happens without one. |
| LineBuffers.LineBuffer.Recs | internal/shellh/runner.go:202-209 | The ring is the newest max lines of the unbounded log. |
| LineBuffers.LineBuffer.Dropped | internal/shellh/runner.go:211-216 | Dropped plus ring length is the number of lines ever completed. |
| LineBuffers.LineBuffer.Tail | internal/shellh/runner.go:240-255 | The joined last n entries; for n up to the ring size, those of the unbounded log and the partial line. |
| Merge.MergedElems | internal/jobsvc/manager.go:230-261 | A line is in a merged read exactly if it is persisted, or in a ring of a wanted stream with a number above every persisted one. |
| Merge.MergedSound | internal/jobsvc/manager.go:230-261 | A merged read strictly increases and holds only completed lines of the wanted stream, whatever part of the log the rows are and however old the ring copies. |
| Merge.MergedOneExact | internal/jobsvc/manager.go:230-261 | One stream: the read is that stream's whole log if and only if the rows are its first lines and the ring evicted none beyond them. |
| Merge.MergedAllExact | internal/jobsvc/manager.go:253-258 | Both streams, copied one after the other: the read is the whole log if and only if the rows are its first lines, neither ring evicted a line beyond them, and no stdout line was completed between the copies. |
| Merge.StreamsInterleave | internal/jobsvc/manager.go:112-120 | Sorting the two per-stream histories together by number restores the order of completion. |
| Pipeline.EmitInv | internal/shellh/runner.go:177-198 | Completing lines on either buffer keeps the numbers 1..N, both rings' windows, and every line in exactly one of pending callback or offered to the store. |
| Pipeline.RingFacts | internal/shellh/runner.go:184-188 | In every state each ring is its stream's history without the lines counted as dropped. |
| Pipeline.ChunkIsWrite | internal/shellh/runner.go:173-238 | A step that feeds bytes, or flushes, does to its buffer what the buffer's own write, or flush, does, and touches nothing else but the callbacks falling due. |
| Pipeline.ChunkTwice | internal/shellh/runner.go:173-192 | Two steps of one call with nothing in between leave the whole system as one step with all the bytes. |
| Pipeline.SplitAcrossRuns | internal/shellh/runner.go:173-192 | In every run, whatever the other buffer, the callbacks and everything else do in between, the lines of a stream are those its own bytes and flushes complete. |
| Pipeline.OnlyBytesMatter | internal/shellh/runner.go:173-192 | Without a flush only the concatenation of the bytes fed to a stream matters, not how calls cut it. |
| Persistence.SharedNumbering | internal/jobsvc/manager.go:112-120 | Over every interleaving of the two buffers the numbers given out are exactly 1..N, each ring strictly increases, and sorting the per-stream histories restores completion order. |
| Persistence.WriterConserves | internal/jobsvc/store.go:112-199 | While the database refuses nothing, the accepted items are, in order, those written, batched, in hand and queued, and the tables are the replay of the written ones: a crash at any step leaves a prefix. |
| Persistence.TurnIsPath | internal/jobsvc/store.go:150-163 | A turn of the writer's loop is a run of its steps: take; take and store a full batch; or take a finish record, store what is batched, then apply it. |
| Persistence.DroppedCounts | internal/jobsvc/store.go:184-190 | Over every run the dropped counter counts exactly the lines a full queue turned away. |
| Persistence.FinishBarrier | internal/jobsvc/store.go:112-163 | Once a finish record has been applied, every line of the job accepted before it is in the table. |
| Persistence.TerminalRowBarrier | internal/jobsvc/store.go:112-199 | A job's row is terminal only if its finish record was accepted and every line of the job accepted before that record is in the table. |
| Persistence.RecoveredClean | internal/jobsvc/store.go:105-110 | Boot leaves no running row, changes no terminal row and no line, keeps the set of jobs, marks running rows failed with 137, and a second boot changes nothing. |
| Persistence.StoredWasWritten | internal/jobsvc/store.go:123-147 | A stored line of the job is one the writer wrote: no other operation makes lines. |
| Persistence.WrittenIsStored | internal/jobsvc/store.go:285-305 | A written line stays in the table as long as every retention pass leaves the job its row. |
| Persistence.RowsKeepStart | internal/jobsvc/store.go:156-161 | Through any writes and trims a row keeps the command and starting time it was inserted with. |
| StoreSpec.QueryExact | internal/jobsvc/store.go:243-269 | A query returns exactly the stored lines of the job and stream, in number order. |
| StoreSpec.PutExact | internal/jobsvc/store.go:123-161 | Storing a line sets one key and nothing else; a finish record sets the three terminal fields of one existing row and nothing else. |
| StoreSpec.OfferExact | internal/jobsvc/store.go:181-199 | The queue takes an item while fewer than 65536 wait, and counts a line it cannot take. |
| StoreSpec.TrimExact | internal/jobsvc/store.go:285-305 | A trim keeps exactly the rows still running, without a finishing time, or finished no earlier than the cutoff, and the lines of jobs with such a row, all unchanged. |
| Stores.Store.constructor | internal/jobsvc/store.go:105-110 | Opening the store recovers the tables a previous process left. |
| Stores.Store.EnqueueJob | internal/jobsvc/store.go:173-179 | Inserts or replaces a running row at once, or reports the database's refusal and changes nothing. |
| Stores.Store.TryEnqueueLine | internal/jobsvc/store.go:181-190 | Queues the line or, with 65536 items waiting, drops it and counts the loss. |
| Stores.Store.FinishJob | internal/jobsvc/store.go:192-199 | Queues the finish record behind all earlier items, or drops it when the queue is full. |
| Stores.Store.Flush | internal/jobsvc/store.go:117-147 | Stores the first part of the batch that the database accepts and empties the batch. |
| Stores.Store.OnItem | internal/jobsvc/store.go:150-163 | One item: a line joins the batch, flushed at 500; a finish record is applied only after the batch is flushed. |
| StoreSpec.TurnKeepsOrder | internal/jobsvc/store.go:150-163 | When nothing is refused, tables and batch after a turn are as if everything batched and the item received were stored in order; a finish record leaves the batch empty, and so does the 500th line. |
| StoreSpec.TurnStoresPrefix | internal/jobsvc/store.go:117-163 | Whatever is refused, a turn stores a first part of the batch, then the finish record if accepted. |
| Stores.Store.OnTick | internal/jobsvc/store.go:164-168 | A tick, or closing, flushes the batch and leaves the queue alone. |
| Stores.Store.QueryLines | internal/jobsvc/store.go:243-269 | The answer is strictly increasing and holds a line exactly if it is stored for the job and wanted. |
| Stores.Store.QueryJobs | internal/jobsvc/store.go:225-241 | The newest rows, newest first, cut at the limit: no omitted row started later than a listed one. |
| Stores.Store.Retention | internal/jobsvc/store.go:285-305 | Deletes expired terminal rows and then every line without a row; returns 0 and deletes nothing when a statement is refused, and a number but deletes nothing when the commit fails; the answer is the number deleted if and only if a statement was refused, the commit succeeded or no row had expired. |
| Reading.ReadSound | internal/jobsvc/manager.go:230-261 | Under any drops, reorderings, evictions, refused writes and retention, and with steps of any kind between the query and the two copies, a merged read strictly increases and holds only lines of the wanted stream completed under those numbers. |
| Reading.ReadOneExact | internal/jobsvc/manager.go:230-261 | In order, nothing skipped, nothing refused: the read of one stream is its history at the copy if and only if the ring had by then evicted no more of its lines than the query returned, whatever ran in between. |
| Reading.ReadAllExact | internal/jobsvc/manager.go:230-261 | The same for both streams: exact if and only if neither ring evicted more than the rows hold and no stdout line was completed between the two copies. |
| Reading.ReadOneExactAlways | internal/jobsvc/manager.go:230-261 | With no assumption on order, drops or the database: a one-stream read is exact if and only if the rows are the stream's first lines and the ring still had the rest. |
| Reading.ReadAllExactAlways | internal/jobsvc/manager.go:230-261 | With no assumption on order, drops or the database: a read of both streams is exact if and only if the rows are the first lines, neither ring evicted a line beyond them, and no stdout line was completed between the two copies. |
| Sequencing.SequentialInOrder | internal/shellh/runner.go:193-198 | Writers that wait for each call to return have their lines queued in order, whatever else runs, if the queue turned none of them away. |
| Sequencing.SequentialReadExact | internal/jobsvc/manager.go:230-261 | For such a writer the read of one stream is its history at the copy if and only if the ring had by then evicted no more lines than the query returned; nothing is assumed of the queue's order. |
| Reading.QueryIsPrefix | internal/jobsvc/store.go:112-190 | Lines queued in order and none refused: the stored rows of a stream are its first lines. |
| Reading.FinalTable | internal/jobsvc/store.go:112-190 | Every callback delivered and nothing left in queue or batch, none dropped or refused: the table equals the numbered history for every arrival order, batch split and tick placement. |
| Reading.PageStable | internal/jobsvc/manager.go:271-306 | A page of an exact read with fixed start and positive end inside the history keeps its lines in every later exact read. |
| Witnesses.HiddenLine | internal/shellh/runner.go:193-198 | A run where callbacks of the two streams arrive out of order: nothing is dropped or evicted, yet a read misses line 1. |
| Witnesses.EvictedBetween | internal/jobsvc/manager.go:231-250 | A run where a line is stored and evicted between the query and the ring copy: every evicted line is stored, yet the read misses one. |
| Witnesses.TornCopy | internal/jobsvc/manager.go:253-258 | A run where lines are completed between the two ring copies: the read has line 2 without line 1. |
| Witnesses.LateSubscriber | internal/jobsvc/manager.go:131-134 | A reachable state with a channel registered after the subscriptions were closed that no run from that state closes. |
| Witnesses.ListedRunning | internal/jobsvc/manager.go:193-196 | A reachable state where memory has the job done and the store has it running, and every listing of the two, for any limit, shows it running. |
| Watchers.WatcherSeesAll | internal/jobsvc/manager.go:337-371 | For every interleaving, each non-empty completed line is in the replay, was evicted before the copy, was offered to the channel once, or still waits to be published; published lines seen twice are exactly the replayed ones published after registration. |
| Watchers.StreamEnds | internal/jobsvc/manager.go:131-134 | When the subscriptions are closed, each registered channel is closed and the account of every non-empty line stands for it. |
| Sequencing.SubscriberOrder | internal/jobsvc/manager.go:359-371 | Every subscriber is sent the lines of a sequentially written stream in strictly increasing number order, whatever it misses and whenever it joined. |
| Watchers.MissedMeansFull | internal/jobsvc/manager.go:364-370 | A subscriber misses a line only by the step that publishes it, taken in a state with exactly 256 lines unread in its channel. |
| Watchers.PublishReaches | internal/jobsvc/manager.go:359-371 | Publishing gives a non-empty line to each registered channel with fewer than 256 unread, makes the other registered ones miss it, and leaves closed ones alone. |
| Watchers.ChannelsSafe | internal/jobsvc/manager.go:359-380 | In every reachable state publishing sends to open channels only, and closing the subscriptions closes each open channel once, after which every channel made so far is closed. |
| Watchers.TerminalBeforeClose | internal/jobsvc/manager.go:131-161 | Whoever finds a channel or the done signal closed finds a terminal state, and then and ever after the same state and exit code. |
| Watchers.LateChannelStaysOpen | internal/jobsvc/manager.go:351-356 | From any state past the closing of subscriptions, a registered channel stays registered and open in every continuation. |
| Watchers.ClosedExactly | internal/jobsvc/manager.go:337-380 | In every state after the closing, a channel is closed if and only if it was registered before. |
| Jobs.Job.PublishLine | internal/jobsvc/manager.go:359-371 | Moves the subscribers as the publishing step says: a non-empty line is appended to every registered channel with room, and to no other; no channel is closed. |
| Jobs.Job.Subscribe | internal/jobsvc/manager.go:333-357 | The replay is both logs' retained lines sorted by number; unless the job is done, a fresh empty channel joins as the registering step says. |
| Jobs.Job.Receive | internal/service.go:108-115 | A subscriber gets the first line sent to its channel that it has not read, as the draining step says. |
| Jobs.Job.FinishSubs | internal/jobsvc/manager.go:373-380 | Closes every registered channel, keeps what they hold, and forgets them, as the closing step says. |
| Jobs.Job.CloseDone | internal/jobsvc/manager.go:131-132 | Sets the done signal, after the subscriptions were closed, as the last step of the job's end says. |
| Jobs.Announce | internal/jobsvc/manager.go:159-161 | The finish record, with the settled outcome, is queued behind everything accepted so far, or dropped when the queue is full. |
| Jobs.Conclude | internal/jobsvc/manager.go:131-163 | The whole end of a job: outcome, finish record, every registered channel closed, done signal, in the order of the steps. |
| Jobs.Job.Settle | internal/jobsvc/manager.go:146-159 | The outcome: failed on a runner error, killed exactly on cancellation without one, done exactly on code 0 without either, failed otherwise; the exit code is the run's. |
| Jobs.Job.Result | internal/jobsvc/manager.go:401-409 | The exit code and the last fifty lines of each stream, from the rings. |
| Jobs.ResultIsMemoryDone | internal/service.go:117-122 | That event is the one the step system compares with the store's. |
| Managers.Manager.ReadMerged | internal/jobsvc/manager.go:228-261 | The loops compute the merged history of store and rings, or the stored lines alone for a job not in memory. |
| Managers.HistoryElems | internal/jobsvc/manager.go:228-261 | A line is in that history exactly if it is stored and wanted, or held by the ring of a wanted stream of a job in memory under a number above every row fetched. |
| Managers.HistoryIsRead | internal/jobsvc/manager.go:228-306 | History and done flag are the step system's read in a state with the same rings and tables, from memory or from the store. |
| Managers.HistoryOfStream | internal/jobsvc/manager.go:228-261 | The history of one stream is that buffer's unbounded log if and only if the rows are its first lines and the ring evicted none beyond them. |
| Managers.HistoryOfJob | internal/jobsvc/manager.go:228-261 | The history of both streams is the job's whole output in order of completion if and only if the rows are its first lines and neither ring evicted more. |
| Managers.Manager.OutputLines | internal/jobsvc/manager.go:271-306 | For every length of history: a panic exactly if the length wraps to a negative 32-bit integer; otherwise the lines of the page, the total, the bounds and the done flag. |
| Managers.Manager.ReplayTail | internal/jobsvc/manager.go:317-331 | The last n lines of the merged history. |
| Managers.Manager.Prune | internal/jobsvc/manager.go:214-226 | A job stays in memory exactly if it is running or finished no earlier than the cutoff. |
| Managers.Manager.List | internal/jobsvc/manager.go:179-212 | Distinct jobs, newest first, all of the union or the limit's worth of it, none left out that started later than a listed one, and stored jobs with their stored rows. |
| Listing.MergedListing | internal/jobsvc/manager.go:184-211 | Cutting the store's page at the limit before merging loses no job of the full union that belongs in the listing. |
| Listing.ShownAsStored | internal/jobsvc/manager.go:184-211 | For any limit, a listed job that has a stored row and shares its starting time with no other stored job is listed with the stored row, also when the store's page lacks it. |
| Listing.MemoryShownIff | internal/jobsvc/manager.go:193-196 | A listed job is shown as memory has it if and only if the store has no row for it or the same row. |
| Managers.StartsAgree | internal/jobsvc/manager.go:103-126 | Memory and store agree on every job's starting time and command, through any writes and trims. |
| Managers.InsertedAsShown | internal/jobsvc/store.go:173-179 | The row inserted for a new job is the row memory shows for it. |
| Services.WorkerService.TailOf | internal/service.go:128-145 | The last fifty lines of the merged history of a stream, joined by line feeds. |
| Services.WorkerService.WatchStored | internal/service.go:80-98 | For a job only in the store: found exactly if it has a row; then the last 1000 lines and a closing event with the row's exit code and both stored tails. |
| Services.StoredIsStoreDone | internal/service.go:90-97 | Its closing event is the one the step system compares with memory's: the row's exit code and the last fifty stored lines of each stream. |
| Finished.HistoryMatches | internal/jobsvc/manager.go:230-261 | Once all of a job is persisted, the stored rows, the merged read and the log agree for every stream filter. |
| Finished.TailsAgree | internal/service.go:128-145 | Ring tail and stored tail of fifty lines are equal if and only if the ring holds at least fifty lines or never overflowed. |
| Finished.PruneUnobservable | internal/jobsvc/manager.go:214-226 | Dropping a finished, persisted job from memory changes no history, no done flag and no exit code, and leaves the closing event alone if and only if the rings held the tails. |
| Paging.PageDefined | internal/jobsvc/manager.go:273-295 | For all 32-bit starts and ends and every length, 0 <= s <= e <= length if and only if the length wraps to a non-negative integer; below 2^32 lines, if and only if there are fewer than 2^31. |
| Paging.PageMeaning | internal/jobsvc/manager.go:271-306 | For all 32-bit bounds a page is the slice that unbounded arithmetic gives: a negative start counts from the end and stops at the beginning, an end not positive or past the end means the end. |
| Paging.PageToEnd | internal/jobsvc/manager.go:271-283 | A start that is not negative with no end gives everything from there; the default request gives all. |
| Paging.PagesTile | internal/jobsvc/manager.go:273-295 | Consecutive pages concatenate to the history, wherever it is cut. |
| Paging.LastPage | internal/jobsvc/manager.go:271-283 | A negative start with no end asks for the last lines, also for the least 32-bit integer. |
| Retention.TrimKeepsLiving | internal/jobsvc/store.go:285-305 | In every run the daily trim keeps the row of every job running in memory whose row was inserted, and a line stays exactly when its job's row does. |
| Retention.PruneFollowsStore | internal/jobsvc/manager.go:81-88 | In every run pruning drops no running job, and a job left in memory has a row if and only if its row was inserted. |
| Retention.PruneGrace | internal/jobsvc/manager.go:146-159 | A job finished within the hour stays in memory if and only if the tick does not fall between the assignments of its state and its finishing time. |
| Retention.TickExact | internal/jobsvc/manager.go:81-93 | The tick in numbers: rows are kept for a day after finishing, memory for an hour, running jobs always. |
| Retention.DroppedAtOnce | internal/jobsvc/manager.go:214-226 | A run in which a tick between the two assignments drops a job that has just ended. |
| Retention.NotYetInserted | internal/jobsvc/manager.go:122-129 | A run in which a tick finds a registered job whose row is not inserted yet. |
| Gates.FileStore.Read | internal/auth/filestore.go:57-74 | A missing, unreadable or corrupt file, or no path, reads as unclaimed. |
| Gates.FileStore.Write | internal/auth/filestore.go:76-113 | With a failure or a death at any of the file operations, the state file is the old one until the rename and the new one from then on, and only a death leaves a temporary file. |
| Gates.FileStore.SaveToken | internal/auth/filestore.go:36-39 | Afterwards the file holds the token and its owner and no code. |
| Gates.FileStore.SaveCode | internal/auth/filestore.go:41-44 | Afterwards the file holds the code and no token. |
| Gates.EnrollGate.constructor | internal/auth/auth.go:88-133 | Precedence at boot: disabled, pre-authorized, stored token, stored code, fresh code; the file then holds the fresh code exactly if its write reached the rename, and is otherwise unchanged. |
| Gates.EnrollGate.IsAuthorized | internal/auth/auth.go:153-166 | Accepts a bearer exactly if auth is off or it is the current, non-empty token. |
| Gates.EnrollGate.AllowAttempt | internal/auth/auth.go:259-272 | The budget check: a spent budget returns only after more than the lockout since its first attempt. |
| Gates.EnrollGate.ClaimWith | internal/auth/auth.go:190-222 | The whole new gate state, the answer and the file, for every outcome of a claim. |
| Gates.EnrollGate.ReleaseWith | internal/auth/auth.go:228-257 | The whole new gate state, the answer and the file, for every outcome of a release. |
| GateSpec.ClaimIff | internal/auth/auth.go:193-222 | A token is handed out exactly when the worker is free, the code presented is the current one, a token can be minted, and fewer than ten wrong codes were tried or more than a minute has passed since the first of them. |
| GateSpec.ClaimRefusals | internal/auth/auth.go:193-208 | When each refusal is given and that only a wrong code is counted. |
| GateSpec.ReleaseIff | internal/auth/auth.go:232-257 | A release succeeds exactly for the current token on a claimed worker that is neither disabled nor pre-authorized, and frees it under a new code with a fresh budget. |
| GateSpec.BootPrecedence | internal/auth/auth.go:88-133 | What a started gate accepts and offers, for every combination of options and state file, and what it writes. |
| GateSpec.NeverChangesHands | internal/auth/auth.go:96-102 | A disabled or pre-authorized gate is never claimed and never released. |
| GateRuns.OneClaimACode | internal/auth/auth.go:190-257 | Over every run each successful claim presented the code last minted or restored, and a code spent by a saved claim is never offered or accepted again. |
| GateRuns.CodeAgainIff | internal/auth/filestore.go:76-113 | After a claim and a reboot the spent code is on offer again if and only if the claim's write failed and the file held the code. |
| GateRuns.DurableOwnership | internal/auth/auth.go:88-257 | Over every run of claims, releases, crashes at any point and reboots, with any state writes failing: a bearer is accepted exactly if it is the token of the last claim or boot, unreleased since; claims find no owner, releases revoke the owner, boots restore what was saved; tokens are never reissued; the file never holds token and code, and matches the gate exactly if the last write succeeded. |
| GateRuns.RebootRestores | internal/auth/auth.go:103-119 | A reboot accepts exactly the token of the last state write that succeeded. |
| GateRuns.SavedOwnership | internal/auth/auth.go:190-257 | While no state write fails, claims and releases alternate across all reboots and the last unreleased claim's token is the one accepted. |
| GateRuns.ReleasedForever | internal/auth/auth.go:228-257 | A token whose release was saved is refused in every later state of every run, failing writes included. |
| GateRuns.ReleaseLastsIff | internal/auth/filestore.go:76-113 | After a release and a reboot, the revoked token is accepted if and only if the release's write failed and the file held the token. |
| GateRuns.AcceptedUntilReleased | internal/auth/auth.go:103-113 | A token handed out by a saved claim is accepted after any further run, reboots and failing writes included, that does not release it. |
| GateRuns.DurableIffWritten | internal/auth/filestore.go:76-113 | A claim survives a reboot if and only if its state write succeeded, also over a file that still holds another token. |
| GateRuns.TensApart | internal/auth/auth.go:259-272 | Successive tens of wrong codes start more than a minute apart, so e and f tens are at least f - e minutes apart. |
| GateRuns.AttemptBound | internal/auth/auth.go:199-208 | Between releases and reboots, any span of T milliseconds admits at most 10 * (whole minutes in T + 2) wrong-code comparisons. |
| FrameSpec.DecodeEncode | images/android/bridge/server.js:121-122 | Reading a big-endian number of n bytes undoes writing it. |
| FrameSpec.EncodeDecode | images/android/bridge/server.js:121-122 | Writing back what n bytes were read as gives the n bytes. |
| FrameSpec.TagOfBits | images/android/bridge/server.js:124-134 | Bit 62 makes a message a configuration, tag 2; without it bit 61 makes it a key frame, tag 1; otherwise tag 0. |
| FrameSpec.TagOfFirstByte | images/android/bridge/server.js:121-134 | On the wire, bits 0x40 and 0x20 of a packet's first byte decide its tag. |
| FrameSpec.OneWirePacket | images/android/bridge/server.js:119-135 | Twelve header bytes, the size in the last four with the highest first, and that many payload bytes are one message with the tag of the first byte. |
| FrameSpec.DescribedBytes | images/android/bridge/server.js:108-114 | Which bytes of the preamble are the codec, the width and the height. |
| FrameSpec.ChunksDontMatter | images/android/bridge/server.js:73-99 | However the stream is cut into chunks, messages, remembered state and leftover bytes are those of one chunk. |
| FrameSpec.ParseUndoesFraming | images/android/bridge/server.js:119-135 | The messages sent are exactly those of the stream's complete packets, in order; an incomplete rest sends nothing. |
| FrameSpec.Decompose | images/android/bridge/server.js:119-123 | Every byte string is a sequence of packets followed by an incomplete one, so the parse covers every stream. |
| FrameSpec.WholeStream | images/android/bridge/server.js:105-136 | A whole connection in any chunks sends the description, the remembered configuration and key frame, then one message for each complete packet. |
| FrameSpec.LaterStream | images/android/bridge/server.js:168-181 | A later connection is read from its first byte, whatever the one before left unread, and first sends its description with the configuration and key frame remembered. |
| FrameSpec.JoinIsLatest | images/android/bridge/server.js:183-191 | A browser joining at any time, over any number of upstream connections, first gets the latest description, configuration and key message sent so far. |
| Bridges.Reader.Read | images/android/bridge/server.js:85-98 | Successive reads return consecutive slices of all bytes received; too few bytes park the read, or reject it after an error. |
| Bridges.Reader.OnData | images/android/bridge/server.js:80-84 | New bytes resume a parked read exactly when they suffice; otherwise it parks again for the same size. |
| Bridges.Reader.OnError | images/android/bridge/server.js:81-84 | An error or close rejects a parked read and leaves none parked; buffered bytes can still be read. |
| Bridges.Bridge.OnChunk | images/android/bridge/server.js:105-136 | The packet loop, whose reads park and resume in the reader, ends each chunk parked in the read its phase needs, having sent what the value-level parser sends. |
| Bridges.Bridge.Reattach | images/android/bridge/server.js:165-181 | A lost connection rejects the parked read; the next one reads afresh and keeps what is remembered. |
| Bridges.Bridge.OnJoin | images/android/bridge/server.js:183-187 | A joining browser is sent the remembered description, configuration and key frame, in that order. |
| Paths.PrefixIsDescent | internal/filesvc/fold_unix.go:9-14 | Between rendered paths the textual prefix test holds exactly when the components extend the root's, except that nothing is under "/". |
| Paths.ResolveIffDescends | internal/filesvc/service.go:25-49 | A request is accepted if and only if its cleaned components extend the root's, and then resolves to where they lead; the root "/" accepts only itself. |
| Paths.ResolveRel | internal/filesvc/service.go:114-124 | Resolving the workspace-relative rendering of a workspace path, or the path itself, gives the path back. |
| Paths.JoinDestination | internal/filesvc/sync.go:56-59 | A joined and cleaned request leads where its second part leads from where its first part leads. |
| Paths.CleanCanonical | internal/filesvc/service.go:29-35 | A cleaned path is never empty, cleans to itself and is as absolute as the original. |
| Paths.StaysIff | internal/filesvc/sync.go:56-59 | A walk from a directory ends under it if and only if the cleaned name has no leading "..", or climbs and descends again by the same names. |
| SyncSpec.UnpackContained | internal/filesvc/sync.go:14-84 | Whatever the entries, destination and failures, no path outside the root is changed or removed, and nothing appears there but missing parents of the root. |
| SyncSpec.CountsRegulars | internal/filesvc/sync.go:42-83 | The count returned is the number of regular entries written before the stop, and of all of them exactly when nothing failed. |
| SyncSpec.LastWriteWins | internal/filesvc/sync.go:60-77 | After an unpacking without failure, every path a regular entry went to holds the content of the last such entry, and every other existing path what it held. |
| SyncSpec.DirectoriesMade | internal/filesvc/sync.go:65-68 | After an unpacking without failure every directory entry's target is a directory. |
| SyncSpec.ClearedExact | internal/filesvc/sync.go:97-108 | Clearing removes everything strictly under the directory and nothing else. |
| SyncSpec.CleanLeavesOnlyEntries | internal/filesvc/sync.go:18-84 | After a clean unpacking without failure, every path strictly under the destination is an entry's target or a directory above one. |
| SyncSpec.NamesOfEntries | internal/filesvc/sync.go:51-54 | Entries named "", ".", "/" or "/." are passed over, and one leading slash of a name does not matter. |
| SyncSpec.MkdirFailsIff | internal/filesvc/sync.go:26-28 | A directory can be made exactly when no file is in the way. |
| SyncSpec.PutFileIff | internal/filesvc/sync.go:69-73 | A file can be written exactly where there is no directory and its parent is one. |
| SyncSpec.RegularExact | internal/filesvc/sync.go:69-80 | A regular entry writes its content, or as much as could be read, at its target, and counts exactly if all was read. |
| SyncSpec.EntryFailsIff | internal/filesvc/sync.go:42-83 | An entry stops the unpacking exactly if it cannot be read, leads out of the workspace, meets a file where a directory has to be or the reverse, or breaks off; links and unnamed entries change nothing. |
| SyncSpec.UnpackFailsEarly | internal/filesvc/sync.go:18-38 | What a failure before the first entry leaves: the tree unchanged, or the destination made, and emptied if asked. |
| SyncSpec.AbsoluteUnderRoot | internal/filesvc/sync.go:56-63 | Under the bare root an absolute entry name is absolute. |
| SyncSpec.EntryTarget | internal/filesvc/sync.go:51-63 | An entry goes where its name leads from the destination if that is under the root, and nowhere otherwise. |
| SyncSpec.EntryStaysIff | internal/filesvc/sync.go:14-17 | An entry with a relative name goes under the destination, the directory created and emptied, if and only if its cleaned name lands there from where entries are resolved; where the two agree, if and only if it has no leading "..", or descends again by the names it climbed. |
| SyncSpec.UnpackStaysUnder | internal/filesvc/sync.go:14-84 | For every destination text, an archive whose entries all land under the destination changes nothing outside it, whatever fails. |
| SyncSpec.LandsOutside | internal/filesvc/sync.go:48-77 | In an unpacking that does not fail, a regular entry's file is where its name lands, so one that does not land under the destination leaves a file outside it. |
| SyncSpec.BesideDestination | internal/filesvc/sync.go:14-17 | An entry "../x" unpacked under a directory of the root goes beside that directory, inside the root. |
| SyncSpec.BesideWritten | internal/filesvc/sync.go:14-84 | A whole unpacking without failure that adds just one file outside its destination. |
| SyncSpec.BaseIff | internal/filesvc/sync.go:110-116 | Entries are resolved against the directory created if and only if the destination does not start with ".//", or the rest of it climbs out of the whole root. |
| SyncSpec.DotSlashSlash | internal/filesvc/sync.go:18-84 | A family of whole unpackings, without failure, that empty one directory and write the entry beside it: the destination is ".//" followed by the root's own path. |
| FileServices.FileService.SyncFolder | internal/filesvc/sync.go:18-84 | Resolving, creating, emptying and unpacking in place refines the value-level unpacking: tree, count and failure. |
| FileServices.FileService.UnpackEntries | internal/filesvc/sync.go:42-83 | The entry loop stops at the first failure with the tree and count reached by then. |

## Left out

- Managers.Manager.List: says that no omitted job started later than a listed one, and which row is listed, when memory and store agree on starting times, as `Managers.StartsAgree` proves they do; which of two stored jobs with one starting time is cut is left open, as the sort leaves it.
- LineBuffers.LineBuffer.Write: gives consecutive numbers, that is, a call during which the other buffer completes no line; calls that interleave are the runs of `Pipeline.dfy`.
- GateRuns.DurableOwnership: covers runs without a pre-authorized token.
- Retention.TrimKeepsLiving: covers jobs whose row was inserted; a job whose insertion failed loses its stored lines at the next trim, as the code has it.
- Finished.PruneUnobservable: the replay of a watch is not compared, because memory replays its rings and the store its last 1000 lines.
- The live half of `WatchJob` and `JobWait`: they forward what the subscription delivers; the delivery is proved.
- Running commands: a job is arbitrary writes to its two buffers and a result.
- The database engine, its migrations and its read failures: tables are maps, a transaction stores a first part of a batch.
- Integer width of line numbers and of rows other than page bounds.
- Goroutine scheduling below critical sections, data races on a job's plain fields, mutexes, and select fairness.
- Randomness and constant-time comparison: minted values are fresh, comparison is equality.
- `Status`, `Code`, bearer parsing and request handlers: plumbing around the modelled state.
- Symbolic links and Windows path folding: paths are lexical, on a tree without links.
- Failures of directory creation and clearing other than a file in the way, file modes, tar and gzip decoding: an archive is a list of entries, possibly ending in an unreadable one.
- WebSocket, adb and scrcpy processes, the device name's decoding, and the player page.
- Images, manifests, scripts, the client package and generated code.
