# libiomgr, modelled and proved in Dafny

libiomgr is an asynchronous I/O library in C++. This project models the parts of it whose behaviour is hard to
see from one function at a time, and proves what they promise:

- the timer subsystem: an array min-heap, a shard of timers split into heap and list, the manager that keeps its
  shards sorted by their first deadline, and the interleavings of the lock-protected sections;
- the URI parser and printer, with percent coding and the bit-vector character set;
- the worker pool and the lock-free task, as atomic steps of any number of threads;
- the incremental HTTP parser against the request and response printers;
- printing of network addresses, and the decayed average.

`dafny verify dfyconfig.toml` checks everything.

## How to read it

Objects the library updates in place are classes whose contracts equate the new state with a function of the old
one; what the library promises is then proved about those functions. Concurrent code is a step relation with an
invariant that every step keeps and theorems over whole runs (`IsRun`).

| file | what is in it |
|---|---|
| `Times.dfy`, `HeapOrder.dfy`, `TimerHeap.dfy` | 64-bit times; the order of a heap; the heap class |
| `ShardView.dfy`, `TimerShard.dfy` | a shard as a plain table; the shard class refining it |
| `ShardQueue.dfy` | the order of the shards in the manager's queue, and how a changed deadline moves one |
| `TimerManager.dfy` | the manager class |
| `TimerProtocol.dfy`, `TimerRuns.dfy` | the threads' sections as steps and what each keeps; whole runs |
| `AveragedStats.dfy` | the decayed average |
| `AsciiSet.dfy`, `PercentCoding.dfy`, `UriChars.dfy`, `Uri.dfy`, `UriReading.dfy`, `UriRoundTrip.dfy` | the URI parser and printer; what any text is read as; the round trip |
| `TaskMachine.dfy`, `WorkerPool.dfy` | a task; the pool |
| `HttpMessage.dfy`, `HttpParsing.dfy`, `HttpParser.dfy`, `HttpRoundTrip.dfy`, `HttpReading.dfy` | messages; the parser on values; the parser class; the round trip; what any line is read as |
| `InetAddress.dfy` | addresses |
| `Joining.dfy`, `Numerals.dfy`, `Results.dfy` | joined texts; digits; optional values |

The timer classes and the protocol speak of a shard through the same predicates (`WouldBeFirst`, `Fires`,
`IsMinDeadline`, `Rearranged`): the class methods prove what the steps `Insert`, `PopShard`, `Publish` and `StoreMin`
take for granted. `Orderly` is what holds of the manager whenever its lock is free, however many threads are between
the two sections of starting a timer; `Bounded` holds when none is, and each section says what it does to either. What a
method's frame names of the manager it names of all shards or of one; `ShardParts` relates the two, so that a caller can
make one call after another.

### Choices

- A clock reading, and whatever the library does through the kernel, is a parameter; `Wakeup` counts in
  `wakeups`, and the closures given to the task runner are the sequence `posted`.
- Times are 64-bit signed microseconds. Sums are required not to overflow, and a timer must not be pending when
  it is started; the library demands both of its callers.
- Slot numbers in the heap are 32-bit; a shard holds at most 2^31 timers so that child slot numbers do not wrap.
  `HasRoom` is that demand on starting a timer, and `RoomIsSize` says it in terms of the pending timers.
  A full vector grows to twice its capacity, as the usual standard library does.
- The table of HTTP status lines is modelled by the phrases alone: `StatusText` puts the three digits of the code and
  a blank, which the program's table spells out, before each.
- `PopOne`'s outer loop never goes round: every path of its body returns. It is modelled without the loop.
- Some C++ functions are split into several methods; the extra ones have no counterpart of their own.
- A byte of a URI or of an HTTP message is a `char` below 256. Character comparisons with non-ASCII bytes follow
  signed `char`, and `isxdigit` and `isalpha` are false for them.
- Constant character sets are built where they are used.
- `HTTPRequest::AddHeader` compares header names case-sensitively (the call to `tolower` is applied to the result of
  the comparison) and takes every key that starts with `content-length`. The number is read by `atoi` from the
  memory the value begins, which in the parser is the rest of the line buffer; `atoi` is taken to cut the number to
  32 bits. Reading past the end of the line buffer, which C++ leaves undefined, is taken to give a NUL.
- The library's documentation of a URI's `ToString` promises no losses. The code pops a trailing ampersand even
  when it belongs to the path or the authority, and it prints a path of two slashes where a reader finds an
  authority. `RoundTrip` says exactly which URIs survive.

## Model

| member | source | states |
|---|---|---|
| `HeapOrder.RootIsLeast` | timer/timer_heap.cc:36 | in a heap-ordered array no entry is below the root's |
| `TimerHeaps.TimerHeap.Add` | timer/timer_heap.cc:11-16 | heap order and back-pointers kept, exactly that timer added; true iff it is due strictly before every other |
| `TimerHeaps.TimerHeap.Remove` | timer/timer_heap.cc:18-34 | heap order and back-pointers kept at any index, exactly that timer removed, across shrinking |
| `TimerHeaps.TimerHeap.Top` | timer/timer_heap.cc:36 | no timer of the heap is due before the top |
| `TimerHeaps.TimerHeap.Pop` | timer/timer_heap.cc:38 | removes exactly the top, which no other timer is due before |
| `TimerHeaps.TimerHeap.AdjustUpwards` | timer/timer_heap.cc:40-53 | restores heap order and every back-pointer from one violation towards the root; a timer that reaches the root is strictly earlier than the old root |
| `TimerHeaps.TimerHeap.AdjustDownwards` | timer/timer_heap.cc:55-77 | restores heap order and every back-pointer from one violation away from the root, and ends |
| `TimerHeaps.TimerHeap.MaybeShrink` | timer/timer_heap.cc:79-91 | the contents stay slot by slot, and from eight timers on the capacity is below four times the room for one more |
| `TimerHeaps.TimerHeap.Contains` | timer/timer_heap.cc:97-104 | finds exactly the members |
| `TimerHeaps.TimerHeap.CheckValid` | timer/timer_heap.cc:106-120 | true iff the heap order holds |
| `ShardViews.ShardView.InsertKeepsBound` | timer/timer_manager.cc:61-72 | publishing a new unique first deadline, and only that, keeps the known deadline a lower bound |
| `ShardViews.ShardView.MinDeadlineIsBound` | timer/timer_manager.cc:214-217 | although the list is not looked at, the result bounds every timer that will fire while the capacity is Infinite |
| `ShardViews.ShardView.SomeOrder` | timer/timer_manager.cc:194-199 | for every table there is an order in which its due timers can fire |
| `TimerShards.TimerShard.HeapIndexDecides` | timer/timer_manager.cc:87-92 | a pending timer is in exactly one of heap and list, and its heap index tells which |
| `TimerShards.TimerShard.UrgentAreInHeap` | timer/timer_manager.h:52-61 | all and only timers due before the capacity are in the heap |
| `TimerShards.TimerShard.Insert` | timer/timer_manager.cc:54-67 | the table gains exactly this timer and the statistics its sample; true iff its deadline is below the capacity and every heap deadline |
| `TimerShards.TimerShard.Cancel` | timer/timer_manager.cc:83-93 | the table loses exactly this timer, wherever it was, or nothing |
| `TimerShards.TimerShard.ComputeMinDeadline` | timer/timer_manager.cc:214-217 | the least deadline of the heap, Infinite without one |
| `TimerShards.TimerShard.RefillHeap` | timer/timer_manager.cc:142-167 | the batch of samples is closed and the capacity moves past now by the window of the new average, 10 ms to 1 s; heap and list are split by it again, and no timer is lost |
| `TimerShards.TimerShard.PopOne` | timer/timer_manager.cc:169-187 | for any capacity: null iff no timer of the whole shard is due, else a due timer of least deadline, removed |
| `TimerShards.TimerShard.PopTimers` | timer/timer_manager.cc:189-202 | removes exactly the due timers, each once, in deadline order, and ends; the new first deadline is later than now |
| `TimerManagers.TimerManager.constructor` | timer/timer_manager.cc:31-42 | no timers, all first deadlines and capacities Infinite, queue and shards pointing at each other, and every part of the manager new |
| `TimerManagers.TimerManager.SwapAdjacentShardsInQueue` | timer/timer_manager.cc:114-120 | any two neighbours change places, with their back-pointers, and nothing else in the queue |
| `ShardQueues.RearrangedSorts` | timer/timer_manager.cc:122-133 | moving one shard towards the front and then back sorts any queue that was sorted but for that shard |
| `ShardQueues.RearrangedSame` | timer/timer_manager.cc:122-133 | and the queue keeps its shards, each once |
| `TimerManagers.TimerManager.OnDeadlineChanged` | timer/timer_manager.cc:122-134 | the two loops end with the queue that `Rearranged` gives and correct back-pointers, and one wake-up; sorted if it was sorted but for this shard |
| `TimerManagers.TimerManager.InsertTimer` | timer/timer_manager.cc:54-67 | whatever other threads have inserted: exactly this timer is added and flagged iff it is the unique first of its heap, the queue stays sorted; if every other insertion was published, publishing the flagged deadline restores all bounds |
| `TimerManagers.TimerManager.PublishDeadline` | timer/timer_manager.cc:69-73 | whatever else is unpublished: the known deadline becomes the flagged earlier one, the queue is sorted again, a wake-up exactly when the deadline moved; if only this one was unpublished, all bounds hold |
| `TimerManagers.TimerManager.TimerInit` | timer/timer_manager.cc:46-74 | the timer is pending, its shard gains exactly it and the others nothing, and its statistics the sample; a wake-up iff it is due before the known deadline and before every timer of the heap; storage is as before or new |
| `TimerManagers.TimerManager.SoonerIsFirst` | timer/timer_manager.cc:61-73 | when every insertion is published, a timer due before the known first deadline is always the first of its heap, so the known deadline alone decides the wake-up |
| `TimerManagers.TimerManager.TimerCancel` | timer/timer_manager.cc:76-95 | the timer is no longer pending, its shard loses exactly it and the others nothing, all invariants kept; storage is as before or new |
| `TimerManagers.TimerManager.FireShard` | timer/timer_manager.cc:101-106 | whatever is unpublished: fires exactly the due timers of one shard, leaves its known deadline later than now and the queue sorted, and keeps the bounds if they held |
| `TimerManagers.TimerManager.NothingDue` | timer/timer_manager.cc:101-109 | once no shard is known to be due and every insertion is published, no timer of any shard is due |
| `TimerManagers.TimerManager.TimerCheck` | timer/timer_manager.cc:97-112 | ends, takes out only due timers, each once, those of one shard in the order of their deadlines, leaves every known deadline later than now, and returns the least one minus now, or Infinite; when every insertion is published the timers fired are exactly the due ones of all shards |
| `TimerManagers.TimerManager.FireAll` | timer/timer_manager.cc:101-106 | the rounds end because ever fewer shards are overdue, and together take out only due timers, each once |
| `TimerProtocol.InsertKeepsCovered` | timer/timer_manager.cc:54-67 | a timer that is not the unique first one is covered by whatever covers the first |
| `TimerProtocol.PublishKeepsCovered` | timer/timer_manager.cc:69-73 | what the publishing thread covered, the stored deadline covers afterwards |
| `TimerProtocol.PopShardKeepsCovered` | timer/timer_manager.cc:189-202 | after popping, the deadline about to be stored covers the shard, and so does the one still stored |
| `TimerRuns.EveryTimerCovered` | timer/timer_manager.cc:46-112 | every interleaving: a pending finite timer's shard has a known deadline no later, or a thread that inserted a first timer no later has still to publish |
| `TimerRuns.QueueAlwaysSorted` | timer/timer_manager.cc:97-134 | every interleaving: the queue holds every shard once, in the order of the known first deadlines, so its first one is least |
| `TimerRuns.NoWakeupMissed` | timer/timer_manager.cc:69-73 | every interleaving: if the poll thread oversleeps a pending timer unwoken, a publish is in flight, and that publish wakes it |
| `TimerRuns.CheckPostsTheDue` | timer/timer_manager.cc:97-112 | every interleaving: a check posts every timer pending and due when it begins, unless it is cancelled first or a thread had still to publish a deadline no later in its shard |
| `TimerRuns.SleepIsLeast` | timer/timer_manager.cc:107-111 | every interleaving: a check ends with the poll thread to sleep exactly until the least known first deadline |
| `TimerRuns.InsertTakesEffect` | timer/timer_manager.cc:54-67 | every interleaving: a started timer is pending with its deadline in the shard of its hash, for a start of its own |
| `TimerRuns.PublishTakesEffect` | timer/timer_manager.cc:69-73 | every interleaving: the known deadline moves, and a sleeping poll thread is woken, iff a unique first deadline is earlier |
| `TimerRuns.CancelTakesEffect` | timer/timer_manager.cc:76-95 | every interleaving: a cancelled timer is in no table and its start settled as cancelled; a timer not pending is left alone |
| `TimerRuns.CancelledIsNeverPosted` | timer/timer_manager.cc:76-95 | every interleaving: a start cancelled while its timer was pending is not posted in any later state |
| `TimerRuns.ListsHoldOnlyInfinite` | timer/timer_manager.cc:31-42 | with finite clock readings the capacity stays Infinite and lists hold only timers that never fire |
| `TimerRuns.ChecksEnd` | timer/timer_manager.cc:101-106 | whatever is inserted meanwhile, a check pops at most eight shards |
| `TimerRuns.ChecksProceed` | timer/timer_manager.cc:97-112 | a check under way always has a step to take |
| `TimerRuns.StartsAccountedFor` | timer/timer_manager.cc:46-95 | every start is pending, or posted exactly once and not before its deadline, or cancelled and never posted; `CancelTakesEffect` and `CheckPostsTheDue` say when it is which |
| `TimerRuns.OutcomesAreFinal` | timer/timer_manager.cc:76-95 | a posted or cancelled start stays so in every later state |
| `AverageStats.AveragedStats.AddSample` | util/averaged_stats.cc:15-18 | the current batch gains exactly the sample |
| `AverageStats.AveragedStats.UpdateAverage` | util/averaged_stats.cc:20-42 | the average times the decayed weight is the decayed total of all batches; with no weight it is the initial average |
| `AverageStats.AveragedStats.AverageWithin` | util/averaged_stats.h:22-38 | after any run the average lies between any bounds of the initial average and all samples seen |
| `AverageStats.Settings.FirstBatchDecays` | util/averaged_stats.cc:20-42 | a batch counts, after k later ones, for its samples and the regression weight scaled down k times by the persistence |
| `AverageStats.Settings.TotalWithin` | util/averaged_stats.cc:24-36 | the decayed total lies between the decayed weight times such bounds |
| `AsciiSets.ASCIISet.Set` | util/uri_parser.cc:51-54 | exactly one character is added; a byte from 128 on counts as the one 128 below |
| `AsciiSets.ASCIISet.constructor` | util/uri_parser.cc:44-48 | the two words answer for exactly the characters of the string |
| `AsciiSets.SameBit` | util/uri_parser.cc:51-61 | word and bit number tell all 128 ASCII characters apart |
| `PercentCoding.IntToHexDigit` | util/uri_parser.cc:26-35 | HexDigitToInt undoes IntToHexDigit |
| `UriReading.HexDigits` | util/uri_parser.cc:26-35 | digits of either case have the value of their place among the sixteen, and capital ones are printed |
| `PercentCoding.PercentEncode` | util/uri_parser.cc:120-142 | both paths give the text in which exactly the bytes outside the set are escaped |
| `PercentCoding.PercentDecode` | util/uri_parser.cc:260-276 | every complete escape is replaced, and any other percent sign stands for itself |
| `PercentCoding.DecodeUndoesEncode` | util/uri_parser.cc:120-142 | decoding undoes encoding for all byte strings iff the set lacks the percent sign or every hexadecimal digit |
| `PercentCoding.EncodeHolds` | util/uri_parser.cc:120-142 | an encoded text holds only unreserved characters, percent signs and hexadecimal digits |
| `PercentCoding.DecodeLength` | util/uri_parser.cc:260-276 | decoding lengthens nothing and empties only the empty text |
| `UriChars.PathTable` | util/uri_parser.cc:73-77 | the table makes exactly the set of path characters |
| `UriChars.AuthorityTable` | util/uri_parser.cc:79-83 | the table makes exactly the set of authority characters |
| `UriChars.SchemeTable` | util/uri_parser.cc:85-88 | the table makes exactly the set of scheme characters |
| `UriChars.QueryTable` | util/uri_parser.cc:90-94 | the table makes exactly the set of query characters |
| `UriChars.FragmentTable` | util/uri_parser.cc:96-100 | the table makes exactly the set of fragment characters |
| `Uris.SplitOfIsTheSplit` | util/uri_parser.cc:157-233 | a text has a cut into parts at their delimiters iff a scheme is found, and only the one the parser makes |
| `Uris.FindFirstOf` | util/uri_parser.cc:145-155 | the part before the first character of the set, all of the text without one |
| `Uris.IsQueryOrFragmentString` | util/uri_parser.cc:102-107 | true iff every byte may stand in a query or fragment |
| `Uris.ParsePairs` | util/uri_parser.cc:208-221 | the pairs of the query text, in order; `PairsOfPieces`, `PairIsCutOnce` and `PairWithoutEquals` say on the text which they are |
| `UriReading.PairsOfPieces` | util/uri_parser.cc:208-221 | for every query: one pair for each piece between its ampersands, in order; an empty piece makes an empty pair, except at the end, where it makes none |
| `UriReading.SomePieces` | util/uri_parser.cc:208-221 | every query is such pieces joined by ampersands |
| `UriReading.PairIsCutOnce` | util/uri_parser.cc:210-219 | only the first equals sign cuts: key and value are decoded, whatever the value holds |
| `UriReading.PairWithoutEquals` | util/uri_parser.cc:210-219 | a piece without an equals sign is a key with an empty value |
| `Uris.Parse` | util/uri_parser.cc:157-238 | the first fault of the text, in the program's order, or its decoded parts, as `TextIsRead` and `AcceptedIsDecoded` say on the text |
| `UriReading.SchemeNotFoundWhere` | util/uri_parser.cc:160-163 | no scheme is found iff there is no colon or the text starts with one |
| `UriReading.TextIsRead` | util/uri_parser.cc:165-231 | for every text cut into its parts: which scheme, query or fragment is refused, with which fault and in which order, in terms of the listed characters; all else is accepted |
| `UriReading.AcceptedIsDecoded` | util/uri_parser.cc:157-238 | of an accepted text every part is decoded and the pairs are those of the query's pieces |
| `Uris.ToString` | util/uri_parser.cc:305-332 | the encoded parts joined by their delimiters; the popped ampersand is that of the last pair, or else of the path or authority |
| `UriRoundTrip.PrintsPlainly` | util/uri_parser.cc:305-332 | a URI of listed characters that loses no ampersand is printed without an escape: its components with the delimiters between them |
| `Uris.DropFromFront` | util/uri_parser.cc:324-326 | popping the last byte of the text drops it from the last part before the fragment |
| `UriRoundTrip.PairsRoundTrip` | util/uri_parser.cc:314-323 | every list of query pairs, with any bytes, repeated or empty, is read back |
| `UriRoundTrip.ParsePrinted` | util/uri_parser.cc:305-332 | a printed URI reads back as itself less the ampersand its text loses |
| `UriRoundTrip.ParsedShape` | util/uri_parser.cc:157-197 | whatever was parsed has a valid scheme, and a slash where a path follows an authority |
| `UriRoundTrip.CreateAcceptsTheParsable` | util/uri_parser.cc:240-254 | some text parses to a URI iff its scheme is valid and it passes the test by which Create accepts, `HasRoom` |
| `UriRoundTrip.SlashesAreLost` | util/uri_parser.cc:308-314 | without an authority a path of two slashes never reads back |
| `UriRoundTrip.RoundTrip` | util/uri_parser.cc:157-332 | parsing undoes printing iff the scheme is valid, the path fits the authority, two slashes do not lead a bare path, and no ampersand is lost |
| `UriRoundTrip.ParsePrintParse` | util/uri_parser.cc:157-332 | printing a parsed text and parsing again gives the same URI iff neither of the last two faults applies |
| `UriRoundTrip.TwoSlashesComeUp` | util/uri_parser.cc:187-197 | an accepted text whose URI does not survive printing, because of two slashes |
| `UriRoundTrip.AmpersandComesUp` | util/uri_parser.cc:324-326 | an accepted text whose URI comes back without its ampersand |
| `TaskMachine.StepKeepsClaim` | threading/task_runner_task.cc:15-27 | every step keeps that at most one thread claims the task and that its place determines the shared state |
| `TaskMachine.AtMostOnce` | threading/task_runner_task.cc:15-27 | every interleaving: functor and Notify at most once; once notified, the functor was called and the state is Completed |
| `TaskMachine.StatesSettle` | threading/task_runner_task.cc:29-46 | every interleaving: Completed is final, and a task cancelled while pending stays cancelled and never runs |
| `TaskMachine.BlockedWaitsForAnother` | threading/task_runner_task.cc:48-54 | every interleaving: a blocked thread is not the runner; another thread is between its claim and Notify, unblocked, or the notification was made |
| `TaskMachine.OneCancelIsBounded` | threading/task_runner_task.cc:29-46 | every interleaving, from any reachable state in which the task is not cancelled and no thread is in CancelTask: a further cancel call never reaches the forbidden branch, and at most two of its swaps fail |
| `TaskMachine.CancelStopsPendingOnly` | threading/task_runner_task.cc:29-46 | one swap to Canceled at most; from Pending nobody runs the task, from Running somebody does |
| `TaskMachine.CancelTakesEffect` | threading/task_runner_task.cc:29-46 | every interleaving: a call of CancelTask returns only when the task is Canceled or Completed, and if Canceled by its own swap |
| `TaskMachine.SwapCancels` | threading/task_runner_task.cc:33-37 | every interleaving: a swap that finds the state as loaded, Pending or Running, cancels the task and returns |
| `TaskMachine.SwapFails` | threading/task_runner_task.cc:33-39 | every interleaving: a swap that finds it changed leaves the task as it is and goes round again |
| `TaskMachine.PendingCancelIsFinal` | threading/task_runner_task.cc:15-37 | every interleaving: a task cancelled while Pending is Canceled and its functor never called in every later state |
| `TaskMachine.RunTakesPending` | threading/task_runner_task.cc:15-19 | every interleaving: Run claims a Pending task, and does nothing to any other |
| `TaskMachine.RunProceeds` | threading/task_runner_task.cc:15-27 | every interleaving: a thread in Run always has a step, and each step of Run brings it nearer to its end |
| `TaskMachine.CancelAgain` | threading/task_runner_task.cc:41-43 | cancelling a cancelled task reaches the forbidden branch and is back in the loop |
| `TaskMachine.OneMoreCancel` | threading/task_runner_task.cc:29-46 | from any reachable state with no thread in CancelTask: some way on with exactly one more cancel call reaches the forbidden branch iff the state is Canceled |
| `TaskMachine.WakesAfterFunctor` | threading/task_runner_task.cc:48-54 | every interleaving: a thread that blocked returns only notified, after the state became Completed and the functor, if any, was called and left, and is not the runner |
| `TaskMachine.WaitCoversFunctor` | threading/task_runner_task.cc:48-54 | every interleaving: a wait by a thread outside Run, for a task claimed before and not cancelled, returns only when the task is Completed and its functor over |
| `TaskMachine.WaitBlocksIffRunning` | threading/task_runner_task.cc:48-54 | a wait blocks iff the state is Running and the thread is not the runner; from a task cancelled while running it returns at once |
| `WorkerPool.PoppedInOrder` | threading/task_runner.cc:70-105 | every interleaving: tasks are taken in the order of their posts, each once, none lost |
| `WorkerPool.StepKeepsAttended` | threading/task_runner.cc:76-81 | signalling only on an empty queue keeps that a waiting task finds a worker that does not wait |
| `WorkerPool.SomeWorkerTakesIt` | threading/task_runner.cc:86-105 | every interleaving: while a task waits, two steps of one worker suffice to take the first and to be running it |
| `WorkerPool.WorkerRunsWhatItTakes` | threading/task_runner.cc:86-105 | every interleaving: a worker that looks at the queue waits if it is empty, leaves if the pool has stopped, and otherwise runs the very task it takes off the front |
| `WorkerPool.TasksAccountedFor` | threading/task_runner.cc:46-105 | every interleaving: every posted task is in exactly one place, once: waiting, being run by one worker, run to the end, or cancelled |
| `WorkerPool.PostIsAccepted` | threading/task_runner.cc:70-84 | every interleaving: until the stop a post puts a task of its own at the end of the queue, after it none |
| `WorkerPool.StopStops` | threading/task_runner.cc:46-67 | the destructor's sections stop the pool and empty the queue |
| `WorkerPool.NothingAfterStop` | threading/task_runner.cc:46-56 | after the stop nothing is taken or accepted and no worker waits |
| `WorkerPool.DrainCancelsTheRest` | threading/task_runner.cc:63-67 | the destructor cancels exactly the tasks nobody took, in order, and the empty ones |
| `WorkerPool.StopEnds` | threading/task_runner.cc:58-61 | joining ends: each step of a worker lowers the work left, and no other step raises it |
| `WorkerPool.StoppedWorkersMove` | threading/task_runner.cc:86-101 | after the stop every worker that has not left has a step to take |
| `HttpMessages.StatusTextSpells` | io/http_response.cc:9-59 | every status line spells its own code, a blank and a phrase without a line feed, in fewer than 64 bytes |
| `HttpMessages.NumberOfDecimal` | io/http_request.cc:42 | a printed length reads back, whatever follows it but a digit |
| `HttpReading.NumberWithSign` | io/http_request.cc:19 | a sign before the digits counts |
| `HttpReading.NumberAfterSpaces` | io/http_request.cc:19 | white space before the number does not |
| `HttpReading.AtoiWraps` | io/http_request.cc:19 | of a number of 64 bits only whole multiples of 2^32 are lost |
| `HttpReading.KeysOfLength` | io/http_request.cc:11-20 | a key names the length iff it starts with content-length, in small letters |
| `HttpMessages.HTTPRequest.AddHeader` | io/http_request.cc:10-24 | the header is appended; the length is set by the first key that starts with content-length |
| `HttpMessages.HTTPRequest.ToString` | io/http_request.cc:26-47 | first line, header lines, the generated length exactly if none was set, blank line, body |
| `HttpReading.RequestText` | io/http_request.cc:26-47 | the very text of a request with a header |
| `HttpReading.RequestTextWithLength` | io/http_request.cc:38-43 | the very text of a request whose length is generated |
| `HttpMessages.HTTPResponse.AddHeader` | io/http_response.cc:67-70 | the header is appended |
| `HttpMessages.HTTPResponse.ToString` | io/http_response.cc:72-85 | first line, header lines, blank line, body |
| `HttpReading.ResponseText` | io/http_response.cc:72-85 | the very text of a response with a header |
| `HttpParsing.SkipPast` | util/http_parser.cc:172-173 | the loop stops right after the first separator, or at the end |
| `HttpParsing.ValueFits` | util/http_parser.cc:144 | the check of the debug builds holds for every line that ends as recorded, even after the recorded length drops to one |
| `HttpParsing.FeedConcat` | util/http_parser.cc:31-42 | feeding two parts is feeding the whole, up to the first refused byte |
| `HttpParsing.ChunksDoNotMatter` | util/http_parser.cc:31-42 | every cut into chunks gives the same result |
| `HttpParsing.StreamsStayClean` | util/http_parser.cc:45-148 | on every byte stream: no line feed stays in the line, its length stays within the buffer, and no part read holds a delimiter |
| `HttpParsers.HTTPParser.Parse` | util/http_parser.cc:31-42 | feeds the chunk byte by byte; the start of the body is set in the chunk that ends the headers |
| `HttpParsers.HTTPParser.AddByte` | util/http_parser.cc:45-68 | one step of the parser on values, with the body reported exactly when it is entered |
| `HttpParsers.HTTPParser.CheckLine` | util/http_parser.cc:71-86 | a line ends iff its last byte is a line feed, and its end counts one byte unless a carriage return precedes |
| `HttpParsers.HTTPParser.FinishLine` | util/http_parser.cc:89-116 | first line, blank line or header, with what is stored before a fault |
| `HttpParsers.HTTPParser.AddHeader` | util/http_parser.cc:119-148 | refuses a continued line or one without a colon, else stores key and value without blanks or line end; `HeaderLineIsRead` says on the text which they are |
| `HttpReading.HeaderLineIsRead` | util/http_parser.cc:71-148 | for every line that is a key, a colon, any blanks and a value, and ends in LF or CRLF: the header added is exactly key and value; a CR stays in the value once a line has ended without one |
| `HttpReading.OtherLineIsRefused` | util/http_parser.cc:119-134 | every other line but the empty one is refused: it starts with a blank or has no colon |
| `HttpReading.EmptyLineEndsHeaders` | util/http_parser.cc:89-116 | the empty line ends the headers and changes nothing in the message |
| `HttpReading.EveryLineIsOne` | util/http_parser.cc:119-148 | a line that neither starts with a blank nor lacks a colon is a key, a colon, blanks and a value |
| `HttpReading.AnyLine` | util/http_parser.cc:45-86 | every line is handled at its line feed if it fits 4096 bytes, with the length of its end as recorded, and refused otherwise |
| `HttpParsers.HTTPParser.HandleRequestLine` | util/http_parser.cc:166-211 | method, URI and version as far as recognised, with the retried characters |
| `HttpReading.RequestLineIsCut` | util/http_parser.cc:166-196 | the first blank ends the method and the second the target, whatever follows |
| `HttpReading.NoBlankIsRefused` | util/http_parser.cc:170-178 | a request line without a blank is refused |
| `HttpReading.MethodByName` | util/http_parser.cc:180-188 | a method is known by its exact name |
| `HttpReading.VersionByDigits` | util/http_parser.cc:197-211 | of the versions spelled with digits exactly 1.0, 1.1 and 2.0 are known |
| `HttpParsers.HTTPParser.HandleStatusLine` | util/http_parser.cc:215-259 | version and status as far as recognised |
| `HttpReading.StatusLineByText` | util/http_parser.cc:215-259 | after a known version, accepted iff a code of three digits, the first not zero, stands between two blanks; its value is stored |
| `HttpParsers.HTTPParser.Match` | util/http_parser.cc:156-162 | a character that does not match is tried once more on the next |
| `HttpReading.StrayIsSkipped` | util/http_parser.cc:156-162 | one stray character before the version is passed over, two are not |
| `HttpRoundTrip.FeedLine` | util/http_parser.cc:45-68 | a printed line is handled at its end if it fits 4096 bytes and refused otherwise |
| `HttpRoundTrip.HeaderIsRead` | util/http_parser.cc:119-148 | a printed header without inner delimiters is read back whole |
| `HttpRoundTrip.RequestLineIsRead` | util/http_parser.cc:166-211 | a printed request line is read back |
| `HttpRoundTrip.StatusLineIsRead` | util/http_parser.cc:215-259 | a printed status line is read back, for every code of the table |
| `HttpRoundTrip.RequestRoundTrip` | util/http_parser.cc:30-148 | a fresh parser reads a printed request back, generated length included, iff no part holds a delimiter and every line fits |
| `HttpRoundTrip.RequestRoundTripInChunks` | io/http_request.cc:26-47 | the same for every cut into chunks |
| `HttpRoundTrip.GeneratedLengthIsRead` | io/http_request.cc:38-43 | the generated length is parsed as the length of the body |
| `HttpRoundTrip.FirstLengthIsRead` | io/http_request.cc:10-24 | the length of a parsed request is that of its first header whose key starts with content-length |
| `HttpRoundTrip.BodyStartIsFound` | util/http_parser.cc:37-39 | for every cut of a printed request into chunks: the chunk with the end of the headers reports the place right after it, counted in that chunk, and no other chunk reports one |
| `HttpRoundTrip.BodyStartOfResponseIsFound` | util/http_parser.cc:31-42 | the same for every cut of a printed response |
| `HttpRoundTrip.ResponseRoundTrip` | io/http_response.cc:72-85 | for every code of the table and every cut into chunks, a printed response reads back as itself iff no header holds a delimiter and every line fits |
| `InetAddresses.ChooseIPv6ContractionRange` | util/inet_address.cc:32-55 | the range is the leftmost of the longest runs of at least two zero groups, or none if there is none |
| `InetAddresses.ToIPv4Address` | util/inet_address.cc:21-30 | four decimal numbers with dots between them |
| `InetAddresses.ToIPv6Address` | util/inet_address.cc:57-85 | the groups in hexadecimal with colons between them, the contracted range as two colons, in brackets |
| `InetAddresses.FieldSpellsBytes` | util/inet_address.cc:66-80 | each field, with its leading zeros, spells its two bytes, the first one first; the zeros are left out |
| `InetAddresses.DecimalSpellsByte` | util/inet_address.cc:21-30 | each decimal field is its byte, without leading zeros |
| `Numerals.HexDigitsAre` | util/inet_address.cc:66-80 | the hexadecimal digits are small letters |
| `InetAddresses.InnerInjective` | util/inet_address.cc:57-85 | no two different addresses are printed alike, contracted or not |
| `InetAddresses.TextTellsAddress` | util/inet_address.cc:111-119 | within a family texts are the same iff the significant bytes are |
| `InetAddresses.Equal` | include/iomgr/tcp/inet_address.h:35-38 | comparison by text agrees with equality of family, port and significant bytes |

## Left out

- Sockets, epoll, eventfd, DNS, `inet_pton`, logging, status strings and real clocks: foreign calls.
- How a wake-up reaches the poll thread through the eventfd: only that `Wakeup` is called is proved.
- `IOManager`'s file descriptor and mode bookkeeping: it is right only if live controllers of one descriptor have disjoint modes, and then says little more than its own body.
- The HTTP client and server drivers and the TCP callback plumbing: mostly foreign calls.
- The accepted grammar of HTTP first lines: the parser accepts more than the printers print; the model follows it, and the round trip covers printed lines.
- `TimerHeap::ResetDeadline`, which nothing calls, and the task handle a timer's controller keeps.
- `Time`'s conversions, `WallTime`, `IOBuffer`, `Status`, `StatusOr`, `RefPtr`, `ScopedFD`: they would only add easy members.
- The order of firing across shards: a check drains one shard at a time, so only the order within a shard is fixed.
- Rounding: the statistics and the width of the refill window are over real numbers.
- Strings longer than an `int` can count: the program's index variables would overflow.
- AverageStats.AveragedStats.AverageWithin: over real numbers, not IEEE doubles.
- TaskMachine.BlockedWaitsForAnother: says that the runner can take its next step, not that the functor returns.
- WorkerPool.SomeWorkerTakesIt: says that the steps are possible, not that the scheduler takes them.
