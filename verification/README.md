# Verification of the event-driven web server

A Dafny model of the four stateful parts of the server, and proofs about them. `dafny verify dfyconfig.toml` checks
everything.

## What is modelled

**The concurrent hash table** (`ConcurrentHashMap.hpp`), twice. `TableMachine` is a step machine: any number of threads
take bucket locks, walk one node per step over an explicit heap, mutate, free what they unlinked, and unlock; a freed
address may be handed out again. `TableInvariant` and `TableHistory` hold what every step keeps, `TableTheorems` what
follows for whole runs: no thread holds a freed address it may follow, lists are finite, live and without repetition,
writers exclude everyone, nothing leaks, nothing deadlocks, and the table is linearizable. `TableProgress` bounds how long
a lock is held and how long the calls take. `TableClear` takes apart the whole-map Clear, which locks one bucket at a
time; `TableAtomicity` and `TableAtomicityWitness` say when it is atomic all the same. `HashTables` is the same code as objects with real `next` pointers, proved against the rows of entries in
`Rows`, and those against a map.

**The thread pool** (`ThreadPool.hpp`). `ThreadPoolMachine` has any number of workers and of threads that call enqueue,
one destructor, a mutex, a condition variable with spurious wake-ups, and `notify_one` as a step after the unlock.
`ThreadPoolProofs` shows that no wake-up is lost, that accepted work is run exactly once and in order, and that shutdown
ends; `ThreadPoolAccounts` that what is accepted is what callers passed; `ThreadPoolOpen` that a pool runs what it has
accepted also when nobody stops it. `ThreadPoolWitness` is a run of a pool without workers. `ThreadPoolClass` is the object, one method per critical
section.

**The HTTP text layer** (`HttpParser.cpp`). `Text` is the splitter and its laws. `HttpRequests` is the request parser as
written and the printer of section 5 of RFC 2616; `HttpResponses` is the response printer as written and the reader of
section 4.4 of RFC 2616. The round trips hold for all texts, bodies and streams, with the exact conditions under which
they hold.

**The connection lifecycle** (`Server.cpp`, `HttpServer.cpp`, `EventHandler.cpp`, `MemoryPool.cpp`). `MemoryPools` is the
block pool under failing allocations. `Lifecycle` joins pool, contexts, open descriptors, event registrations and the
connection map, runs batches of events and Terminate over them, and shows that they agree in every reachable state and
that no event is ever handled on a context other than the one it fired for. Any allocation on the way may throw.
`HttpServers` is the object that holds a pool, a hash table of connections and a parser, all as objects, and whose methods
and loops do these steps.

In `TableMachine` and `ThreadPoolMachine` some state fields only record history (`spine`, `abs`, `log`, `hist`;
`accepted`, `taken`, `ran`). No step reads them to decide what to do. In `Lifecycle` the same holds of `lastHandle`,
`ids`, `accepted`, `orphans` and `strays`.

## What the code does that one might not expect

- A whole-map Clear is atomic in every run of a table exactly when the table has one bucket
  (`TableAtomicityWitness.AtomicExactly`); in a table of more, calls are atomic in every state in which nothing took effect
  in the middle of a Clear (`TableAtomicity.UndisturbedIsAtomic`).
- A pool without workers accepts work, is destroyed, and has not run it (`ThreadPoolWitness.UnrunWork`,
  `ThreadPoolProofs.DrainedExactly`).
- `split` drops empty lines, so the blank line between head and body is not seen; the body of a POST, PUT or PATCH is the
  last line. A buffer without a line, a request line with fewer than two words, and a POST, PUT or PATCH without a line
  behind it read a deque out of range, and no other buffers do (`HttpRequests.FaultsExactly`).
- A header value is read back only when exactly one character separates it from the colon, where section 4.2 of RFC 2616
  allows any amount of white space; a header line that ends at its first colon throws (`HttpRequests.ThrowsExactly`).
- A word that is not one of the nine methods reads as GET (`HttpRequests.UnknownWordsReadAsGet`) and stays in the parser's
  table. Whatever version a client sends, the request has version 1.1 (`HttpRequests.ParsedReads`), and so has an answer
  that takes it over (`HttpResponses.RepliesAreOneOne`).
- A status other than 200, 404 or 500 is sent as 404, and headers that a handler adds to a response are not sent
  (`HttpResponses.StatusCodeSurvives`, `HttpResponses.ViewDetermines`).
- The size of a response buffer has 16 bits, so a longer response is cut (`HttpResponses.ResponseReadsExactly`).
- End of file and errors on a connection do not end it, because DigestEvent overwrites Disconnect with Read; only
  `Connection: close` and Terminate do (`Lifecycle.SurvivesExactly`).
- The 101st connection is refused by an exception that leaves the event loop (`Lifecycle.RefusedExactly`,
  `Lifecycle.BatchGoesOn`, `Lifecycle.TheHundredAndFirst`). The objects stay intact, and Terminate still works on them. The comment at MemoryPool.hpp
  line 45 names another exception than the one that is thrown.
- When the `new` of the timer or of the table's node throws in HandleNewConnectionEvent, the loop ends with a block, and
  in the second case a descriptor, that no connection holds and nothing gives back (`Lifecycle.RunAgrees`). It cannot be
  more than one of each, and Terminate closes the others.
- A `new` that throws in a memory pool still counts towards its maximum, so enough failures exhaust it for good
  (`MemoryPools.FailuresExhaust`).
- The counter of a memory pool can overflow exactly when the pool has no maximum (`MemoryPools.OverflowsExactly`).
- Terminate counts down from the descriptor accepted last, which need not be the largest
  (`Lifecycle.TerminateMayLeaveOne`), and reads an uninitialised pointer when nothing was ever accepted.

## Model

| member | source | states |
|---|---|---|
| TableInvariant.RunKeeps | Abstractions/include/Abstractions/ConcurrentHashMap.hpp:50-143 | In every reachable state locks exclude each other, every bucket's list is linked, keyed and holds exactly the map's entries (or is being swept), walkers stand on allocated nodes, and nothing leaks |
| TableTheorems.NoDanglingPointer | Abstractions/include/Abstractions/ConcurrentHashMap.hpp:53-63 | In every run no walker's node or predecessor, no node that Clear is about to free and no unlinked victim is a freed address |
| TableTheorems.ListsLive | Abstractions/include/Abstractions/ConcurrentHashMap.hpp:72-91 | Outside a Clear of its bucket, the chain from a head is finite, allocated throughout and visits no node twice |
| TableTheorems.WritersExclude | Abstractions/include/Abstractions/ConcurrentHashMap.hpp:53-71 | A bucket with a writer has no other holder, reader or writer |
| TableTheorems.NothingLeaks | Abstractions/include/Abstractions/ConcurrentHashMap.hpp:99-143 | Every allocated node is on the list of its key's bucket or is the victim that a running Erase is about to delete |
| TableTheorems.ListsAreTheMap | Abstractions/include/Abstractions/ConcurrentHashMap.hpp:50-128 | A key has a value in the atomic map if and only if the list of its bucket, when not being swept, has a node with both |
| TableTheorems.StepsRefine | Abstractions/include/Abstractions/ConcurrentHashMap.hpp:50-128 | Every step of every run leaves the atomic map alone or is exactly one atomic effect, made by a thread that holds the bucket's lock |
| TableHistory.RunHist | Abstractions/include/Abstractions/ConcurrentHashMap.hpp:170-194 | In every reachable state the log of effects is legal, ends in the present map, and belongs entry by entry to the calls made and returned |
| TableTheorems.EffectsAreSequential | Abstractions/include/Abstractions/ConcurrentHashMap.hpp:170-194 | The effects in their order are a legal sequential history of the atomic map, with every recorded answer the map's own |
| TableTheorems.CallsTakeEffectOnce | Abstractions/include/Abstractions/ConcurrentHashMap.hpp:170-186 | A Find, Insert or Erase that returned took effect exactly once, between invocation and return, and returned what the map answered there |
| TableTheorems.EffectsBelongToCalls | Abstractions/include/Abstractions/ConcurrentHashMap.hpp:170-186 | Every effect belongs to a call that was invoked before it, with that operation |
| TableTheorems.RunRanked | Abstractions/include/Abstractions/ConcurrentHashMap.hpp:188-194 | In every run the effects of one call come in the order of their buckets and none is skipped |
| TableTheorems.OneEffectPerCall | Abstractions/include/Abstractions/ConcurrentHashMap.hpp:170-194 | A call, returned or pending, has at most one effect; a Clear at most one on each bucket |
| TableTheorems.RealTimeOrder | Abstractions/include/Abstractions/ConcurrentHashMap.hpp:170-186 | When one call returned before another was invoked, its effects come first |
| TableTheorems.NeverStuck | Abstractions/include/Abstractions/ConcurrentHashMap.hpp:56-91 | Inside a call, a thread that is not waiting for a lock can always take its next step |
| TableTheorems.NoDeadlock | Abstractions/include/Abstractions/ConcurrentHashMap.hpp:50-143 | While any call is under way some thread that is inside a call can step |
| TableTheorems.LockGrantedExactly | Abstractions/include/Abstractions/ConcurrentHashMap.hpp:52-53 | A waiting Find can take its lock if and only if no writer is in the bucket, however many readers are; any other call if and only if nobody is |
| TableProgress.HoldIsBounded | Abstractions/include/Abstractions/ConcurrentHashMap.hpp:50-143 | While a thread holds a bucket's lock, whatever the other threads do, it makes at most three steps more than the bucket's list is long before it has released it |
| TableProgress.QuietIsBounded | Abstractions/include/Abstractions/ConcurrentHashMap.hpp:50-194 | In a stretch of a run without new calls every step lowers a measure, so that there are at most as many as the measure says |
| TableProgress.QuietEndsIdle | Abstractions/include/Abstractions/ConcurrentHashMap.hpp:50-194 | No thread can go on with its call if and only if no call is under way |
| TableProgress.AllCallsReturn | Abstractions/include/Abstractions/ConcurrentHashMap.hpp:50-194 | Every run can be continued without new calls, within that measure, until every call has returned |
| TableClear.ClearIsASequence | Abstractions/include/Abstractions/ConcurrentHashMap.hpp:188-194 | A Clear that returned is exactly one atomic clear of each bucket, from the first to the last, all while it ran |
| TableClear.InsertedSince | Abstractions/include/Abstractions/ConcurrentHashMap.hpp:130-143 | In the atomic history a key present after its bucket was cleared was inserted since |
| TableClear.SurvivorsWereInserted | Abstractions/include/Abstractions/ConcurrentHashMap.hpp:188-194 | After a concurrent Clear a key is present only if an Insert of it took effect after its bucket was cleared |
| TableClear.ClearEmpties | Abstractions/include/Abstractions/ConcurrentHashMap.hpp:188-194 | When no Insert takes effect while a Clear runs, the map is empty at its return |
| TableAtomicity.UndisturbedIsAtomic | Abstractions/include/Abstractions/ConcurrentHashMap.hpp:188-194 | A reachable state in which no other call took effect between two effects of a Clear is explained by one order of atomic whole calls: with every answer, in real time, ending in the present map |
| TableAtomicity.OneBucketIsAtomic | Abstractions/include/Abstractions/ConcurrentHashMap.hpp:188-194 | Every state of every run of a table of one bucket is so explained |
| TableAtomicityWitness.ClearIsNotAtomic | Abstractions/include/Abstractions/ConcurrentHashMap.hpp:188-194 | Every table of two or more buckets has a run, of a Clear and two Inserts, that no order of atomic whole calls explains |
| TableAtomicityWitness.AtomicExactly | Abstractions/include/Abstractions/ConcurrentHashMap.hpp:156-159 | All runs of a table of n buckets are explained by atomic whole calls if and only if n is 1 |
| Rows.PutLaws | Abstractions/include/Abstractions/ConcurrentHashMap.hpp:68-97 | Inserting into a bucket keeps keys distinct and changes the lookup of that key only |
| Rows.RemoveLaws | Abstractions/include/Abstractions/ConcurrentHashMap.hpp:99-128 | Erasing from a bucket keeps keys distinct, makes that key absent and changes no other lookup |
| Rows.GetIsLookup | Abstractions/include/Abstractions/ConcurrentHashMap.hpp:170-174 | Looking in the one bucket of a key answers for the whole table |
| Rows.PutIsUpdate | Abstractions/include/Abstractions/ConcurrentHashMap.hpp:176-180 | Insert keeps every key in its own bucket and is a map update |
| Rows.RemoveIsErase | Abstractions/include/Abstractions/ConcurrentHashMap.hpp:182-186 | Erase keeps every key in its own bucket and removes the key from the map |
| Rows.OperationsRefine | Abstractions/include/Abstractions/ConcurrentHashMap.hpp:170-194 | After any sequence of operations the table stands for the map on which the same operations were done |
| HashTables.HashBucket.Find | Abstractions/include/Abstractions/ConcurrentHashMap.hpp:50-66 | The loop over the chain returns the value of the key, or nothing when no node has it |
| HashTables.HashBucket.Walk | Abstractions/include/Abstractions/ConcurrentHashMap.hpp:72-79 | The walk ends at the key's node, or at the end, with its predecessor |
| HashTables.HashBucket.Append | Abstractions/include/Abstractions/ConcurrentHashMap.hpp:81-91 | A new key goes behind the last node, by head or by the predecessor's link |
| HashTables.HashBucket.Insert | Abstractions/include/Abstractions/ConcurrentHashMap.hpp:68-97 | The chain stays acyclic with distinct keys; a new key goes last, an update keeps its position; when the `new` for a new key throws, nothing has changed |
| HashTables.HashNode.Delete | Abstractions/include/Abstractions/ConcurrentHashMap.hpp:23-26 | Freeing a node clears its link; no node is freed twice |
| HashTables.HashBucket.Bypass | Abstractions/include/Abstractions/ConcurrentHashMap.hpp:118-125 | The node leaves the chain, by head or by the predecessor's link, and is not freed yet |
| HashTables.HashBucket.Unlink | Abstractions/include/Abstractions/ConcurrentHashMap.hpp:116-127 | The node leaves the chain and is freed, the order of the rest is kept |
| HashTables.HashBucket.Erase | Abstractions/include/Abstractions/ConcurrentHashMap.hpp:99-128 | Exactly the entry of the key leaves the chain, if there is one, and exactly its node is freed |
| HashTables.HashBucket.Clear | Abstractions/include/Abstractions/ConcurrentHashMap.hpp:130-143 | The walk frees every node of the chain, each once, and leaves the bucket empty |
| HashTables.ConcurrentHashMap.constructor | Abstractions/include/Abstractions/ConcurrentHashMap.hpp:156-159 | A new table has distinct empty buckets and stands for the empty map |
| HashTables.ConcurrentHashMap.Disjoint | Abstractions/include/Abstractions/ConcurrentHashMap.hpp:196-199 | No node is in two chains |
| HashTables.ConcurrentHashMap.Find | Abstractions/include/Abstractions/ConcurrentHashMap.hpp:170-174 | Find is lookup in the map of the whole table |
| HashTables.ConcurrentHashMap.Insert | Abstractions/include/Abstractions/ConcurrentHashMap.hpp:176-180 | Insert is update of that map and only the key's own row changes, unless the key is new and `new` throws; then nothing changes |
| HashTables.ConcurrentHashMap.Erase | Abstractions/include/Abstractions/ConcurrentHashMap.hpp:182-186 | Erase is removal from that map; no node is added |
| HashTables.ConcurrentHashMap.ClearBuckets | Abstractions/include/Abstractions/ConcurrentHashMap.hpp:190-193 | The loop over the buckets leaves every row empty |
| HashTables.ConcurrentHashMap.Clear | Abstractions/include/Abstractions/ConcurrentHashMap.hpp:188-194 | Clear, alone, leaves every bucket and the map empty |
| ThreadPoolProofs.RunKeeps | Abstractions/include/Abstractions/ThreadPool.hpp:38-100 | In every reachable state the mutex has one owner, the flag follows the destructor, the queue is what was accepted and not taken, and sleepers are accounted for |
| ThreadPoolProofs.NoLostWakeup | Abstractions/include/Abstractions/ThreadPool.hpp:50-59 | While a worker sleeps in an open pool, queued tasks are at most promised notifications plus awake workers about to test; in a stopped pool notify_all is still to come |
| ThreadPoolProofs.QueuedTaskIsAttended | Abstractions/include/Abstractions/ThreadPool.hpp:77-86 | In an open pool with workers a queued entry always has an awake worker or a pending notification |
| ThreadPoolProofs.NothingSlipsIn | Abstractions/include/Abstractions/ThreadPool.hpp:51-54 | Between a false predicate and sleeping nothing can be pushed and the flag cannot be set |
| ThreadPoolProofs.TakenInOrderOnce | Abstractions/include/Abstractions/ThreadPool.hpp:55-59 | What was accepted is what was taken followed by the queue; every accepted entry is run, in one worker's hands, or queued, exactly once |
| ThreadPoolAccounts.AcceptedAsPassed | Abstractions/include/Abstractions/ThreadPool.hpp:77-85 | In every step of every run the accepted tasks grow if and only if a caller gets past the flag, which is then not set, and by exactly the task that this caller passed |
| ThreadPoolAccounts.EveryTaskAccounted | Abstractions/include/Abstractions/ThreadPool.hpp:67-88 | Over a run the tasks passed to enqueue are, with multiplicity, those accepted, those refused and those still on their way |
| ThreadPoolAccounts.EveryTaskAnswered | Abstractions/include/Abstractions/ThreadPool.hpp:67-100 | When the destructor of a pool with workers is done and no call is under way, every task that was passed was run once or refused |
| ThreadPoolProofs.NothingAcceptedAfterStop | Abstractions/include/Abstractions/ThreadPool.hpp:80-84 | Once the flag is set it stays set and nothing more is accepted |
| ThreadPoolProofs.WorkersEndDrained | Abstractions/include/Abstractions/ThreadPool.hpp:53-54 | A worker has ended only with the flag set and the queue empty |
| ThreadPoolProofs.DestroyedMeansDrained | Abstractions/include/Abstractions/ThreadPool.hpp:91-100 | When the destructor of a pool with workers is done, everything accepted was taken in order and run exactly once |
| ThreadPoolProofs.OneWorkerRunsInOrder | SocketServer/src/Server.cpp:17 | With one worker, as the server has, tasks also finish in the order of acceptance |
| ThreadPoolProofs.NoWorkersRunNothing | Abstractions/include/Abstractions/ThreadPool.hpp:38-43 | A pool with no workers never runs anything it accepted |
| ThreadPoolProofs.DrainedExactly | Abstractions/include/Abstractions/ThreadPool.hpp:91-100 | When the destructor is done, everything accepted has been run if and only if there was a worker or nothing was accepted |
| ThreadPoolWitness.UnrunWork | Abstractions/include/Abstractions/ThreadPool.hpp:65-100 | A run in which a pool without workers accepts work and is destroyed without having run it |
| ThreadPoolProofs.NoneSleepsAgain | Abstractions/include/Abstractions/ThreadPool.hpp:51-54 | Once the flag is set no awake worker goes to sleep |
| ThreadPoolProofs.ShutdownStep | Abstractions/include/Abstractions/ThreadPool.hpp:91-100 | Once the flag is set every step but a new call strictly lowers a measure |
| ThreadPoolProofs.ShutdownIsBounded | Abstractions/include/Abstractions/ThreadPool.hpp:91-100 | After the flag is set a run has a bounded number of steps left, five more for each new call |
| ThreadPoolProofs.ShutdownNeverHangs | Abstractions/include/Abstractions/ThreadPool.hpp:97-99 | Until everyone has finished, some thread can go on without spurious wake-ups or new calls |
| ThreadPoolOpen.OpenIsBounded | Abstractions/include/Abstractions/ThreadPool.hpp:45-87 | While the flag is not set a run has a bounded number of steps, twelve for each new call and four for each spurious wake-up besides what was left to do |
| ThreadPoolOpen.OpenNeverHangs | Abstractions/include/Abstractions/ThreadPool.hpp:45-87 | Until every worker sleeps, no call is under way and, if there are workers, nothing is queued, some thread can go on by itself |
| ThreadPoolOpen.SettledMeansRun | Abstractions/include/Abstractions/ThreadPool.hpp:45-87 | And then everything that a pool with workers ever accepted has been run, once |
| ThreadPoolClass.ThreadPool.Enqueue | Abstractions/include/Abstractions/ThreadPool.hpp:77-85 | Accepts exactly when not stopped, and then appends |
| ThreadPoolClass.ThreadPool.Turn | Abstractions/include/Abstractions/ThreadPool.hpp:49-57 | Sleeps, ends or pops the oldest entry, as the machine's worker decides |
| ThreadPoolClass.ThreadPool.SetStop | Abstractions/include/Abstractions/ThreadPool.hpp:93-96 | Sets the flag and leaves the queue alone |
| ThreadPoolClass.ThreadPool.Work | Abstractions/include/Abstractions/ThreadPool.hpp:45-60 | The only worker, whatever enqueue and the destructor do between its turns, runs all that is accepted in order, and ends exactly when the flag is set |
| Text.FindIsFirst | HttpServer/src/HttpParser.cpp:30 | The search returns the first occurrence at or after a position, and nothing exactly when there is none |
| Text.SplitLoop | HttpServer/src/HttpParser.cpp:24-38 | The do-while loop ends and returns the nonempty pieces between delimiters taken from the left |
| Text.SplitCat | HttpServer/src/HttpParser.cpp:24-38 | For a delimiter without a border, split(a + d + b) = split(a) + split(b) |
| Text.SplitLawExact | HttpServer/src/HttpParser.cpp:24-38 | That law holds for all a and b if and only if no proper prefix of the delimiter is also a suffix of it |
| Text.SplitClean | HttpServer/src/HttpParser.cpp:32-33 | Every token is nonempty and does not contain the delimiter |
| Text.SplitJoin | HttpServer/src/HttpParser.cpp:24-38 | Splitting the join of such tokens gives the tokens |
| Text.SplitNormalises | HttpServer/src/HttpParser.cpp:24-38 | A text and the join of its tokens have the same tokens |
| Text.BlankIgnored | HttpServer/src/HttpParser.cpp:33 | Doubling a delimiter changes nothing |
| HttpRequests.MethodText | HttpServer/src/HttpParser.cpp:13-21 | Each of the nine words stands for its own method |
| HttpRequests.UnknownWordsReadAsGet | HttpServer/src/HttpParser.cpp:62 | A word is the text of the method it reads as if and only if it is one of the nine; any other reads as GET |
| HttpRequests.LookUpsAreForgotten | HttpServer/src/HttpParser.cpp:62 | After any lookups, which may have grown the table, every word reads as in the beginning |
| HttpRequests.HttpParser.constructor | HttpServer/src/HttpParser.cpp:10-22 | The table starts with the nine methods, each with its meaning |
| HttpRequests.HttpParser.RequestFromBuffer | HttpServer/src/HttpParser.cpp:52-90 | In every reachable table the result is a function of the buffer alone; no entry of the table changes, and one is added for a method word that has none |
| HttpRequests.HttpParser.HeaderLoop | HttpServer/src/HttpParser.cpp:76-82 | The loop returns the headers of all its lines in order, or throws where some line throws |
| HttpRequests.HeadersThrowExactly | HttpServer/src/HttpParser.cpp:40-42 | The header loop throws if and only if some line ends at its first colon |
| HttpRequests.FaultsExactly | HttpServer/src/HttpParser.cpp:52-74 | A deque element that is not there is accessed if and only if the buffer has no line, its first line has fewer than two words, or its first word is POST, PUT or PATCH and there is no further line |
| HttpRequests.ThrowsExactly | HttpServer/src/HttpParser.cpp:76-82 | std::out_of_range leaves RequestFromBuffer if and only if no element is missing and some header line of the buffer ends at its first colon |
| HttpRequests.ParsesExactly | HttpServer/src/HttpParser.cpp:52-90 | A buffer yields a request if and only if neither is the case |
| HttpRequests.ParsedReads | HttpServer/src/HttpParser.cpp:54-89 | Whenever a buffer yields a request: its path is the second word of the first line, its method is named by the first, its version is 1.1, its headers are the lines behind in order, each split at its first colon, and its body is the last line for POST, PUT and PATCH and empty for any other word |
| HttpRequests.OneWordFaults | HttpServer/src/HttpParser.cpp:64 | The buffer GET reads a missing element |
| HttpRequests.MissingBodyFaults | HttpServer/src/HttpParser.cpp:74-78 | A POST with a blank line and no body reads a missing element |
| HttpRequests.EmptyValueThrows | HttpServer/src/HttpParser.cpp:40-42 | A request with the header line Host: throws |
| HttpRequests.HeaderReads | HttpServer/src/HttpParser.cpp:40-46 | Every line is the key before its first colon, one dropped character and the value; a line without a colon is its own key |
| HttpRequests.SeparatorExact | HttpServer/src/HttpParser.cpp:40-46 | A value is read back if and only if exactly one character separates it from the colon |
| HttpRequests.PrintedRequestParses | HttpServer/src/HttpParser.cpp:52-90 | Parsing the RFC 2616 text of a well-formed request gives method, path, version, ordered headers and body back, with no access out of range; the body belongs to POST, PUT and PATCH only |
| HttpRequests.ParsedIsWellFormed | HttpServer/src/HttpParser.cpp:52-90 | Whatever the buffer, a returned request is well-formed |
| HttpRequests.RoundTripExact | HttpServer/src/HttpParser.cpp:52-90 | The round trip holds for exactly the well-formed requests |
| HttpRequests.ParsedRequestsAreStable | HttpServer/src/HttpParser.cpp:52-90 | Every parsed request survives being printed and parsed again |
| HttpRequests.BlankLinesIgnored | HttpServer/src/HttpParser.cpp:54 | Extra blank lines never change a parse |
| HttpResponses.ValueOfDecimal | HttpServer/src/HttpParser.cpp:138 | The decimal text of a number consists of digits and reads as that number |
| HttpResponses.Buffer.constructor | HttpServer/src/HttpParser.cpp:150-157 | The buffer holds the whole text; its size is the length modulo 65536 |
| HttpResponses.BufferFromResponse | HttpServer/src/HttpParser.cpp:127-160 | The text streamed piece by piece is status line, five header lines, blank line and body; what is sent is its first Size bytes |
| HttpResponses.HeadEnds | HttpServer/src/HttpParser.cpp:133-139 | The first blank line of a response is the one that ends its head, whatever the body contains |
| HttpResponses.ResponseReads | HttpServer/src/HttpParser.cpp:101-140 | A printed response in front of any stream is read back, and the rest of the stream is left |
| HttpResponses.TextsRead | HttpServer/src/HttpParser.cpp:133-140 | The concatenated texts of any list of responses decode into exactly that list |
| HttpResponses.WiresExact | HttpServer/src/HttpParser.cpp:150-155 | What is sent for a list of responses is the concatenation of their texts if and only if every text is shorter than 65536 |
| HttpResponses.PipelineReads | HttpServer/src/HttpParser.cpp:127-160 | Such responses, pipelined, are decoded from what is sent into exactly that list |
| HttpResponses.PrefixDoesNotRead | HttpServer/src/HttpParser.cpp:150-155 | A proper prefix of a response never decodes as one |
| HttpResponses.ResponseReadsExactly | HttpServer/src/HttpParser.cpp:150-155 | What is sent for one response decodes into it if and only if its text is shorter than 65536 |
| HttpResponses.SizeExact | HttpServer/src/HttpParser.cpp:133-155 | The 16-bit size is exact if and only if the body has at most 65361 (200), 65344 (500) or 65355 (any other status) bytes |
| HttpResponses.OneByteTooMany | HttpServer/src/HttpParser.cpp:150-155 | For every protocol and code a response with a body one byte longer than that is sent cut and read by no client |
| HttpResponses.StatusCodeSurvives | HttpServer/src/HttpParser.cpp:115-125 | The code a client reads is the code that was set if and only if that is 200, 404 or 500, and 404 for every other one; the reason that follows is OK, InternalServerError or NotFound |
| HttpResponses.VersionSurvives | HttpServer/src/HttpParser.cpp:101-113 | From what is sent for a response that fits a client reads the version numbers 1 and 0, 1 and 1, or 2 and 0 if and only if that protocol was set |
| HttpResponses.RepliesAreOneOne | HttpServer/src/HttpServer.cpp:162 | A response that takes over the protocol of a parsed request is read as version 1.1 |
| HttpResponses.FieldsRead | HttpServer/src/HttpParser.cpp:134-138 | The header fields that a client reads are Date, Server, Connection, Content-Type and Content-Length, in this order and with these values |
| HttpResponses.ViewDetermines | HttpServer/src/HttpParser.cpp:101-140 | For those codes what a client reads determines protocol, code and body; headers that were added change nothing that is sent |
| MemoryPools.Conservation | Abstractions/src/MemoryPool.cpp:45-79 | Over all runs, whatever allocations fail: allocated = free + in use + lost, free and in-use blocks are disjoint and without repetition, allocated is at most the maximum, and nothing lost comes back |
| MemoryPools.HandsOutOnce | Abstractions/src/MemoryPool.cpp:45-65 | A block handed out was in nobody's hands; exhaustion is reported if and only if all blocks up to the maximum are in use or lost |
| MemoryPools.ReleaseThenGet | Abstractions/src/MemoryPool.cpp:59-73 | The block released last is handed out next, and the pool is as it was |
| MemoryPools.NeverGrows | Abstractions/src/MemoryPool.cpp:16-24 | With a maximum up to 128 or up to the preallocation, no release of any run grows the vector, so none drops its block |
| MemoryPools.GrowsExactly | Abstractions/src/MemoryPool.cpp:16-24 | When reserve gives just what is asked for, some run grows the vector if and only if there is no such maximum |
| MemoryPools.CountsWhatWasAsked | Abstractions/src/MemoryPool.cpp:51-54 | The counter grows by one for every call that asks `new` for a block, whether it throws or not, and by nothing else |
| MemoryPools.FailuresExhaust | Abstractions/src/MemoryPool.cpp:51-57 | As many failing allocations as the maximum still allows exhaust a pool for good, although nobody holds a block |
| MemoryPools.OverflowsExactly | Abstractions/src/MemoryPool.cpp:51-54 | Some run makes the int counter overflow if and only if the pool has no maximum |
| MemoryPools.MemoryPool.Reserved | Abstractions/src/MemoryPool.cpp:8-24 | The reserve of lines 16-24: there is room for all blocks made in advance, and for all that there may ever be when the maximum is at most 128; no more is asked for than the maximum, nor than 128 or the blocks made in advance |
| MemoryPools.MemoryPool.Create | Abstractions/src/MemoryPool.cpp:8-38 | The loop makes the preallocated blocks, all distinct, new and of the block size, within the reserve; when a `new` throws there is no pool and every block made has been deleted |
| MemoryPools.MemoryPool.Clear | Abstractions/src/MemoryPool.cpp:96-102 | Deletes every free block once and leaves none |
| MemoryPools.MemoryPool.Pop | Abstractions/src/MemoryPool.cpp:61-63 | The block at the back, of the block size, which nobody held and which was not deleted |
| MemoryPools.MemoryPool.GetMemory | Abstractions/src/MemoryPool.cpp:45-65 | Returns the last free block or a new one, always of the block size, or throws, as the value model says, counting before a `new` that fails |
| MemoryPools.MemoryPool.Release | Abstractions/src/MemoryPool.cpp:67-79 | Puts the block back, or deletes it, and only it, when growing fails |
| Lifecycle.AcceptKeeps | SocketServer/src/Server.cpp:232-248 | Accepting keeps the invariant, whichever of its allocations throws, and adds exactly the new descriptor, or nothing when one throws |
| Lifecycle.AcceptLeaves | SocketServer/src/Server.cpp:232-248 | What each failing allocation of an accept leaves behind: nothing without a block; only a block when the timer is missing; block, descriptor and last connection, but no registration, when the table's node is missing |
| Lifecycle.HangupKeeps | SocketServer/src/Server.cpp:123-133 | Disconnecting keeps the invariant and removes exactly the context's descriptor |
| Lifecycle.ReceiveKeeps | HttpServer/src/HttpServer.cpp:142-199 | A message keeps the invariant whatever is thrown, and removes its connection exactly when it asks for that |
| Lifecycle.ReceiveExactly | HttpServer/src/HttpServer.cpp:169-198 | A message that parses removes its own connection, and no other, if and only if its handler does not throw an exception that is neither HttpException nor runtime_error and the first of its Connection headers is close; with such an exception, no text or a line that throws, all connections stay |
| Lifecycle.RequestCloses | HttpServer/src/HttpServer.cpp:197-198 | A well-formed request sent as RFC 2616 prescribes closes its connection if and only if its handling ends in no unknown exception and the first of its Connection headers has the value close |
| Lifecycle.DispatchByFilter | EventEngine/src/Linux/EventHandler.cpp:11-43 | For any event on a context: a write does nothing; another filter disconnects if and only if end of file or an error is flagged; for a read the flags do not matter |
| Lifecycle.RunKeeps | SocketServer/src/Server.cpp:172-230 | In every run of batches and Terminates, also after an exception has ended the loop, with descriptors and blocks reused, the tables agree and no dead context is used |
| Lifecycle.RunAgrees | HttpServer/src/HttpServer.cpp:119-140 | In every run open, registered and stored descriptors are the same; stored contexts are distinct, hold their own descriptors and are exactly the blocks in use; there are at most 100. Only an exception that also ended the loop can have left one more block, and one more descriptor, in use |
| Lifecycle.RefusedExactly | SocketServer/src/Server.cpp:23 | A connection is refused, which ends the loop, if and only if 100 are open |
| Lifecycle.BatchSafety | SocketServer/src/Server.cpp:182-225 | Every event of a batch is dispatched on a context in use that holds the event's descriptor and is the same connection as when the batch was fetched, whatever earlier events closed and accepted |
| Lifecycle.RunBatchSafety | EventEngine/src/Linux/EventManager.cpp:13-23 | The same for every batch of up to 32 events in every run, because there is one event per registered descriptor |
| Lifecycle.SurvivesExactly | EventEngine/src/Linux/EventHandler.cpp:25-33 | A connection is open after a batch if and only if no event of the batch that was dispatched carried a message that closes it; end of file, errors and an exception in the middle of the batch do not end it |
| Lifecycle.RunSurvival | SocketServer/src/Server.cpp:193-222 | Over a whole run a connection is still open if and only if no batch carried a message that closed it and no Terminate reached it |
| Lifecycle.BatchGoesOn | SocketServer/src/Server.cpp:178-227 | The loop goes on after a batch if and only if no event of it was an arrival with 100 connections open, an arrival for which the `new` of a block, of the timer or of the table's node throws, or a message that reads a missing element |
| Lifecycle.CountdownExact | HttpServer/src/HttpServer.cpp:78-86 | From any state that is intact, the loop running or ended by an exception, the countdown disconnects exactly the connections above the server's descriptor up to the index, and keeps the invariant |
| Lifecycle.TerminateExact | HttpServer/src/HttpServer.cpp:73-87 | From any such state Terminate works if and only if a connection was ever accepted; it leaves exactly the connections above the descriptor accepted last, so it empties the server if and only if none is larger |
| Lifecycle.TerminateMayLeaveOne | HttpServer/src/HttpServer.cpp:78 | A run of two arrivals and a Terminate that leaves a connection open |
| Lifecycle.TheHundredAndFirst | SocketServer/src/Server.cpp:23 | A run in which 100 clients are connected, the next one ends the loop, and Terminate disconnects all of them |
| HttpServers.HttpServer.constructor | HttpServer/src/HttpServer.cpp:22-29 | The server starts with nothing open, a new parser, a new table of 1031 empty buckets and a pool of 3 blocks out of 100 |
| HttpServers.HttpServer.ContextsHaveSize | SocketServer/src/Server.cpp:23 | In every state in order each stored context, and each block in use, has the size of the pool's blocks |
| HttpServers.HttpServer.OnClientConnected | HttpServer/src/HttpServer.cpp:119-122 | The context becomes the last connection and is stored in the table under its descriptor, unless that throws |
| HttpServers.HttpServer.OnClientDisconnected | HttpServer/src/HttpServer.cpp:131-133 | The descriptor of the context is erased from the table |
| HttpServers.HttpServer.Obtain | SocketServer/src/Server.cpp:235-239 | A context from the pool object and any descriptor that accept may return |
| HttpServers.HttpServer.Serve | SocketServer/src/Server.cpp:237-247 | Timer, channel, callback and registration together are the step Store, whichever `new` throws |
| HttpServers.HttpServer.HandleNewConnectionEvent | SocketServer/src/Server.cpp:232-248 | Pool, timer, channel, callback and registration together are the step Accept, whichever `new` throws and whatever accept returns, and keep the invariant |
| HttpServers.HttpServer.HandleDisconnectionEvent | SocketServer/src/Server.cpp:123-133 | Registration, channel, callback and pool together are the step Hangup and keep the invariant |
| HttpServers.HttpServer.HandleMessageEvent | SocketServer/src/Server.cpp:250-268 | With the parser object, whose table may grow, a message is the step Receive and keeps the invariant; an unknown exception or an empty read leaves the table of connections as it is |
| HttpServers.HttpServer.HandleEvent | SocketServer/src/Server.cpp:185-224 | One event is the step Dispatch, all four cases of the switch included |
| HttpServers.HttpServer.HandleEvents | SocketServer/src/Server.cpp:182-225 | The loop over a fetched batch processes it event by event, never on a dead context, and stops where an exception leaves it |
| HttpServers.HttpServer.DisconnectDownFrom | HttpServer/src/HttpServer.cpp:78-86 | The countdown loop, which looks every descriptor up in the table, is the function Countdown from any intact state |
| HttpServers.HttpServer.Terminate | HttpServer/src/HttpServer.cpp:73-87 | The countdown loop leaves exactly the connections above the descriptor accepted last, also after an exception has ended the event loop |

## Left out

- HashTables.HashBucket.Erase: freeing is a mark on the node; that its address may be handed out again is in TableMachine.
- HashTables.HashBucket.Clear: the same.
- ThreadPoolClass.ThreadPool.Work: one worker, and the others only between its turns; any number of workers, callers and interleavings are in ThreadPoolMachine.
- HashTables.ConcurrentHashMap.Insert: the objects are used by one thread at a time; locks and threads are in TableMachine.
- TableInvariant.RunKeeps: in the step machine the `new` of Insert succeeds; one that throws is in HashTables.
- TableProgress.HoldIsBounded: how often the holder of a lock gets to step is up to the scheduler, which is not modelled; QuietIsBounded holds for every scheduling.
- ThreadPoolClass.ThreadPool.Turn: the wait itself is in ThreadPoolMachine.
- ThreadPoolOpen.OpenNeverHangs: the same as for ShutdownNeverHangs.
- ThreadPoolProofs.ShutdownNeverHangs: termination is a measure and freedom from blocking; fairness of the scheduler is not modelled, and every task is assumed to return.
- HttpRequests.HttpParser.RequestFromBuffer: an access to a missing deque element ends in `Undefined`, without saying what the machine does then.
- MemoryPools.MemoryPool.GetMemory: the counter is unbounded, which differs from the source's int exactly for pools without a maximum (OverflowsExactly); what an overflow does is not modelled.
- HttpServers.HttpServer.HandleEvents: the two server objects are one; the descriptor in a context is kept beside its block, not in the block's bytes; the endless loop is a run of batches in Lifecycle.
- Lifecycle.RunKeeps: Terminate and batches do not overlap, and handlers do not call the server back, because the source synchronises neither; accept, handshake and kqueue calls are assumed to succeed. Allocations may fail.
- Server::Terminate, which closes the listening socket: three calls to the operating system.
- TLS and plain channels, NetUtils, the client: wrappers over library and socket calls. Reading a message is an arbitrary text.
- HttpRouter, HttpHeader and the accessors of requests and responses: one lookup each; in Lifecycle the handler's outcome is arbitrary.
- Files, directories, dynamic libraries, timers, logging, formatting, socket options, samples and the build.
- Real hash functions (any function is allowed), memory ordering and wall-clock time.
