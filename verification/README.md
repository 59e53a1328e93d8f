# Verification of the task cluster

A model, in Dafny, of the stateful core of the cluster: the LRU cache server with its append-only
log and its wire format, the coordinator with its queue, registry, circuit breakers, retry engine
and task repository, the gateway's rate limiter and request reader, and the event broker. Every
member below is proved; nothing here runs the original program.

`dafny verify dfyconfig.toml` checks the whole project. Every lemma switches automatic induction off, so a
proof is what its body says.

## How it is laid out

- `Text`, `Wrappers`, `PyStr`: the few Python string operations the system relies on (`find`, `split`,
  slices with negative bounds, `int()`, decimal printing, `str()` and `repr()`), and the optional value.
  `TextFacts`: what they mean, apart from how they compute.
- `Resp`, `RespFraming`, `RespKinds`: the wire format. `Parse` is the parser as a function, and the methods
  with the source's branches and loops are proved equal to it; what it makes of printed commands, cut
  anywhere, of streams of commands in chunks, and of any other text.
- `LruStore`, `LruCache`, `LruWire`, `LruProtocol`, `LruRecovery`, `LruRestore`: the cache. Keys and values are whatever
  the parser returns (text, None, integers, errors, lists). The server object keeps its log text;
  `LruProtocol` says what each command does, from its words; the last two modules say what replaying the
  log gives, over whole runs and after a cut.
- `RateLimiter`: the token bucket with real-valued time, and exactly what it admits.
- `CircuitBreaker`, `WorkerRegistry`, `JobQueue`, `Scheduler`, `TaskRepository`, `RetryQueue`: the
  coordinator's parts, each an object with mutable fields whose methods are proved against functions
  on values, and what is true of those functions over runs.
- `Coordinator`: the whole service as a transition system. Each event handler, and each half of the
  assigner's loop (choose; count and publish), is one atomic step; a method of `CoordinatorService`
  is proved to do each step. `out`, `running` and `done` are history: copies assigned and not yet
  reported, copies a worker still works on, ids reported completed.
- `Ledger`: the coordinator with the order of the queue, the registry and the breakers forgotten. A run
  of the coordinator is proved to be a run of the ledger (`CoordinatorRuns.Refines`), and where jobs
  are is proved there.
- `JobOrder`: the queue against a plain list from which the most urgent job is taken.
- `CoordinatorRuns`, `ScheduleRuns`, `JobData`, `RetryBounds`, `Recovery`, `LoadBounds`, `BreakerRuns`,
  `IdleWorkers`: the theorems about runs.
- `HttpFraming`, `HttpChunking`, `HttpHead`, `HttpFrontend`: reading a request off a connection that delivers its
  bytes in arbitrary chunks (a chunk size for every stream position), and the frontend's request.
- `Broker`, `BrokerFraming`, `BrokerLines`, `BrokerRuns`: the broker, its line framing, what each line does,
  and who receives what.

## What is assumed

- Runs of the coordinator (`CoordinatorRuns.Legal`): submitted ids are distinct; a worker reports only
  copies it holds, each at most once (`JobData` also asks that it reports them as they were given); each bus event is handled atomically with all its handlers;
  the store is online. Workers may crash silently, be declared failed wrongly, report late, register
  again, and all of this may fall between the scheduler's choice and its publication.
- The cache works on one command at a time, and its capacity is at least 1.
- Clock readings are parameters, one for each reading; only where a statement says so do they have to be in order.

## Where the code falls short of its purpose

Each of these is a proved statement about the code as it is.

- The log is read back in text mode, so CRLF returns as LF and a restart recovers nothing:
  `LruRecovery.TextModeRestart`.
- Lengths are printed in bytes and read in characters: a command reads back iff it is ASCII
  (`Resp.CommandRoundTrip`).
- An array cut behind its first element is taken as complete, with None for what is missing. A stream of
  commands is read as sent iff no cut falls there (`RespFraming.StreamFraming`); a SET cut there stores
  None, is logged and is answered with +OK (`LruWire.CutSet`); and so does the replay of a log that was
  cut off there (`LruRestore.CutLog`, and exactly when it does no harm `LruRestore.CutLogRestores`).
- The log holds text only, and the eviction of the empty key is not logged: the live map can be restored
  throughout a run iff every SET stores text under a text key and no SET evicts the empty key while
  another live key was SET longer ago (`LruRestore.RestorableRuns`; a run that fails, whatever the texts:
  `LruRestore.EmptyKeyLost`).
- A job whose worker is declared failed between choice and publication is assigned to a worker that
  no longer exists, and stays there: `Recovery.LostInTheGap`, `Recovery.OrphanForever`. Every assigned job
  is recoverable throughout a run iff every publication finds its worker registered:
  `Recovery.AssignedRecoverable`.
- The scheduler spends the trial permit of every available worker it asks, chosen or not:
  `IdleWorkers.PermitInVain` says exactly when in vain. A worker left HALF_OPEN with nothing to report is
  never given a job again unless it is declared failed (`IdleWorkers.IdleForever`); `IdleWorkers.IdleExactly`
  says exactly which runs leave one, and `IdleWorkers.PassedOverHappens` gives one for every configuration.
- A worker that registers again with no capacity in the same gap is overloaded: `LoadBounds.LoadSafety`.
- A breaker threshold below 1 makes the breaker's state disagree with its history:
  `CircuitBreaker.HistoryNeedsThreshold`.
- A re-queue after a worker failure rereads the priority as text: `JobQueue.RequeueRank` says for which
  priorities the rank survives.
- A request header that ends within one chunk beyond the size limit is refused or accepted as the
  chunks fall, and a negative Content-Length cuts bytes off the end of whatever was read along:
  `HttpChunking.ChunkIndependence`.
- A broker client whose text contains "GET " or "HEAD " anywhere can be taken for a health check and
  disconnected, as the chunks fall: `BrokerFraming.ChunkIndependence`.

## Model

| member | source | states |
|---|---|---|
| TextFacts.IntIs | cache/cache_manager.py:40-43 | `int()` reads a signed numeral, with underscores, leading zeros and white space around it, as the number its digits print. |
| TextFacts.IntRefuses | cache/cache_manager.py:40-43 | And refuses every other text. |
| TextFacts.StripIs | event_bus/broker_service.py:90 | Stripping takes off exactly the white space around a text. |
| TextFacts.SplitIs | API_gateway/router.py:142-149 | Splitting undoes joining, for any separator. |
| TextFacts.WordsIs | cache/cache_manager.py:78-84 | The words of a line are found whatever the gaps between them. |
| Resp.Parse | cache/cache_manager.py:12-86 | Parsing terminates on every input; the remainder is a suffix of the input, and strictly shorter whenever a value is produced. |
| Resp.ParseResp | cache/cache_manager.py:12-86 | The parser in the source's form computes the function the theorems are about. |
| Resp.ReadBulk | cache/cache_manager.py:35-52 | The bulk string branch: no number, nil, not yet complete, or the text and what is behind it. |
| Resp.ReadArray | cache/cache_manager.py:54-74 | The array branch: nothing is consumed when the header is no number or the first element is incomplete. |
| Resp.ReadElements | cache/cache_manager.py:66-74 | The element loop, including its test against the text after the header, computes the recursive reading of the elements. |
| Resp.PrintCommand | cache/lru_cache.py:32-35 | The printing loop gives the header and one bulk string per argument. |
| Resp.BulkRoundTrip | cache/cache_manager.py:35-52 | A printed bulk string followed by any tail reads back as itself, leaving exactly the tail, iff it is ASCII. |
| Resp.ElementsRoundTrip | cache/cache_manager.py:66-74 | The printed arguments of a command read back in order iff all are ASCII. |
| Resp.CommandRoundTrip | cache/cache_manager.py:54-74 | A printed command followed by any tail reads back as the same list with exactly the tail left iff all arguments are ASCII, CRLF inside arguments included. |
| Resp.StreamRoundTrip | cache/lru_cache.py:53-57 | A concatenation of printed ASCII commands decodes to the same sequence of commands. |
| Resp.TruncatedBulk | cache/cache_manager.py:35-48 | Every proper prefix of a printed bulk string reads as nothing and consumes nothing. |
| RespFraming.TruncatedCommand | cache/cache_manager.py:68-74 | A proper prefix of a printed command consumes nothing iff it is cut in the header or the first argument; cut later, it is returned as a list that ends in None. |
| RespFraming.CutCommand | cache/cache_manager.py:54-74 | What exactly is returned for each cut: the complete arguments, None for each other one, and the cut argument's text unread. |
| RespFraming.StreamFraming | cache/lru_cache.py:97-118 | Printed commands arriving in whatever chunks are read as exactly the commands sent, with nothing kept, iff no chunk looks like a health check and no cut falls at or behind the end of a command's first argument and before the command's end. |
| RespKinds.LineRead | cache/cache_manager.py:17-33 | Any simple string, error or integer line is read as such, and a number that is none raises. |
| RespKinds.BulkRead | cache/cache_manager.py:35-52 | What a bulk string header of any length, none or negative included, makes of any text behind it. |
| RespKinds.ArrayRead | cache/cache_manager.py:54-74 | An array of anything that can be read one after the other, nested arrays and numbers included, is the list of it. |
| RespKinds.ArrayWaits | cache/cache_manager.py:54-72 | When an array header consumes nothing, is None, or raises. |
| RespKinds.InlineRead | cache/cache_manager.py:76-81 | A command typed in one line is the list of its words without their quotes. |
| RespKinds.InlineNewline | cache/cache_manager.py:82-85 | A bare newline ends it as well, when there is no CRLF at all. |
| RespKinds.Utf8Reads | cache/lru_cache.py:34 | The bytes counted for a character are its UTF-8 form, which reads back as the character. |
| RespKinds.LengthInBytes | cache/lru_cache.py:34 | The length announced is the number of bytes. |
| Resp.ReceiveReply | cache/cache_manager.py:138-149 | The client's loop over received chunks computes the function below. |
| Resp.ReceiveAnyChunking | cache/cache_manager.py:138-149 | Whatever the chunks, the client returns the value of the whole reply. |
| Resp.BulkIsWhole | cache/cache_manager.py:138-149 | An ASCII bulk reply is one whole reply: no proper prefix of it is taken for a reply. |
| Resp.LineIsWhole | cache/cache_manager.py:17-33 | So are the simple, error, integer and nil replies. |
| LruStore.SetSpec | cache/lru_cache.py:71-81 | After a SET the key has its value, keys stay distinct, the size stays within the capacity, and exactly the evicted key is gone. |
| LruStore.GetSpec | cache/lru_cache.py:89-95 | A GET changes neither keys nor size. |
| LruStore.SetIncluded | cache/lru_cache.py:71-81 | A SET keeps a smaller store a subsequence of a larger one, whichever of the two evicts. |
| LruStore.Inclusion | cache/lru_cache.py:71-95 | For every trace of SET, GET and DEL the store of the smaller capacity is a subsequence of the store of the larger one, and the larger is at most the extra capacity longer. |
| LruStore.NoLostHits | cache/lru_cache.py:71-95 | Raising the capacity never turns a hit into a miss or changes its value. |
| LruStore.Freshness | cache/lru_cache.py:71-95 | Whatever is still cached is what was last written under its key. |
| LruStore.RecencyOrder | cache/lru_cache.py:71-95 | Entries stand in the order of their last use, so the evicted one is the least recently used. |
| LruCache.LruCacheServer.AppendToLog | cache/lru_cache.py:31-39 | The log grows by the printed record. |
| LruCache.LruCacheServer.ExecuteLruSet | cache/lru_cache.py:71-87 | Store and log after a SET, with the DEL of an evicted key logged before the SET. |
| LruCache.LruCacheServer.ExecuteLruGet | cache/lru_cache.py:89-95 | The value under the key, which becomes the most recent. |
| LruCache.NewErrorKey | cache/lru_cache.py:71-81 | An error used as a key is equal to no key there is. |
| PyStr.StrAscii | cache/lru_cache.py:34 | What is logged for a value of ASCII text, of whatever kind, is ASCII, so it reads back as it was printed. |
| PyStr.StrIs | cache/lru_cache.py:34 | What `str()` prints of None, numbers, errors and lists. |
| PyStr.ReprMeans | cache/lru_cache.py:34 | What is printed of a text inside a list is a string literal that means the text, in double quotes iff it has single quotes only. |
| LruCache.LruCacheServer.ExecuteDel | cache/lru_cache.py:143-151 | The key is gone and logged, or nothing happens, and the answer says which. |
| LruCache.LruCacheServer.AnswerGet | cache/lru_cache.py:133-137 | The answer to a GET by what is stored: text or list with its length, nil for None, and an exception for a value without a length. |
| LruCache.LruCacheServer.ReplayRecord | cache/lru_cache.py:59-67 | One record is executed without logging it; it raises iff its action is not text or its key is a list. |
| LruCache.LruCacheServer.ReplayAofRecovery | cache/lru_cache.py:53-67 | The replay loop on any text of the log, with None arguments and raising records, computes the replay function. |
| LruCache.LruCacheServer.HandleCommand | cache/lru_cache.py:119-156 | Each command, its arguments of any kind, does its step, gives its answer, and ends the connection iff it is QUIT or raises. |
| LruCache.LruCacheServer.HandleChunk | cache/lru_cache.py:102-156 | The loop on one chunk, whatever it holds: what is executed, what is sent, what is kept, and whether the connection stays open; what each command does is said by the `LruProtocol` rows. |
| LruProtocol.SetDoes | cache/lru_cache.py:122-129 | SET in any letter case, with a key and a value of any kind: the key holds the value as the most recent entry, only the oldest entry may be gone for it, its DEL and the SET are logged, +OK; a list as key closes the connection. |
| LruProtocol.GetDoes | cache/lru_cache.py:131-137 | GET: nothing but the place of the entry changes, and the answer is by what is stored. |
| LruProtocol.DelDoes | cache/lru_cache.py:139-151 | DEL or DELETE: the key and only it is gone; it is logged and answered with 1 iff it was there. |
| LruProtocol.OtherDoes | cache/lru_cache.py:119-156 | QUIT, unknown names, missing arguments, and values that are no command: nothing changes, and what is answered. |
| LruProtocol.ReplayDoes | cache/lru_cache.py:59-67 | What replaying one record of any kind does to the store, and when it raises. |
| LruProtocol.AlwaysDistinct | cache/lru_cache.py:41-95 | In every run of any commands and restarts keys are distinct and no more than the capacity. |
| LruRecovery.TextIffSame | cache/lru_cache.py:34 | A store equals its logged text iff all its values are text. |
| LruRecovery.ReplayedSpec | cache/lru_cache.py:53-67 | Whatever the records, the replayed store has distinct text keys, text values, and fits the capacity. |
| LruRecovery.LoggedSet | cache/lru_cache.py:79-87 | Because an eviction's DEL is logged before its SET, the replayed store has room for the SET under this capacity and any larger one. |
| LruRecovery.RunRecoverable | cache/lru_cache.py:41-87 | In every run of commands and restarts the log stands for the text of the live map, under any larger capacity as well. |
| LruRecovery.CrashRecovery | cache/lru_cache.py:41-87 | Parsing and replaying the log text rebuilds exactly the text of the live map, after any run with any number of restarts and SETs of any values, and replay never evicts; so it rebuilds the live map iff every live value is text. |
| LruRestore.EvictsEmptyToo | cache/lru_cache.py:77-87 | When a SET evicts the empty key, the replay drops it as well iff of all live keys it was SET longest ago. |
| LruRestore.EventStep | cache/lru_cache.py:41-87 | On a run restorable so far, one more command or restart keeps it so if it is harmless, and otherwise the log no longer stands for the map. |
| LruRestore.RestorableRuns | cache/lru_cache.py:41-87 | For every run of commands and restarts: the live map can be rebuilt from the log at every moment iff every SET stores text under a text key, and none evicts the empty key while another live key was SET longer ago. |
| LruRestore.EmptyKeyLost | cache/lru_cache.py:84-87 | A run of four commands whose log keeps the empty key and loses a live one. |
| LruRestore.RunLogs | cache/lru_cache.py:84-87 | In every run the log consists of SET records with key and value and DEL records with a key. |
| LruRestore.CutLog | cache/lru_cache.py:53-67 | What replaying a log cut off anywhere gives: the complete records, and for a SET cut behind its action None under its key, or under None, which may evict an entry. |
| LruRestore.CutLogRestores | cache/lru_cache.py:53-67 | The complete records and nothing else are restored iff the cut is between records, in a header or an action, or in a DEL. |
| LruRecovery.NewlinesRead | cache/lru_cache.py:47-48 | Read in text mode, a CRLF or a lone CR comes back as LF, and all else as it is. |
| LruRecovery.TextModeRecoversNothing | cache/lru_cache.py:47-56 | Read with newline translation, every log replays to the empty store. |
| LruRecovery.TextModeRestart | cache/lru_cache.py:47-67 | So the restart restores the live map iff it was empty. |
| LruWire.ServeStream | cache/lru_cache.py:113-156 | On a stream of printed commands with anything behind them the server executes exactly those commands in order and sends exactly their answers in order, up to the first that ends the connection. |
| LruWire.ServedInChunks | cache/lru_cache.py:97-156 | In chunks whose cuts go unnoticed it does the same as on the whole stream. |
| LruWire.CutServed | cache/lru_cache.py:113-156 | A command cut where it is noticed too late is executed and answered with None for every argument not complete, and the rest of its text is passed over. |
| LruWire.CutSet | cache/lru_cache.py:122-129 | A SET cut inside its value stores None under its key, cut inside its key None under None; it is logged, may evict, and is answered with +OK. |
| LruWire.ServePrinted | cache/lru_cache.py:113-156 | A printed command is served as the command it is. |
| LruProtocol.SetOverTheWire | cache/cache_manager.py:156-162 | A printed SET stores and logs its text, and the client gets OK, however the answer is cut. |
| LruProtocol.GetOverTheWire | cache/cache_manager.py:164-169 | A GET printed by the client, served, and answered in any chunks returns the ASCII text stored, or None where nothing or None is. |
| LruProtocol.DelOverTheWire | cache/cache_manager.py:171-177 | A printed DEL removes the key, logs it iff it was there, and the client gets 1 or 0 accordingly. |
| LruProtocol.QuitOverTheWire | cache/lru_cache.py:152-154 | A printed QUIT ends the connection with OK. |
| LruProtocol.ShortOverTheWire | cache/lru_cache.py:123-125 | A printed command without enough arguments changes nothing, and the client gets the error for it. |
| LruProtocol.UnknownOverTheWire | cache/lru_cache.py:155-156 | So does one of any other name. |
| RateLimiter.RateLimiter.Middleware | API_gateway/rate_limiter.py:9-33 | New buckets, verdict and response of one request. |
| RateLimiter.ExemptionIs | API_gateway/rate_limiter.py:10-12 | A request passes unmetered, and leaves the buckets alone, iff a header line of it begins with X-Benchmark: in any letter case. |
| RateLimiter.MeteredIs | API_gateway/rate_limiter.py:10-19 | Exactly the other requests are metered, and only they can be refused. |
| RateLimiter.PotentialIsLeastAllowance | API_gateway/rate_limiter.py:20-28 | A bucket's potential is the least of 100 - 100 t - (accepted since) over the client's earlier requests. |
| RateLimiter.ExactAdmission | API_gateway/rate_limiter.py:15-28 | A request is accepted iff for every metered request of the client up to it, the number accepted since plus one is at most 100 + 100 times the time since; the clock may run backwards. |
| RateLimiter.WindowBound | API_gateway/rate_limiter.py:15-28 | Of the requests of a client at times in [a, b], wherever in the run they stand, at most 100 + 100 (b - a) are accepted; the clock may run backwards. |
| RateLimiter.PotentialNeverIncreases | API_gateway/rate_limiter.py:20-28 | The potential never increases, even when clock readings arrive out of order. |
| RateLimiter.TokensInRange | API_gateway/rate_limiter.py:22-28 | With a clock that does not run back, tokens stay between 0 and 100. |
| CircuitBreaker.WorkerCircuitBreaker.RecordSuccess | coordinator/circuit_breaker.py:19-28 | The transition on a success. |
| CircuitBreaker.WorkerCircuitBreaker.RecordFailure | coordinator/circuit_breaker.py:30-41 | The transition on a failure. |
| CircuitBreaker.WorkerCircuitBreaker.CanAssignTask | coordinator/circuit_breaker.py:43-59 | Allowed iff CLOSED, or OPEN with the last failure a recovery timeout ago, or HALF_OPEN with no trial out; and the transition. |
| CircuitBreaker.VerdictByHistory | coordinator/circuit_breaker.py:43-59 | For every threshold and after every history: a request is granted iff the failures since the last success heeded are below the threshold (1, where it is less), or no trial is out and the last failure is a recovery timeout ago. |
| CircuitBreaker.EffectiveRun | coordinator/circuit_breaker.py:30-41 | A threshold below 1 works as 1. |
| CircuitBreaker.CircuitBreakerManager.GetBreaker | coordinator/circuit_breaker.py:69-73 | A new breaker is made only for an unknown worker; no other breaker changes. |
| CircuitBreaker.CircuitBreakerManager.RecordSuccess | coordinator/circuit_breaker.py:75-81 | Only this worker's breaker hears of the success; an alert is due exactly on a state change, from the old state to the new. |
| CircuitBreaker.CircuitBreakerManager.RecordFailure | coordinator/circuit_breaker.py:83-89 | Only this worker's breaker hears of the failure; an alert is due exactly on a state change, from the old state to the new. |
| CircuitBreaker.CircuitBreakerManager.CanAssignTask | coordinator/circuit_breaker.py:91-98 | Only this worker's breaker is asked; its verdict, and the alert, from the old state to the new. |
| CircuitBreaker.CircuitBreakerManager.RemoveWorker | coordinator/circuit_breaker.py:104-108 | The breaker is forgotten. |
| CircuitBreaker.BreakerMeansItsHistory | coordinator/circuit_breaker.py:19-59 | With a threshold of at least 1: the counter is the failures since the last success heeded, CLOSED iff it is below the threshold, OPEN iff at or above it with no trial out. |
| CircuitBreaker.HistoryNeedsThreshold | coordinator/circuit_breaker.py:10-17 | That reading holds of every history iff the threshold is at least 1. |
| CircuitBreaker.TrialIffHalfOpen | coordinator/circuit_breaker.py:43-59 | A trial is out iff HALF_OPEN, so a permit asked for in HALF_OPEN is always refused. |
| CircuitBreaker.TrialSpacing | coordinator/circuit_breaker.py:30-59 | With a clock that does not run back, the k trials that follow a trial come at least k recovery timeouts after it. |
| WorkerRegistry.WorkerRegistry.RegisterWorker | coordinator/worker_registry.py:8-15 | Registering sets capacity and heartbeat, resets the load, and keeps the place of a known worker. |
| WorkerRegistry.WorkerRegistry.IncrementLoad | coordinator/worker_registry.py:22-25 | One more for a registered worker. |
| WorkerRegistry.WorkerRegistry.DecrementLoad | coordinator/worker_registry.py:27-30 | One less, not below 0, for a registered worker. |
| WorkerRegistry.WorkerRegistry.GetAvailableWorkers | coordinator/worker_registry.py:32-37 | The loop returns exactly the registered workers with more capacity than load, each once, in registration order. |
| WorkerRegistry.WorkerRegistry.RemoveWorker | coordinator/worker_registry.py:39-43 | The worker is gone, the others keep their order. |
| WorkerRegistry.FilterOrder | coordinator/worker_registry.py:32-43 | Selecting workers keeps their order and their distinctness. |
| WorkerRegistry.RegistryKept | coordinator/worker_registry.py:8-43 | Keys, order and data stay together under every operation. |
| JobQueue.JobPriorityQueue.AddJob | queue_engine/priority_queue.py:8-21 | The job enters with the next arrival number, in the place its priority gives it; which that is, the `JobOrder` rows say. |
| JobQueue.JobPriorityQueue.GetNextJob | queue_engine/priority_queue.py:23-28 | The first entry leaves; an empty queue gives nothing and stays. |
| JobQueue.InsertSpec | queue_engine/priority_queue.py:20-21 | Insertion adds exactly the entry to the bag of entries. |
| JobQueue.AddValid | queue_engine/priority_queue.py:20-21 | Adding keeps the entries in strict (priority, arrival) order. |
| JobQueue.QueueConserves | queue_engine/priority_queue.py:8-28 | Over any interleaving of puts and takes, what is queued and what was taken make up what was put. |
| JobQueue.LeastLeavesFirst | queue_engine/priority_queue.py:8-28 | A take returns the least outstanding entry by (priority, arrival), so equal priorities leave in arrival order; it finds nothing iff nothing is outstanding. |
| JobOrder.RankIsUrgency | queue_engine/priority_queue.py:9-18 | The stored number is 11 less the urgency: HIGH 10, LOW 1, in any letter case, a number itself, all else 6. |
| JobOrder.ServesMostUrgent | queue_engine/priority_queue.py:8-28 | Over any interleaving of puts and takes the queue gives out what a plain list would, from which the most urgent job, the longest waiting on a tie, is taken each time. |
| JobOrder.LeavesInOrder | queue_engine/priority_queue.py:11-16 | While a HIGH job waits, only HIGH jobs and numbers of at least 10 leave; LOW leaves only when nothing but LOW and numbers of at most 1 waits; of numbers the largest leaves, of equals the first. |
| JobQueue.RequeueRank | queue_engine/priority_queue.py:9-18 | A priority stored as text and read back keeps its rank iff it is not a number other than 6. |
| Scheduler.Scheduler.FilterPermitted | coordinator/scheduler.py:21-26 | The filter loop asks every available worker once, each at its own reading of the clock, and keeps those permitted. |
| Scheduler.Scheduler.ChooseWorker | coordinator/scheduler.py:31-38 | The first worker with the largest difference of capacity and load; none iff every difference is negative. |
| Scheduler.Scheduler.GetNextJobAndWorker | coordinator/scheduler.py:13-44 | The whole selection, with a reading of the clock for each worker, and the new breakers and queue. |
| Scheduler.AskAllSpec | coordinator/scheduler.py:21-26 | Each worker is asked about its own breaker, once; no other breaker changes. |
| Scheduler.BestSpec | coordinator/scheduler.py:31-38 | The loop ends with the first of the workers whose capacity less load is largest. |
| Scheduler.SelectSpec | coordinator/scheduler.py:13-44 | Nothing is chosen, and the queue untouched, iff the queue is empty or no registered worker has room and a permit; otherwise the first job, and the permitted worker whose capacity less load is largest, the earliest registered on ties. |
| Scheduler.SelectBreakers | coordinator/scheduler.py:21-26 | Every worker with room, chosen or not, has had its permit asked for. |
| TaskRepository.TaskRepository.Save | storage/task_repository.py:9-45 | Cache and table after a save. |
| TaskRepository.TaskRepository.Update | storage/task_repository.py:47-73 | Cache and table after a status update; an absent or empty worker id leaves the old one. |
| TaskRepository.TaskRepository.Retry | storage/task_repository.py:75-93 | Cache and table after a retry increment. |
| TaskRepository.TaskRepository.GetAssignedTasksForWorker | storage/task_repository.py:95-104 | Exactly the ids whose row is ASSIGNED to the worker, each once. |
| TaskRepository.ApplyCoherent | storage/task_repository.py:9-93 | Every call keeps whatever is cached equal to its row. |
| TaskRepository.AlwaysCoherent | storage/task_repository.py:9-93 | After any run of calls, evictions and cache restarts, a cached task shows its row's status, retries and worker. |
| TaskRepository.AlwaysAsTold | storage/task_repository.py:9-93 | After any run of calls and losses a row is exactly what was said of the task since it was saved: the last status, the last worker named, every retry; and what is still cached says the same, with the last result and error. |
| RetryQueue.RetryQueue.HandleTaskFailed | queue_engine/retry_queue.py:8-24 | Count, then back to the queue up to the maximum, then to the dead letter queue; queue, tracker, table and cache after it. |
| RetryQueue.DeadLetterQueue.AddToDlq | queue_engine/dead_letter_queue.py:7-10 | The task is appended and its row marked. |
| Coordinator.CoordinatorService.HandleRegister | coordinator/coordinator.py:81-85 | The step on a REGISTER event. |
| Coordinator.CoordinatorService.HandleHeartbeat | coordinator/coordinator.py:93-96 | The step on a HEARTBEAT event. |
| Coordinator.CoordinatorService.HandleJobSubmitted | coordinator/coordinator.py:87-91 | The step on a JOB_SUBMITTED event, with or without an id, with its row. |
| Coordinator.CoordinatorService.SelectNext | coordinator/task_assigner.py:19 | First half of the assigner's loop. |
| Coordinator.CoordinatorService.PublishAssignment | coordinator/task_assigner.py:21-28 | Second half: load, row, and the copy handed out. |
| Coordinator.CoordinatorService.HandleJobCompleted | coordinator/coordinator.py:108-113 | The step on a JOB_COMPLETED event, with its row. |
| Coordinator.CoordinatorService.HandleTaskFailed | coordinator/coordinator.py:115-120 | The step on a TASK_FAILED event. |
| Coordinator.CoordinatorService.HandleWorkerFailed | coordinator/coordinator.py:98-106 | The step on a WORKER_FAILED event: the worker is purged and exactly its assigned tasks go back to the queue. |
| Coordinator.CoordinatorService.RequeueTasks | coordinator/coordinator.py:103-106 | The loop over those tasks. |
| ScheduleRuns.ScheduledInOrder | coordinator/scheduler.py:13-44 | At any selection of any run, in terms of what was submitted, registered and reported: nothing is given out iff the queue is empty or no registered worker has capacity left and is not cut off by its failures, or due for a trial; otherwise the most urgent job leaves, the first queued on ties, for the one of these workers whose capacity less load is largest, the first registered on ties. |
| ScheduleRuns.RegistryAlwaysTells | coordinator/worker_registry.py:8-20 | In every run the registry holds exactly the workers that registered and were not declared failed since, each with the capacity it last registered with, in the order since when they are there. |
| JobData.StepRow | coordinator/coordinator.py:87-132 | How each step changes each row of the table, completely. |
| JobData.RowsAlwaysShow | coordinator/coordinator.py:87-132 | In every run each row shows the type and the priority its job was submitted with. |
| JobData.CopiesAlwaysKept | coordinator/coordinator.py:87-120 | In every run in which workers report jobs as given, each copy queued, in hand or dead-lettered is the job submitted under its id, or that job as its row shows it, and is queued by its urgency. |
| JobData.ShownIs | storage/task_repository.py:13 | What a row shows of a priority: the name, MEDIUM for none, a number in digits. |
| ScheduleRuns.MonitorFindsTheSilent | coordinator/heartbeat_monitor.py:18-26 | In every run the monitor's test finds exactly the registered workers whose last registration or heartbeat is longer ago than the timeout. |
| Ledger.MovedKept | coordinator/coordinator.py:87-132 | Every move keeps, for every id: it has a row iff it is known anywhere, the row counts the tracker's retries, copies held are copies unreported, and it is somewhere. |
| Ledger.MovedExact | coordinator/coordinator.py:87-132 | When workers are purged only once they hold nothing, every move keeps each job where its row says, once. |
| CoordinatorRuns.StepMoves | coordinator/coordinator.py:81-132 | Every step of the coordinator is a move of its ledger. |
| CoordinatorRuns.Refines | coordinator/coordinator.py:81-132 | Every run of the coordinator is a legal run of its ledger. |
| CoordinatorRuns.NoJobLost | coordinator/coordinator.py:87-132 | At every moment after its submission a job is queued, in the assigner's hand, completed, dead-lettered, or assigned by its row to a worker that has not reported it, whatever workers do. |
| CoordinatorRuns.HeldUnlessCrashed | coordinator/task_assigner.py:19-28 | A worker that never crashed works on exactly what it has not reported. |
| CoordinatorRuns.ExactlyOnePlace | coordinator/coordinator.py:87-132 | With fail-stop workers a job is in exactly one of these places, once, and at most one worker works on it. |
| RetryBounds.RetryAccounting | queue_engine/retry_queue.py:8-24 | After f failures: tracker and row say f, the job was dead-lettered max(0, f - max) times, and entries in the queue plus assignments equal one submission, min(f, max) retries, and one for each recovery from a failed worker. |
| RetryBounds.AssignmentBound | queue_engine/retry_queue.py:8-24 | While no worker is declared failed, each job is assigned at most max + 1 times, and n jobs cause at most (max + 1) n assignments. |
| Recovery.PurgeRecovers | coordinator/coordinator.py:98-106 | Declaring a worker failed queues each job assigned to it once more, queues nothing else, and leaves no row assigned to it. |
| Recovery.OrphanStays | storage/task_repository.py:95-101 | A job assigned to a worker that does not have it stays so in every continuation until that worker is declared failed. |
| Recovery.OrphanForever | coordinator/heartbeat_monitor.py:20-27 | If that worker is not registered and does not register again, for good: the monitor reports only registered workers. |
| Recovery.LostInTheGap | coordinator/task_assigner.py:19-28 | A run, for all settings, that ends with the only submitted job in that state. |
| Recovery.MovedAssigned | storage/task_repository.py:47-73 | Only the publication of an assignment makes a row ASSIGNED. |
| Recovery.AssignedRecoverable | coordinator/task_assigner.py:19-28 | In every legal run: every ASSIGNED row names a registered worker at every moment iff every publication finds its worker still registered. |
| Recovery.AssignedIsRecovered | coordinator/coordinator.py:98-106 | Then the monitor may report the worker of any assigned job, and the job goes back to the queue. |
| LoadBounds.RoomAlways | coordinator/scheduler.py:17-42 | With capacities of at least 1, in every run the worker in the assigner's hand, if still registered, has room. |
| LoadBounds.ReRegisteredOverloads | coordinator/worker_registry.py:8-15 | A run in which a worker that re-registers with capacity 0 ends with load 1. |
| LoadBounds.LoadSafety | coordinator/worker_registry.py:8-42 | 0 <= load <= capacity holds for every worker in every run iff workers register with capacities of at least 1. |
| LoadBounds.LoadIsAtMostOut | coordinator/worker_registry.py:8-30 | A worker's load never exceeds its unreported assignments. |
| LoadBounds.LoadIsExactlyOut | coordinator/worker_registry.py:22-30 | It equals them for a worker that registers once and is never declared failed. |
| BreakerRuns.BreakerRunsOnHistory | coordinator/circuit_breaker.py:69-108 | In every run each worker's breaker is the breaker of its own reports and permit requests since it was last purged. |
| BreakerRuns.GivenOnlyWhenPermitted | coordinator/scheduler.py:21-42 | A worker is given a job only while CLOSED, or OPEN with its last failure a recovery timeout ago; and what that means in its history. |
| BreakerRuns.HalfOpenIsPassedOver | coordinator/scheduler.py:23-25 | A HALF_OPEN worker, chosen for its trial or not, is given nothing until it reports or is purged. |
| BreakerRuns.OneJobPerTrial | coordinator/circuit_breaker.py:43-59 | Between a trial given to a worker and the next job given to it comes a report or a purge. |
| BreakerRuns.TrialsSpaced | coordinator/circuit_breaker.py:30-59 | In every run, while a worker is not purged and its clock does not run back, the next k trials granted to it come at least k recovery timeouts after a trial. |
| IdleWorkers.IdleForever | coordinator/scheduler.py:21-42 | A HALF_OPEN worker with nothing to report is never given a job again, in any continuation, unless it is declared failed. |
| IdleWorkers.PermitInVain | coordinator/scheduler.py:21-42 | A worker whose OPEN period is over is left HALF_OPEN without a job iff a job is queued, it has room, and another permitted worker has more free capacity, or as much and registered earlier. |
| IdleWorkers.IdleArises | coordinator/scheduler.py:21-42 | A step makes a worker idle in this way iff it is such a selection while the worker holds nothing, or a crash in which it loses what it held while HALF_OPEN. |
| IdleWorkers.IdleExactly | coordinator/scheduler.py:21-42 | At every moment of every run: a worker is HALF_OPEN with nothing to report iff one of these happened to it before and it was not purged since. |
| IdleWorkers.PassedOverHappens | coordinator/scheduler.py:21-42 | For every configuration, whatever the threshold, a run that leaves a worker idle for good. |
| HttpFraming.Connection.Recv | API_gateway/router.py:124 | A receive returns the next bytes, at least one unless the stream has ended, at most as many as asked for. |
| HttpFraming.ReadHeader | API_gateway/router.py:119-130 | The header loop: what was read, and where the header ends. |
| HttpFraming.ReadBody | API_gateway/router.py:164-171 | The body loop. |
| HttpFraming.FindContentLength | API_gateway/router.py:151-159 | The first Content-Length line decides, 0 without one or when it is no number. |
| HttpFraming.ParseHttpRequest | API_gateway/router.py:116-178 | The whole reading, with each of its errors, for each way of cutting the stream. |
| HttpChunking.HeaderFound | API_gateway/router.py:122-130 | A header that ends within the limit is found, with less than one chunk read beyond it. |
| HttpChunking.BandDepends | API_gateway/router.py:122-136 | A header that ends less than one chunk beyond the limit is refused for one way of cutting and not for another. |
| HttpChunking.NegativeDepends | API_gateway/router.py:164-178 | With a negative length two ways of cutting give different bodies, when more was left over than is cut off. |
| HttpChunking.ChunkIndependence | API_gateway/router.py:116-178 | The outcome is the same for all ways of cutting the stream iff neither of these applies, and then it is the outcome by the bytes alone. |
| HttpChunking.BodyIsExact | API_gateway/router.py:164-178 | The body of a request that is read is exactly the announced bytes behind its header. |
| HttpChunking.RequestRoundTrip | API_gateway/router.py:116-178 | Printed lines and body are read back for every way of cutting. |
| HttpHead.LengthRead | API_gateway/router.py:151-159 | Content-Length: in any letter case, with a signed numeral in any spelling and white space, announces that number. |
| HttpHead.LengthRefused | API_gateway/router.py:156-157 | And 0 with anything else. |
| HttpHead.FirstDecides | API_gateway/router.py:150-159 | The first line that announces a length decides; without one it is 0. |
| HttpHead.RequestLineIs | API_gateway/router.py:146-149 | The first two words of the request line are verb and path. |
| HttpHead.BadRequestLineIs | API_gateway/router.py:143-148 | An empty request line, or one with fewer than two spaces, is refused, each with its error. |
| HttpHead.RequestRead | API_gateway/router.py:116-178 | Any printed request whose first announced length, in whatever spelling, is that of its body is read back with its verb, path, lines and body, however it is cut. |
| HttpFrontend.SubmissionRoundTrip | frontend/app.py:34-42 | So is the request the frontend prints: POST, /submit, these five header lines, and the body. |
| Broker.PubSubBroker.AcceptConnection | event_bus/broker_service.py:53-60 | A new connection has an empty buffer. |
| Broker.PubSubBroker.Disconnect | event_bus/broker_service.py:127-142 | The connection is closed and off every topic, and topics left empty are gone. |
| Broker.PubSubBroker.Publish | event_bus/broker_service.py:105-118 | Every subscriber that can be sent to is sent the message once; the others are removed. |
| Broker.PubSubBroker.HandleLine | event_bus/broker_service.py:90-122 | One line does its step and gives its answer; which, from its text, the `BrokerLines` rows say. |
| BrokerLines.SubLine | event_bus/broker_service.py:96-101 | A line SUB topic, in any letter case and with white space around it, puts the sender on the topic, changes no other subscription, and sends nothing but the answer. |
| BrokerLines.PubLine | event_bus/broker_service.py:103-118 | A line PUB topic text sends the text once to every subscriber of the topic that can be sent to, and to nobody else; the others are taken off all topics; the sender is answered. |
| BrokerLines.PubReceived | event_bus/broker_service.py:103-118 | So exactly the reachable subscribers of the topic receive exactly the text, on that topic and no other. |
| BrokerLines.OtherLine | event_bus/broker_service.py:91-122 | A line of any other form changes nothing; it is passed over if blank and answered with an error if not. |
| BrokerLines.ReadOther | event_bus/broker_service.py:94-122 | A line is an unknown command iff it is not blank and has neither form. |
| BrokerLines.LineInAChunk | event_bus/broker_service.py:86-125 | A line sent in one chunk is worked off at once; a failure ends the connection. |
| BrokerLines.HealthChecked | event_bus/broker_service.py:69-83 | A health check is answered and the connection closed, but not taken off its topics. |
| BrokerLines.StreamEnded | event_bus/broker_service.py:64-67 | The end of a client's stream takes it off every topic. |
| Broker.PubSubBroker.HandleLines | event_bus/broker_service.py:88-122 | The loop over the complete lines of a buffer. |
| Broker.PubSubBroker.HandleClient | event_bus/broker_service.py:62-125 | One chunk of a client: end of stream, health check, or text. |
| BrokerFraming.CutLinesSpec | event_bus/broker_service.py:88-89 | Cutting gives lines and a rest without newlines that together are the text. |
| BrokerFraming.LinesRoundTrip | event_bus/broker_service.py:88-89 | Lines sent, and an unfinished one, are exactly what is cut. |
| BrokerFraming.CutLinesAppend | event_bus/broker_service.py:86-89 | Cutting as the text grows gives the lines of the whole text. |
| BrokerFraming.PlainChunks | event_bus/broker_service.py:62-125 | For chunks none of which looks like a health check the broker ends in the state it reaches on the whole text, whoever refuses to be sent to and when. |
| BrokerFraming.ChunkIndependence | event_bus/broker_service.py:62-125 | That holds of all chunks of a text iff neither "GET " nor "HEAD " occurs anywhere in it. |
| BrokerRuns.NoLineWaits | event_bus/broker_service.py:86-123 | In every run, what is kept for a connection holds no newline. |
| BrokerRuns.AlwaysAsRecorded | event_bus/broker_service.py:94-142 | In every run the map of subscribers and the messages sent are what the history of subscriptions, publications and removals says. |
| BrokerRuns.ExactDelivery | event_bus/broker_service.py:101-118 | A subscriber receives on its topic exactly what is published from its subscription to its removal, once, in order. |
| BrokerRuns.NoDelivery | event_bus/broker_service.py:101-118 | A client that is not subscribed receives nothing. |
| BrokerRuns.SameOrder | event_bus/broker_service.py:101-118 | Two subscribers over the same time receive the same messages in the same order. |

## Left out

- Text beyond ASCII, apart from printed lengths: `decode` with ignored errors, Unicode case mapping,
  Unicode digits and spaces in `int()` and `strip()`, and the digit limit of `int()`.
- Timeouts of sockets, thread scheduling inside a handler, connection pools and process boot.
- Resp.ReceiveAnyChunking: single simple, error, integer and bulk replies only; the server sends no arrays.
- PyStr.StrAscii: `repr` of text that is not ASCII is not modelled.
- LruCache.LruCacheServer.HandleChunk: a health check whose answer cannot be sent, and an answer the client
  does not take; either way the source gives up the connection.
- LruRecovery.CrashRecovery: for ASCII text, and SETs under non-empty text keys; `LruRestore.RestorableRuns`
  says what holds of the others. Both read the log back character by character, `LruRecovery.TextModeRestart`
  through text mode.
- LruProtocol.GetOverTheWire: what a client makes of a stored list is not said; what is sent for it is, by
  `LruProtocol.GetDoes`.
- LruWire.ServedInChunks: one direction; a cut behind a first argument may still do no harm, for example in an
  unknown command. What is read is decided in both directions: `RespFraming.StreamFraming`.
- Coordinator.CoordinatorService.HandleWorkerFailed: the registry part is the failure detector's handler of
  the same event; both are one step.
- JobData.CopiesAlwaysKept: a worker may report a failed job as anything it likes; then the copy queued again
  is what it reported.
- TaskRepository.AlwaysCoherent: the cache server is reachable and the store online; JSON is a record.
- JobQueue.RequeueRank: priorities that are neither text nor integers only when their text is no priority name.
- Broker.PubSubBroker.HandleLine: within one line a connection takes everything or nothing; how much of a
  message went out before a send failed is not recorded.
- BrokerFraming.ChunkIndependence: for a client that takes its own answers; others may refuse at any line.
- BrokerRuns.ExactDelivery: the time of removal is the moment a send fails; that a client's socket buffers
  are later lost is outside.
- HttpChunking.ChunkIndependence: read timeouts are not modelled, so every stream is delivered up to its end.
- Worker persistence, the autoscaler, metrics, logging, the dashboard, authentication, routing and
  configuration: easy members, or display.
- Workers' own line handling, which keeps no partial line, and job handlers, which rest on unseen
  cryptographic libraries.
