# Verified models of the server framework and its session layer

Dafny models of the stateful cores of a C++ reactor-based HTTP framework and of the AR server's
session and interaction services built on it, with proofs about every run, every input or every
reachable state. `dafny verify dfyconfig.toml` checks the whole project.

| component | modules |
|---|---|
| cached session store, worker pool, text codec | SessionProtocol, SessionWorkers, SessionRaces, SessionShutdown, SessionAnswers, SessionStore, TaskPool, SessionTextCodec, Decimal |
| binary session codec | BigEndian, SessionBinaryCodec |
| incremental HTTP/1.x parser over the growing buffer | HttpSyntax, HttpStream, HttpRoundTrip, HttpServing, HttpGrammar, HttpLimits, HttpParser, ByteBuffer |
| LFU cache with aging, sliced | Lfu, LfuInvariant, LfuCounts, LfuOrder, LfuValues, LfuTotals, LfuLimits, FreqList, LfuNodes, LfuCache, HashLfu |
| event loop, timers, connection output | EventLoop, LoopSignals, TimerQueue, TimerRaces, TimerIntervals, TcpOutput, TcpClosing |
| slot allocator | SlotAlignment, MemoryPool, PoolObject, HashBucket |
| asynchronous log | AsyncLog |
| service lifetime, comment validation | LeaseDrain, Utf8 |
| router, byte ranges | RoutePattern, Router, RangeHeader |

Components with concurrency are state machines: one event per critical section, system call, reply of
an outside service or callback, and a run is any interleaving. What the kernel, Redis, the durable
store, the system allocator, the clock or a hash table's iteration order decide is a parameter of the
event, restricted only by what such a service promises. Objects of the source are classes whose
methods update their fields in place and are proved against those steps; the size classes over the
pools are modelled on values only.

Where the code does not meet what one would expect of it, the model keeps the code and the exact
condition is proved:

- parseHeaders and parseBody report success without progress on incomplete input, and the loop of
  parseRequest then repeats; include/http/HttpContext.h:53-58 documents that it returns and waits.
  WrittenLoopTerminatesExactly says on which inputs the loop as written ends; the server is modelled
  on the documented call.
- The server keeps no memory of a refusal: one taken at the blank line has consumed it, and later
  bytes can complete the refused request (ServedAfterRefusal, RefusalRepeatsExactly). Bytes behind a
  request whose handler closes or answers later wait for the next fragment. CutIndependentExactly
  gives the exact condition.
- A find that has its active answer from the cache can call back after a revoke has reported success,
  which takes two workers (LateAnswersExactly, LateAnswersNeedTwoWorkers), and a tombstone that expires
  under a find holding an older copy lets a revoked session out (RevokeUndoneByExpiry,
  UnguardedExpiryLeaks).
- The text codec misreads sessions with a bar in a text field or an empty last field
  (UnstorableCanTurnActive).
- Aging limits outside 2 to 250 make minFreq_ wrong and an eviction can find no victim
  (UnsoundOutside, EvictionWithoutVictim); the counting part holds for every
  limit that is not negative (CountsForEveryLimit).
- What the loop's own thread queues before loop() is not announced (NoLostWakeupExactly).
- A timerfd that goes off early, or on time but between the handler's clock reading and its read,
  leaves the queue unarmed (ArmingLostExactly, PunctualLossIsExactlyTheRace).
- A message sent behind a pending file overtakes it, and a file that would block with nothing
  buffered is not resumed (SendOvertakesFile, StalledFileStays).
- A file that arrives after the shutdown and ends in its own step leaves the connection open for writing
  (HalfClosedWhenIdle, HalfCloseForgotten), and a quit before loop() is lost (EarlyQuitIsLost).
- Padding aligns to the slot size only for powers of two (PowerOfTwoSlotsAlign).
- Log lines appended after the last exchange are not written (LostExactlySinceLastSwap).
- A range numeral of 2^64 or more is refused although RFC 7233 would clip it (HugeNumeralRefused).

## Model

| member | source | states |
|---|---|---|
| SessionProtocol.RevokeIsFinal | WebApps/ARServer/src/services/CachedSessionStore.cpp:49-122 | in every interleaving of any finds and revokes, lost replies, refused submissions and expiries, once the success of a revoke is settled no cache step gets any find an active session of the token, as long as the tombstone does not expire under a find that holds an older copy |
| SessionProtocol.LateAnswersExactly | WebApps/ARServer/src/services/CachedSessionStore.cpp:57-86 | after that, a find can call back with an active session exactly when it already had that session to answer with at the moment the success was settled and has not called back yet |
| SessionProtocol.AnswerWasPending | WebApps/ARServer/src/services/CachedSessionStore.cpp:57-86 | an active session that a find is to answer with later was its answer then |
| SessionRaces.AnswerAfterReport | WebApps/ARServer/src/services/CachedSessionStore.cpp:67-119 | for every pool with two workers or more, a run without any expiry in which a find calls back with the active session after the revoke reported success |
| SessionWorkers.OneWorkerAnswersInTime | WebApps/ARServer/src/services/CachedSessionStore.cpp:57-121 | with one worker, which runs a task to the end of its callback before it takes the next, no callback hands out an active session once the success is settled, under the same proviso |
| SessionRaces.LateAnswersNeedTwoWorkers | src/base/TaskWorkerPool.cpp:55-78 | so such a late callback is possible if and only if the pool has two workers or more and room for a task |
| SessionWorkers.UnguardedExpiryLeaks | WebApps/ARServer/src/services/CachedSessionStore.cpp:57-86 | the proviso on expiry is exact: from every run that reaches such an expiry, steps of the operations under way and of the workers, however few and busy, lead to a cache step that gets the find the active session |
| SessionRaces.RevokeUndoneByExpiry | WebApps/ARServer/src/services/CachedSessionStore.cpp:57-122 | that violation is reachable with any pool, one worker included: a run in which a reported success is followed by a cache step with the active session |
| SessionProtocol.PromptRunIsGuarded | WebApps/ARServer/src/services/CachedSessionStore.cpp:65-86 | if every copy reaches the cache, or is dropped, within one cache lifetime of its durable read, the proviso holds throughout the run |
| SessionProtocol.CallbackExactlyOnce | WebApps/ARServer/src/services/CachedSessionStore.cpp:49-122 | whatever is refused and whenever shutdown comes, a find or revoke has called back once if it is over and not at all before; an unfinished one has a step to take or waits for workers of which one has; and every step leaves it fewer stages |
| SessionAnswers.AnswersAreRead | WebApps/ARServer/src/services/CachedSessionStore.cpp:57-86 | every session a find calls back with is one that the cache read under its token at some moment between the call and the callback |
| SessionAnswers.CacheIsKnown | WebApps/ARServer/src/services/CachedSessionStore.cpp:67-119 | whatever the cache reads under a token is a tombstone that a revoke of it wrote, a row that the durable store had under it, or was there at the start |
| SessionAnswers.AnswersAreKnown | WebApps/ARServer/src/services/CachedSessionStore.cpp:57-86 | so every session handed out is such a row or tombstone, unchanged |
| SessionAnswers.NothingExactly | WebApps/ARServer/src/services/CachedSessionStore.cpp:49-90 | a find answers with nothing exactly when it had no token, no room for a task, no row, or a cache reply that was lost or missed |
| SessionAnswers.RevokeReportsExactly | WebApps/ARServer/src/services/CachedSessionStore.cpp:110-122 | a revoke reports failure exactly when it had no token, no durable write, no room for its task or no confirmation, and success exactly when its tombstone was confirmed, after the durable write |
| SessionAnswers.DurableOnlyAfterMiss | WebApps/ARServer/src/services/CachedSessionStore.cpp:57-85 | a hit is an answer; the durable store is asked only after a missed probe, the winner read only after an unconfirmed copy |
| SessionAnswers.InactiveCopyWins | WebApps/ARServer/src/services/CachedSessionStore.cpp:68-79 | the cache can confirm an inactive copy whatever it holds, an active one exactly when it holds nothing; it then reads as that copy |
| SessionAnswers.RowsExactly | src/db/SessionDAO.cpp:477-503 | a row is always the session created under its token, deactivated without its scene if it was active and a revocation was written since |
| SessionAnswers.LivesFromLastUse | src/cache/SessionCache.cpp:72-140 | an entry lives one cache lifetime from when it was last written or read with success |
| SessionShutdown.StoreSeesPool | src/base/TaskWorkerPool.cpp:36-71 | store and pool moving together: a submission is admitted by both or neither, a worker is free exactly when one holds no task, and a task can begin exactly when some worker is awake to take it |
| SessionShutdown.EveryRunIsPooled | src/base/TaskWorkerPool.cpp:36-79 | every run of the store is the store's part of a run of store and pool together |
| SessionShutdown.ShutdownLeavesNothing | src/base/TaskWorkerPool.cpp:19-34 | when shutdown has returned, every accepted task has run once, and every find or revoke has called back once or is outside the pool, with the durable store or about to report a refusal |
| SessionShutdown.AfterShutdown | WebApps/ARServer/src/main.cpp:186-195 | from then on nothing enters the pool or the cache, and every late callback reports a refusal |
| SessionStore.CachedSessionStore.CallsKeepTheLaws | WebApps/ARServer/src/services/CachedSessionStore.cpp:49-122 | after any sequence of calls, expiries included: callbacks are invoked exactly once; while no tombstone expired under an older copy a settled revoke is sealed, with one worker no active answer is pending, and right after such an expiry a leak lies ahead |
| SessionStore.CachedSessionStore.Find | WebApps/ARServer/src/services/CachedSessionStore.cpp:49-90 | starts a find: the empty token and a refused submission are answered at once, otherwise the cache probe is queued; the calls so far stay a run |
| SessionStore.CachedSessionStore.ProbeCache | WebApps/ARServer/src/services/CachedSessionStore.cpp:57-63 | the first task has an answer from the cache or goes to the durable store |
| SessionStore.CachedSessionStore.ReadRow | WebApps/ARServer/src/services/CachedSessionStore.cpp:64-64 | the durable store reads the row, with the time of the read |
| SessionStore.CachedSessionStore.OnDurableAnswer | WebApps/ARServer/src/services/CachedSessionStore.cpp:64-121 | the callback given to the durable store submits the backfill or the tombstone, or ends the operation |
| SessionStore.CachedSessionStore.BackfillCache | WebApps/ARServer/src/services/CachedSessionStore.cpp:67-79 | an inactive copy overwrites the cache entry, an active one is only added; a loser goes on to read the winner |
| SessionStore.CachedSessionStore.ReadTheWinner | WebApps/ARServer/src/services/CachedSessionStore.cpp:80-83 | the loser answers with whatever the cache holds now |
| SessionStore.CachedSessionStore.Revoke | WebApps/ARServer/src/services/CachedSessionStore.cpp:110-113 | starts a revoke; the empty token fails at once |
| SessionStore.CachedSessionStore.WriteRow | WebApps/ARServer/src/services/CachedSessionStore.cpp:113-113 | the durable write deactivates an active row |
| SessionStore.CachedSessionStore.WriteTombstone | WebApps/ARServer/src/services/CachedSessionStore.cpp:116-119 | the tombstone overwrites the entry; success is what the cache confirms |
| SessionStore.CachedSessionStore.InvokeCallback | WebApps/ARServer/src/services/CachedSessionStore.cpp:59-121 | the callback with the operation's result |
| SessionStore.CachedSessionStore.BeginTask | src/base/TaskWorkerPool.cpp:55-71 | a free worker takes the oldest task |
| SessionStore.CachedSessionStore.CloseAdmission | src/base/TaskWorkerPool.cpp:19-25 | closes admission; the calls so far stay a run |
| SessionStore.CachedSessionStore.CreateSession | src/db/SessionDAO.cpp:337-388 | a session appears under a fresh token |
| SessionStore.CachedSessionStore.RefreshEntry | src/cache/SessionCache.cpp:72-79 | a hit renews the entry's lifetime |
| SessionStore.CachedSessionStore.ExpireEntry | src/cache/SessionCache.cpp:93-95 | an entry past its lifetime goes; the calls so far stay a run |
| TaskPool.AcceptedTasksRunExactlyOnce | src/base/TaskWorkerPool.cpp:19-79 | in every run the queue stays within capacity, tasks start in admission order, and when shutdown returns every accepted task has run exactly once |
| TaskPool.RefusedExactly | src/base/TaskWorkerPool.cpp:36-47 | a submission is refused exactly when the pool is closed, has no workers or its queue is full; an accepted task is last in the queue |
| TaskPool.NeverStuck | src/base/TaskWorkerPool.cpp:36-79 | no wake-up is lost: with a task queued some worker can take it or finish its own, and after the broadcast the pool can move until shutdown returns |
| TaskPool.WorkerPool.TrySubmit | src/base/TaskWorkerPool.cpp:36-47 | accepts exactly when accepting, with workers, below capacity; then the task is last in the queue |
| TaskPool.WorkerPool.NextTask | src/base/TaskWorkerPool.cpp:55-71 | a worker whose wait is over gets the oldest task, or leaves when there is none |
| TaskPool.WorkerPool.StopAccepting | src/base/TaskWorkerPool.cpp:19-25 | closes admission and keeps the rest |
| SessionTextCodec.RoundTripExactly | src/cache/SessionCache.cpp:12-51 | the text codec reads back what it wrote exactly when no text field holds a bar and updatedAt is not empty |
| SessionTextCodec.TombstoneNeverActive | src/cache/SessionCache.cpp:12-51 | for every token, a tombstone reads back as itself or not at all |
| SessionTextCodec.SerializedExample | src/cache/SessionCache.cpp:12-23 | the text of one session, field by field |
| SessionTextCodec.UnstorableCanTurnActive | src/cache/SessionCache.cpp:12-51 | for a whole family of sessions outside that condition an inactive session reads back as an active one |
| SessionTextCodec.GetLine | src/cache/SessionCache.cpp:28-31 | one getline yields the next field and the rest |
| SessionTextCodec.ReadText | src/cache/SessionCache.cpp:25-51 | the field loop and conversions compute the decoding function, failures included |
| Decimal.IntegersRoundTrip | src/cache/SessionCache.cpp:12-45 | printing and then reading gives back every 64-bit unsigned and every 32-bit signed number |
| Decimal.ParseSize | src/http/StaticFileHandler.cpp:41-55 | the digit loop with its division-based overflow test decides number, not a number or too big, by the value of the text |
| SessionBinaryCodec.DecodeUndoesEncode | src/session/SessionCodec.cpp:26-43 | for every order of the values, decode undoes encode when all lengths fit 32 bits, and refuses what encode returns otherwise |
| SessionBinaryCodec.EncodedExample | src/session/SessionCodec.cpp:26-36 | the bytes of one session: id, expiry, lifetime, count, key and value |
| SessionBinaryCodec.DecodeAcceptsOnlyEncodings | src/session/SessionCodec.cpp:37-43 | accepted bytes are the encoding of the decoded session in some order of its values |
| SessionBinaryCodec.NoPrefixNoExtension | src/session/SessionCodec.cpp:37-43 | no proper prefix and no proper extension of accepted bytes is accepted |
| SessionBinaryCodec.EncodeSession | src/session/SessionCodec.cpp:26-36 | the writing loop produces the encoding for the order in which it met the keys |
| SessionBinaryCodec.DecodeSession | src/session/SessionCodec.cpp:37-43 | the cursor-based reader computes the decoding function |
| SessionBinaryCodec.DecodeEntries | src/session/SessionCodec.cpp:41-41 | the entry loop, refusing a repeated key |
| SessionBinaryCodec.GetString | src/session/SessionCodec.cpp:19-22 | length-prefixed string at the cursor, or failure |
| SessionBinaryCodec.PutHeader | src/session/SessionCodec.cpp:29-30 | id, expiry, lifetime and count in order |
| SessionBinaryCodec.PutString | src/session/SessionCodec.cpp:29-33 | length then bytes |
| BigEndian.PutNumber | src/session/SessionCodec.cpp:9-10 | shift-and-mask loop appends the big-endian bytes of the number |
| BigEndian.GetNumber | src/session/SessionCodec.cpp:11-18 | accumulating loop yields the number spelt by the bytes at the cursor, or fails when too few are left |
| BigEndian.ValueOfPut | src/session/SessionCodec.cpp:9-18 | reading undoes writing for every number of that width |
| BigEndian.PutOfValue | src/session/SessionCodec.cpp:9-18 | writing undoes reading for every byte string |
| HttpServing.CutIndependentExactly | src/http/HttpServer.cpp:45-77 | for every stream, limits and handlers' decisions: requests, error, state and unread bytes do not depend on how the stream is cut if and only if, parsed at once, it leaves no bytes that the next call of the callback would act on |
| HttpServing.RefusalRepeatsExactly | src/http/HttpServer.cpp:52-58 | a refusal is repeated for ever, with the same error and the same bytes in front, exactly when it was not taken at the blank line or the bytes after that line are refused alike by themselves |
| HttpServing.KeptOpenIsDocumented | src/http/HttpServer.cpp:45-77 | with handlers that keep the connection open, every cutting of a stream that meets no blank-line refusal gives what the documented driver gives |
| HttpServing.ServedAfterRefusal | src/http/HttpContext.cpp:258-289 | for a family of streams, a request refused for its length is handed out once a later fragment brings a length of zero, and not when the same bytes come at once |
| HttpServing.RefusedThenServedExample | src/http/HttpContext.cpp:258-289 | the same at GET / with length x, followed by length 0 |
| HttpServing.ClosedRequestServedAgain | src/http/HttpServer.cpp:63-75 | a request whose handler closed the connection is handed out again when more bytes arrive |
| HttpServing.ServedAsSent | src/http/HttpServer.cpp:45-77 | well-formed requests, cut anywhere, are handed out as sent with nothing left unread |
| HttpServing.ServedOneByOne | src/http/HttpServer.cpp:63-75 | requests that arrive one at a time are each handed out once, in order, whether their handlers answer at once or later |
| HttpServing.LaterWaits | src/http/HttpServer.cpp:64-74 | a request answered later is handed out once; the bytes behind it wait and are parsed from the start |
| HttpGrammar.ParsedAsWritten | src/http/HttpContext.cpp:77-362 | against an independent grammar of request line, header lines, blank line and body with their limits: whatever a stream reads as, the parser hands out exactly that request, refuses what is wrong first for its reason, or waits |
| HttpGrammar.EveryStreamReads | src/http/HttpContext.cpp:77-362 | every stream has such a reading, so the grammar decides every outcome |
| HttpLimits.HandedOutWithinLimits | src/http/HttpServer.cpp:45-77 | whatever arrives, however it is cut, whatever handlers decide and whatever was refused before: every request handed out has request line, headers and body within the limits, and no context waits for a larger body |
| HttpLimits.DrivenWithinLimits | src/http/HttpContext.cpp:77-362 | the documented driver hands out nothing beyond the limits either |
| HttpLimits.WaitsWithinLimits | src/http/HttpContext.cpp:95-359 | a call that waits leaves no more bytes unread than its limit allows at that point |
| HttpLimits.LongBodyRefused | src/http/HttpContext.cpp:258-286 | a head that announces a body above the limit is refused as too large, with what follows unread |
| HttpLimits.LongLineRefused | src/http/HttpContext.cpp:95-110 | a request line above its limit is refused, ended or not |
| HttpLimits.LongHeadersRefused | src/http/HttpContext.cpp:232-249 | headers above their limit are refused at the line that exceeds it, ended or not |
| HttpLimits.CodingRefused | src/http/HttpContext.cpp:331-337 | a transfer coding is refused wherever it stands and however its name is spelt |
| HttpLimits.ReasonKept | src/http/HttpContext.cpp:126-133 | after a refusal, a line without a colon is refused for the earlier reason |
| HttpLimits.NamesWithoutCase | src/http/HttpContext.cpp:331-339 | two header names are one exactly when they differ in the case of letters only |
| HttpLimits.FramingNames | src/http/HttpContext.cpp:258-267 | the names that frame a message, as they are commonly written |
| HttpParser.HttpConnection.OnMessage | src/http/HttpServer.cpp:45-77 | the callback over the growing, compacting buffer moves exactly as the specification given the same bytes, after refusals, closes and late answers too |
| HttpStream.FragmentIndependence | src/http/HttpContext.cpp:77-362 | the documented driver, which stops at a refusal: for every stream, limits and cutting, same requests, error, state and unread bytes as parsing the whole stream at once |
| HttpParser.HttpContext.ParseRequest | src/http/HttpContext.cpp:77-160 | the documented call: outcome, parser state and unread bytes are those of the specification |
| HttpStream.TurnProgress | src/http/HttpContext.cpp:85-155 | each turn of the loop returns, strictly decreases unread bytes and remaining states, or changes nothing, the last exactly when the buffer ends inside headers or body |
| HttpStream.WrittenLoopTerminatesExactly | src/http/HttpContext.cpp:85-155 | the loop as written terminates exactly when the buffer does not end inside headers or body, and then returns what the documented call does |
| HttpStream.HeadersTurnStops | src/http/HttpContext.cpp:224-347 | one parseHeaders call fails or stops only where more bytes are needed or the headers are over |
| HttpStream.DrainByCalls | src/http/HttpContext.cpp:77-160 | repeated parseRequest calls, handing out each completed request, are the specification's drain |
| HttpSyntax.AdvanceExtended | src/http/HttpContext.cpp:77-362 | a step decided on the bytes at hand is decided the same way whatever follows |
| HttpSyntax.GoShrinks | src/http/HttpContext.cpp:77-362 | every consuming step shortens the unread bytes or the remaining states |
| HttpRoundTrip.ParsedAsSent | src/http/HttpContext.cpp:77-362 | a rendered request within the limits is parsed back to the same request with exactly the following bytes unread |
| HttpParser.FindCRLF | src/http/HttpContext.cpp:52-62 | first line end, or none |
| HttpParser.HttpContext.ProcessRequestLine | src/http/HttpContext.cpp:162-222 | accepts a request line exactly as the grammar function does, and leaves the request alone otherwise |
| HttpParser.HttpContext.ProcessHeaderLine | src/http/HttpContext.cpp:304-339 | one header line into the header map, or the reason it is refused |
| HttpParser.HttpContext.FinishHeaders | src/http/HttpContext.cpp:258-301 | decides whether and how long a body follows, or why not |
| HttpParser.HttpContext.ParseHeader | src/http/HttpContext.cpp:228-344 | one header line or the blank line |
| HttpParser.HttpContext.AcceptHeaderLine | src/http/HttpContext.cpp:304-344 | consumes one counted header line |
| HttpParser.HttpContext.ParseHeaders | src/http/HttpContext.cpp:224-347 | the header loop computes one headers turn |
| HttpParser.HttpContext.ParseBody | src/http/HttpContext.cpp:349-362 | takes a complete body or waits |
| HttpParser.HttpContext.ParseFirstLine | src/http/HttpContext.cpp:89-122 | takes a complete request line within its limit, waits or fails |
| HttpParser.HttpContext.Reset | src/http/HttpContext.cpp:366-374 | back to the initial context, limits kept |
| ByteBuffer.Buffer.Append | include/net/Buffer.h:66-71 | the unread bytes followed by the new ones, whatever moved or grew; the array is replaced exactly when they do not fit in it, by one no longer than by the new bytes |
| ByteBuffer.Buffer.CopyIn | include/net/Buffer.h:69-69 | copies the data behind the unread bytes |
| ByteBuffer.Buffer.Retrieve | include/net/Buffer.h:30-40 | drops that many unread bytes, or all |
| ByteBuffer.Buffer.RetrieveAll | include/net/Buffer.h:41-46 | drops everything |
| ByteBuffer.Buffer.MakeSpace | include/net/Buffer.h:86-107 | makes room without changing the unread bytes |
| ByteBuffer.Buffer.Grow | include/net/Buffer.h:92-95 | growth keeps the unread bytes |
| ByteBuffer.Buffer.MoveToFront | include/net/Buffer.h:96-106 | compaction in place keeps the unread bytes |
| ByteBuffer.Buffer.constructor | include/net/Buffer.h:17-22 | an empty buffer |
| LfuCounts.CountsForEveryLimit | include/LFU.h:110-314 | for every aging limit that is not negative, in every state reached before an eviction without a victim: placement, size within capacity, the running total bounds the sum of frequencies and is never negative; for limits of at least 2 every frequency is below (limit + 1) * capacity |
| LfuCounts.StoppedExactlyByEviction | include/LFU.h:203-228 | a run can go on with a put unless it has to evict and finds no victim, and with a get always |
| LfuOrder.VictimIsOldest | include/LFU.h:220-257 | the victim is least used, and among the least used the one that came to its list earliest, where an aging pass lists all keys anew in the order of its walk |
| LfuOrder.ListOrderExactly | include/LFU.h:61-85 | of two keys of one list, one stands further front if and only if it came earlier in that sense |
| LfuOrder.AgedOrder | include/LFU.h:293-311 | after an aging pass every list is in the order of the walk over the key table |
| LfuOrder.FrontCameFirst | include/LFU.h:61-85 | within a list, whoever stands further front came earlier |
| LfuValues.StoredIsLastPut | include/LFU.h:110-228 | for every aging limit: a key is stored exactly from its put until it is evicted or the cache purged, with the last value put |
| LfuTotals.FrequencyIsUses | include/LFU.h:182-314 | the frequency of a stored key is the number of its accesses since it was stored, lowered by each aging since |
| LfuTotals.TotalIsSum | include/LFU.h:220-283 | until something is aged or purged the running total is exactly the sum of the frequencies, evictions included |
| LfuTotals.ExcessStep | include/LFU.h:151-283 | only aging and a purge move the total away from the frequencies |
| LfuLimits.EvictionWithoutVictim | include/LFU.h:220-228 | for every limit outside 2 to 250, a run that ends in a full cache where every put of a new key finds no victim |
| LfuLimits.EvictionsSucceed | include/LFU.h:220-228 | for limits from 2 to 250 and every capacity, no run comes to an eviction without a victim |
| LfuLimits.EvictionsSucceedExactly | include/LFU.h:220-228 | at capacity 1, exactly for these limits |
| HashLfu.SlicesStaySound | include/LFU.h:336-375 | so every slice keeps the counting invariant and its own capacity for limits that are not negative, and the whole invariant from 2 to 250 |
| HashLfu.TotalStaysBelow | include/LFU.h:336-345 | for limits that are not negative, all slices together always hold fewer entries than the requested capacity plus the number of slices |
| LfuNodes.NodeTable.Add | include/LFU.h:241-257 | threads a loose node at the tail of the linked list of its frequency, made when missing: the lists' keys change as in the model, and no other list notices |
| LfuNodes.NodeTable.Remove | include/LFU.h:230-239 | unthreads a node from the linked list of its frequency: the lists' keys change as in the model, and no other list notices |
| LfuNodes.NodeTable.NewList | include/LFU.h:250-255 | a new empty list with its own sentinels |
| LfuNodes.NodeTable.NewNode | include/LFU.h:211-213 | a node of frequency 1 for a new key, in no list yet |
| LfuNodes.NodeTable.Erase | include/LFU.h:225-226 | the key table forgets a node that is in no list |
| LfuNodes.NodeTable.SetFreq | include/LFU.h:190-191 | changes one node's frequency and nothing else |
| LfuNodes.NodeTable.SetValue | include/LFU.h:118-120 | changes one node's value and nothing else |
| LfuNodes.NodeTable.FirstKey | include/LFU.h:85-85 | the first key of a list that is not empty |
| LfuNodes.NodeTable.EmptyAt | include/LFU.h:55-58 | whether a frequency has no keys |
| LfuCache.KLfuCache.Move | include/LFU.h:189-192 | unthread, change the frequency, thread again |
| LfuCache.KLfuCache.AgeAll | include/LFU.h:293-311 | the aging loop over the key table, for the order it met |
| LfuCache.KLfuCache.Evict | include/LFU.h:223-226 | out of its list and out of the key table |
| LfuCache.KLfuCache.Update | include/LFU.h:115-123 | a put of a stored key: new value, then an access |
| LfuInvariant.EveryReachableState | include/LFU.h:110-329 | for limits 2 to 250, in every reachable state: each key stands exactly in the list of its frequency, size within capacity, the running total bounds the sum of frequencies, every frequency is below (limit + 1) * capacity, minFreq_ is the least frequency and the victim exists and is least used |
| LfuLimits.SoundExactlyBetween2And250 | include/LFU.h:286-329 | for every positive capacity: minFreq_ is right in every reachable state if and only if the aging limit is between 2 and 250 |
| LfuLimits.UnsoundOutside | include/LFU.h:286-329 | outside that range, for every capacity, a run that ends with a wrong minFreq_ |
| LfuInvariant.InvStep | include/LFU.h:110-329 | every put, get and purge keeps the invariant |
| LfuInvariant.EvictionFindsLeast | include/LFU.h:220-228 | in a non-empty sound cache the list at minFreq_ has a first key, which is stored and least used |
| LfuInvariant.ScanFindsLeast | include/LFU.h:316-329 | updateMinFreq finds the least frequency when that is below 127 and answers 1 otherwise |
| LfuInvariant.AgeLoopEffect | include/LFU.h:293-311 | aging, in any iteration order, lowers every key once and keeps the lists right |
| LfuCache.KLfuCache.Put | include/LFU.h:110-127 | one put step of the model, for the iteration orders it met; without a demand on the caller for limits from 2 to 250 |
| LfuCache.KLfuCache.Get | include/LFU.h:130-141 | one get step of the model; returns the stored value |
| LfuCache.KLfuCache.Clear | include/LFU.h:151-155 | purge empties the tables and nothing else |
| LfuCache.KLfuCache.KickOut | include/LFU.h:220-228 | evicts the first key at minFreq_, which exists |
| LfuCache.KLfuCache.PutInternal | include/LFU.h:202-217 | insertion with eviction, counting and the reset of minFreq_ |
| LfuCache.KLfuCache.InsertNode | include/LFU.h:205-215 | makes room when full, then adds the node at frequency 1 |
| LfuCache.KLfuCache.GetInternal | include/LFU.h:182-200 | relink one frequency up, then count |
| LfuCache.KLfuCache.Touch | include/LFU.h:187-196 | relinks the node and moves minFreq_ when its list empties |
| LfuCache.KLfuCache.AddFreqNum | include/LFU.h:259-272 | counts and ages when the average is over the limit |
| LfuCache.KLfuCache.HandleOverMaxAverageNum | include/LFU.h:285-314 | the aging loop and the scan, for the orders they met |
| LfuCache.KLfuCache.AgeOne | include/LFU.h:298-310 | one key lowered by half the limit, not below 1, and relinked |
| LfuCache.KLfuCache.UpdateMinFreq | include/LFU.h:316-329 | the scan over the frequency table |
| FreqList.LinkedList.AddNode | include/LFU.h:61-70 | tail insertion: contents grow by the node at the end, links stay consistent |
| FreqList.LinkedList.RemoveNode | include/LFU.h:72-83 | unlinking keeps the order of the others; a node in no list is left alone |
| FreqList.LinkedList.Unlink | include/LFU.h:79-82 | the pointer surgery on one inner node |
| FreqList.LinkedList.GetFirstNode | include/LFU.h:85-85 | the oldest node, or the tail sentinel |
| FreqList.LinkedList.IsEmpty | include/LFU.h:55-58 | empty exactly when the contents are |
| HashLfu.SliceIsACache | include/LFU.h:347-375 | each slice is in the state that a single cache reaches by exactly the events its hash selects |
| HashLfu.SlicesHoldLastPut | include/LFU.h:347-375 | over all slices a key is stored in its own slice only, with the last value put |
| HashLfu.SlicesCoverCapacity | include/LFU.h:336-345 | the slices' sizes add up to at least the capacity and less than one more per slice |
| EventLoop.WokenQueueCanRun | src/net/EventLoop.cpp:80-106 | from any poll with a wake-up written or owed, the threads' own steps, without a timeout and without further posts, start everything queued, in order |
| TimerQueue.QueueStaysArmed | src/timer/TimerQueue.cpp:65-189 | a non-empty queue is armed for its earliest expiry whenever the loop waits, as long as no handler drains the timerfd for a time later than its reading of the clock |
| TimerQueue.ArmingLostExactly | src/timer/TimerQueue.cpp:127-171 | an armed queue loses its arming in a handler exactly then; the batch is empty and nothing later sets the timerfd |
| TimerQueue.PunctualLossIsExactlyTheRace | src/timer/TimerQueue.cpp:78-134 | with a timerfd that never goes off before the moment it was set for, at least 100 microseconds ahead, and a clock that does not go back, that happens exactly when the timerfd goes off between the handler's clock reading and its read |
| TimerRaces.PunctualRaceForgets | src/timer/TimerQueue.cpp:65-171 | a run with punctual clocks, every setting at least 100 microseconds ahead, that ends with a waiting timer and an unarmed timerfd |
| TimerRaces.EarlyRingForgets | src/timer/TimerQueue.cpp:127-171 | a run with an early timerfd that ends so |
| TimerQueue.TurnKeeps | src/timer/TimerQueue.cpp:127-171 | a whole turn with callbacks that add timers keeps ownership, and arming unless the timerfd was drained for a later time |
| TimerQueue.Timers.Take | src/timer/TimerQueue.cpp:127-134 | reads the clock, then the timerfd, then takes what is due |
| EventLoop.NoLostWakeupExactly | src/net/EventLoop.cpp:80-106 | over all interleavings the loop never blocks with queued functors unannounced if and only if at loop() the queue is empty or a wake-up is written or owed |
| EventLoop.RunsInPostOrder | src/net/EventLoop.cpp:142-184 | what has started is a prefix of what was posted, position by position; the rest waits in order |
| EventLoop.OneTurnRunsAll | src/net/EventLoop.cpp:88-103 | everything queued when poll returns has started when the loop next polls or stops |
| EventLoop.QuitIsNoticed | src/net/EventLoop.cpp:118-126 | a quit asked for while looping never meets a blocked poll without a wake-up |
| LoopSignals.CounterExactly | src/net/EventLoop.cpp:163-184 | poll is woken by the eventfd exactly while a wake-up is unread, and a full counter stays within its range |
| LoopSignals.StopsExactly | src/net/EventLoop.cpp:80-126 | the loop returns exactly at a test that finds it was asked to quit since its start |
| LoopSignals.EarlyQuitIsLost | src/net/EventLoop.cpp:80-90 | a quit before loop() is lost: a run |
| LoopSignals.OwnWakeupsOnlyWhileCalling | src/net/EventLoop.cpp:142-160 | the loop's thread writes the eventfd only for what it queues while calling functors |
| EventLoop.Reactor.QueueFromOutside | src/net/EventLoop.cpp:142-160 | another thread's post followed by its wake-up |
| EventLoop.Reactor.QueueInLoop | src/net/EventLoop.cpp:142-160 | the loop thread's post wakes only while functors are being called |
| EventLoop.Reactor.WakeupFd | src/net/EventLoop.cpp:175-184 | the saturating eventfd write |
| EventLoop.Reactor.ReadWakeupFd | src/net/EventLoop.cpp:163-172 | the read that clears the counter |
| EventLoop.Reactor.SwapOut | src/net/EventLoop.cpp:204-215 | flag, then the swap under the lock |
| EventLoop.Reactor.Call | src/net/EventLoop.cpp:217-220 | one functor, which may queue others for the next turn |
| EventLoop.Reactor.CallAll | src/net/EventLoop.cpp:217-220 | all swapped-out functors in order |
| EventLoop.Reactor.DoPendingFunctors | src/net/EventLoop.cpp:204-223 | exactly the functors queued at the swap are called, in order; what they queue stays, with the eventfd written |
| TimerQueue.TimersAreNeverLost | src/timer/TimerQueue.cpp:65-189 | over every run, additions from callbacks included: each timer is in exactly one of queue, batch and freed; freed ones are one-shots called exactly once; no one-shot is called twice; none early; repeating ones are queued between batches |
| TimerQueue.TakenExactlyDue | src/timer/TimerQueue.cpp:116-125 | getExpired takes exactly the timers due at or before now and leaves the rest in order |
| TimerIntervals.CalledWhenDue | src/timer/TimerQueue.cpp:127-172 | a callback runs for the timer as the events made it: due when it was added for, or its interval after it was last put back |
| TimerIntervals.PutBackBetween | src/timer/TimerQueue.cpp:148-160 | between two calls of a timer it is put back, and the second is due its interval after that moment |
| TimerIntervals.CallsAreSpaced | src/timer/Timer.cpp:4-11 | with a clock that does not go back, two calls of a timer are at least the interval apart that it was added with |
| TimerQueue.Timers.InsertTimer | src/timer/TimerQueue.cpp:174-189 | ordered insertion; reports whether the earliest changed |
| TimerQueue.Timers.AddTimerInLoop | src/timer/TimerQueue.cpp:65-75 | inserts and re-arms when the earliest changed |
| TimerQueue.Timers.ResetTimerfd | src/timer/TimerQueue.cpp:78-103 | sets the timerfd for the time left, or for the floor of 100 microseconds |
| TimerQueue.Timers.GetExpired | src/timer/TimerQueue.cpp:116-125 | splits off the due prefix |
| TimerQueue.Timers.CallBack | src/timer/TimerQueue.cpp:138-141 | one callback with the timers it adds |
| TimerQueue.Timers.CallExpired | src/timer/TimerQueue.cpp:136-142 | the batch's callbacks in order |
| TimerQueue.Timers.PutBack | src/timer/TimerQueue.cpp:152-170 | one timer re-queued from the current clock or freed, then the timerfd set |
| TimerQueue.Timers.Reset | src/timer/TimerQueue.cpp:148-171 | the whole batch put back or freed |
| TimerQueue.Timers.HandleTimerfd | src/timer/TimerQueue.cpp:127-146 | the handler is one turn of the model |
| TcpOutput.WireIsPrefix | src/net/TcpConnection.cpp:85-310 | one response at a time and under every pattern of kernel answers, the wire carries a prefix of what was handed over; while nothing was discarded, wire, buffer and file make up exactly that |
| TcpOutput.HalfCloseOnlyWhenDone | src/net/TcpConnection.cpp:149-165 | half-close happens only with no output and no file left, unless already torn down; then, with nothing discarded, everything handed over is on the wire |
| TcpClosing.HalfClosedWhenIdle | src/net/TcpConnection.cpp:149-165 | a connection shut down, with no shutdown under way and no write interest, is half-closed, unless a file that arrived after the shutdown ended in its own sendFileInLoop, which always leaves it open |
| TcpClosing.LastByteHalfCloses | src/net/TcpConnection.cpp:213-237 | the writable event that empties the output of a connection being shut down, with no file left, half-closes it in that step |
| TcpClosing.ShutdownHalfCloses | src/net/TcpConnection.cpp:149-165 | a shutdown with nothing left to write half-closes at once, in the loop or on its arrival |
| TcpClosing.HalfClosedExactly | src/net/TcpConnection.cpp:149-237 | the write side is half-closed exactly if a shutdown met nothing to write or a writable event left nothing after one |
| TcpClosing.HalfCloseForgotten | src/net/TcpConnection.cpp:294-308 | a run in which the exception happens |
| TcpClosing.StatusExactly | src/net/TcpConnection.cpp:149-260 | a connection is down exactly once closed, or destroyed while connected, and leaves the connected state exactly at a shutdown or then |
| TcpClosing.ShutdownArrivesOnce | src/net/TcpConnection.cpp:149-157 | however often it is asked for, a shutdown reaches the loop once |
| TcpClosing.InterestExactly | src/net/TcpConnection.cpp:85-308 | up to destruction the connection asks for writable events exactly while output or a file is left |
| TcpClosing.LostExactly | src/net/TcpConnection.cpp:85-310 | handed-over bytes are thrown away exactly by a send when not connected, a broken pipe, a file replaced or failed, or tear-down |
| TcpClosing.WireIsWhatWasTaken | src/net/TcpConnection.cpp:85-308 | one response at a time, the wire carries exactly as many bytes as the kernel took, the first of what the callers handed over |
| TcpOutput.DescriptorsClosedOnce | src/net/TcpConnection.cpp:279-310 | every descriptor taken over is pending or closed exactly once, and after destruction closed exactly once |
| TcpOutput.SendOvertakesFile | src/net/TcpConnection.cpp:85-145 | a message sent behind a pending file comes out before the rest of it; the stream is intact exactly when the two byte strings commute |
| TcpOutput.OvertakingHappens | src/net/TcpConnection.cpp:85-145 | a reachable run in which it does |
| TcpOutput.StalledFileStays | src/net/TcpConnection.cpp:213-248 | a pending file with nothing buffered is never resumed by writable events |
| TcpOutput.TcpConnection.WriteInLoop | src/net/TcpConnection.cpp:85-145 | direct write, buffering of the rest, or loss on a broken pipe |
| TcpOutput.TcpConnection.SendPendingFile | src/net/TcpConnection.cpp:301-308 | one sendfile step; finished and failed files are closed |
| TcpOutput.TcpConnection.FileInLoop | src/net/TcpConnection.cpp:294-299 | the new file replaces a pending one, or is closed at once after disconnection |
| TcpOutput.TcpConnection.ClosePendingFile | src/net/TcpConnection.cpp:310-310 | closes a pending file once |
| TcpOutput.TcpConnection.OnWritable | src/net/TcpConnection.cpp:213-248 | drains the buffer, then the file, then half-closes if asked |
| TcpOutput.TcpConnection.Shut | src/net/TcpConnection.cpp:149-157 | disconnecting, and half-close when nothing is being written |
| TcpOutput.TcpConnection.CloseWriteSide | src/net/TcpConnection.cpp:159-165 | half-close unless write interest is on |
| TcpOutput.TcpConnection.OnClose | src/net/TcpConnection.cpp:250-260 | tear-down closes the file and drops write interest |
| MemoryPool.PoolIsSound | memory/memoryPool.cc:35-100 | after any allocations and matching frees: live slots are 8-aligned, disjoint from each other and from free slots, inside one block and clear of every header; carved slots are exactly the live and the free ones, without overlap |
| MemoryPool.AllocateKeeps | memory/memoryPool.cc:35-67 | allocation hands out a slot that was not live and keeps the invariant; the free list dropped with a new block is empty |
| MemoryPool.DeallocateKeeps | memory/memoryPool.cc:69-78 | freeing a live slot or null keeps the invariant |
| MemoryPool.NewBlockKeeps | memory/memoryPool.cc:80-99 | a new block keeps the invariant and has room for a slot |
| MemoryPool.FreedIsReusedFirst | memory/memoryPool.cc:35-78 | what was freed last is handed out next |
| MemoryPool.NewBlockOnlyWhenFull | memory/memoryPool.cc:51-60 | a further block is asked for only when every carved slot is in use and no block has room for another |
| MemoryPool.FullyAlignedExactly | memory/memoryPool.cc:80-106 | slots are aligned to their own size exactly for power-of-two sizes |
| SlotAlignment.AlignedExactly | memory/memoryPool.cc:102-106 | padding aligns exactly when no wrap-around happens or the size divides 2^64 |
| SlotAlignment.PowerOfTwoSlotsAlign | memory/memoryPool.cc:102-106 | every pointer past the size is aligned if and only if the size is a power of two |
| SlotAlignment.PaddingKeepsEight | memory/memoryPool.cc:102-106 | for sizes that are multiples of 8, padding is at most size - 8 and keeps 8-byte alignment through the wrap-around |
| PoolObject.PoolMemory.TakeSlot | memory/memoryPool.cc:35-67 | the free list threaded through memory is popped, or a slot carved; no word of a live slot changes |
| PoolObject.PoolMemory.GiveBack | memory/memoryPool.cc:69-78 | writes only the link in the freed slot |
| PoolObject.PoolMemory.AllocateNewBlock | memory/memoryPool.cc:80-99 | writes only the new block's header |
| PoolObject.PoolMemory.UserWrite | memory/memoryPool.cc:35-78 | owners may write any word of a live slot without disturbing the pool's lists |
| PoolObject.PoolMemory.constructor | memory/memoryPool.cc:25-33 | an initialised, empty pool |
| HashBucket.ClassFits | include/memoryPool.h:63-73 | the chosen size class exists, is big enough and is the smallest that is |
| HashBucket.ObjectsNeverOverlap | include/memoryPool.h:63-86 | across all size classes and large objects, a new object has room for its size and overlaps nothing in use |
| HashBucket.ObjectsGoWhereTheyFit | include/memoryPool.h:63-86 | objects of up to 512 bytes live in the smallest class that fits, larger ones on their own, and a release takes each from where it was put; nothing else is touched |
| HashBucket.HeapStep | include/memoryPool.h:63-86 | every use and matching release keeps all pools sound and apart |
| AsyncLog.NothingLostWhileRunning | src/log/AsyncLogging.cpp:30-112 | in every interleaving: output, batch, filled buffers and current buffer together are the appended lines in lock order, so the output is a prefix |
| AsyncLog.BuffersAreThere | src/log/AsyncLogging.cpp:30-112 | the front end always owns a current buffer, the exchange finds its replacement, and both pops find a buffer |
| AsyncLog.LostExactlySinceLastSwap | src/log/AsyncLogging.cpp:68-114 | the finished log is what was appended before the last exchange, and is complete exactly when nothing that fits a buffer came after it |
| AsyncLog.StopWhileWaitingDelivers | src/log/AsyncLogging.cpp:22-27 | a stop that finds the back end before its exchange loses nothing appended before it |
| AsyncLog.ExitsExactly | src/log/AsyncLogging.cpp:68-113 | the back-end thread ends exactly at a test that comes after a stop |
| AsyncLog.SpareUsedOnce | src/log/AsyncLogging.cpp:41-48 | the front end's spare buffer is gone exactly while a filled buffer waits for the exchange |
| AsyncLog.StopWhileWritingLoses | src/log/AsyncLogging.cpp:22-27 | a run in which a stop during a write loses a line appended before it |
| AsyncLog.AsyncLogging.AppendLine | src/log/AsyncLogging.cpp:30-54 | the line goes to the current buffer, to the spare one or to a new one; only a line as large as a buffer is dropped |
| AsyncLog.AsyncLogging.Exchange | src/log/AsyncLogging.cpp:70-84 | the exchange under the lock |
| AsyncLog.AsyncLogging.WriteBatch | src/log/AsyncLogging.cpp:86-89 | the batch goes to the file, in order |
| AsyncLog.AsyncLogging.WriteBuffer | src/log/AsyncLogging.cpp:88-88 | one buffer of the batch |
| AsyncLog.AsyncLogging.RecycleBuffers | src/log/AsyncLogging.cpp:91-109 | both spares are back and empty |
| LeaseDrain.Lifetime.TakeLease | WebApps/ARServer/src/services/ArtworkInteractionService.cpp:91-101 | one Acquire step: a lease exactly while valid and with a DAO |
| LeaseDrain.Lifetime.DropLease | WebApps/ARServer/src/services/ArtworkInteractionService.cpp:103-109 | one Release step; notifies exactly when no lease is left |
| LeaseDrain.Lifetime.TryDrain | WebApps/ARServer/src/services/ArtworkInteractionService.cpp:128-138 | the destructor's step: invalidates, and is done exactly when no lease is left |
| LeaseDrain.NoCallOutlivesService | WebApps/ARServer/src/services/ArtworkInteractionService.cpp:76-139 | activeCalls is exactly the number of live leases; once the destructor has returned there is none and no DAO call can start |
| LeaseDrain.NoCallAfterReturn | WebApps/ARServer/src/services/ArtworkInteractionService.cpp:88-139 | no DAO call overlaps or follows the destructor's return, at any later point |
| LeaseDrain.LateChecksReportUnavailable | WebApps/ARServer/src/services/ArtworkInteractionService.cpp:149-230 | session answers, lease attempts and DAO completions that check after invalidation report Unavailable |
| LeaseDrain.DrainOnlyShrinks | WebApps/ARServer/src/services/ArtworkInteractionService.cpp:91-139 | after invalidation leases only go away |
| LeaseDrain.DrainNeverStuck | WebApps/ARServer/src/services/ArtworkInteractionService.cpp:103-139 | a sleeping destructor has been notified, and returns at its next look, exactly when no lease is left |
| LeaseDrain.AnsweredOnce | WebApps/ARServer/src/services/ArtworkInteractionService.cpp:170-230 | a request is answered exactly when nothing more is to come for it, and its answer never changes |
| LeaseDrain.AnsweredExactly | WebApps/ARServer/src/services/ArtworkInteractionService.cpp:149-230 | a request is told an answer exactly when a step was the reason for it: Success only from a DAO success while valid, Unauthorized only for a refusal or an inactive session |
| LeaseDrain.SessionBeforeLease | WebApps/ARServer/src/services/ArtworkInteractionService.cpp:156-189 | a request that needs a session takes a lease, calls the DAO and succeeds only after that session was found active |
| LeaseDrain.WaitsExactly | WebApps/ARServer/src/services/ArtworkInteractionService.cpp:156-189 | it waits for its session exactly from its begin until the session's answer or a refusal |
| Utf8.DecodesExactlyUtf8 | WebApps/ARServer/src/services/ArtworkInteractionService.cpp:14-63 | the decoder accepts a byte string with these scalars exactly when it is their UTF-8 encoding |
| Utf8.EncodingIsUnique | WebApps/ARServer/src/services/ArtworkInteractionService.cpp:14-63 | two scalar sequences with the same encoding are equal |
| Utf8.NextSound | WebApps/ARServer/src/services/ArtworkInteractionService.cpp:14-63 | bytes accepted as one code point are its encoding |
| Utf8.NextComplete | WebApps/ARServer/src/services/ArtworkInteractionService.cpp:14-63 | the encoding of a scalar is read back whatever follows |
| Utf8.NextCodePoint | WebApps/ARServer/src/services/ArtworkInteractionService.cpp:14-63 | the decoding loop computes the one-code-point function |
| Utf8.ValidNonBlankUtf8 | WebApps/ARServer/src/services/ArtworkInteractionService.cpp:356-367 | true exactly when the bytes are the encoding of scalars of which one is not whitespace |
| Utf8.Scan | WebApps/ARServer/src/services/ArtworkInteractionService.cpp:356-367 | the scanning loop: decodable and with content |
| RoutePattern.MatchesExactly | src/router/Router.cpp:169-206 | a path matches with these captures exactly when it is the pattern with each parameter replaced by the non-empty slash-free capture |
| RoutePattern.MatchesSegmentwise | src/router/Router.cpp:169-206 | independently of the compiler: exactly when the path's segments are the pattern's, each parameter segment replaced by its non-empty capture |
| RoutePattern.CapturesAreUnique | src/router/Router.cpp:169-206 | the captures are determined by the path |
| RoutePattern.CompilesToTokens | src/router/Router.cpp:8-31 | the compiled text, escapes included, reads back as the pattern's tokens |
| RoutePattern.EscapesExactly | src/router/Router.cpp:8-31 | the compiler escapes exactly the characters that have a meaning of their own in an expression |
| RoutePattern.CompileDynamicPattern | src/router/Router.cpp:169-200 | the compiling loop yields that text and the parameter names in order |
| RoutePattern.IsDynamicPattern | src/router/Router.cpp:155-167 | true exactly when the pattern has a parameter |
| Router.RouteTable.AddRoute | src/router/Router.cpp:77-110 | a verb and pattern are registered once, in order |
| Router.RouteTable.Register | src/router/Router.cpp:88-109 | the new route joins the table and its key is taken |
| Router.RouteTable.Store | src/router/Router.cpp:89-108 | dynamic routes are appended, exact ones go under their path |
| Router.RouteTable.RouteRequest | src/router/Router.cpp:112-153 | first candidate for the verb, exact ones shadowing dynamic ones, with its parameters; else not-found or the candidates' verbs |
| Router.RouteTable.RouteExact | src/router/Router.cpp:118-134 | choice among the exact routes of a path |
| Router.RouteTable.RouteDynamic | src/router/Router.cpp:136-152 | choice among matching dynamic routes in registration order |
| Router.VerbsExact | src/router/Router.cpp:208-215 | the allowed list holds each candidate's verb exactly once and nothing else |
| Router.RouteChosenExactly | src/router/Router.cpp:112-153 | the route chosen for a verb is the one registered first among those that are the path literally, or match it while none of any verb is |
| Router.AllowedExactly | src/router/Router.cpp:112-153 | the verbs reported with a refusal are exactly those of the routes that count for the path |
| Router.InjectParameters | src/router/Router.cpp:217-226 | binds names to captures in order |
| Router.BoundIsLast | src/router/Router.cpp:217-226 | each name is bound, a repeated one to its last capture |
| RangeHeader.AcceptsExactly | src/http/StaticFileHandler.cpp:57-88 | a header is accepted exactly when it is one byte range with numerals below 2^64, in order, asking for at least one byte of the file |
| RangeHeader.HugeNumeralRefused | src/http/StaticFileHandler.cpp:41-88 | a last byte of 2^64 is refused for every file, though it asks for the whole file |
| RangeHeader.ChoosesClippedRange | src/http/StaticFileHandler.cpp:57-88 | the chosen interval is non-empty, inside the file, and holds exactly the file's bytes that were asked for |
| RangeHeader.PartialResponseAgrees | src/http/StaticFileHandler.cpp:191-221 | a 206 announces, measures and sends the same bytes, those the header asked for |
| RangeHeader.WholeResponse | src/http/StaticFileHandler.cpp:191-221 | without a range: the whole file and its length |
| RangeHeader.RefusedRangeResponse | src/http/StaticFileHandler.cpp:185-189 | a range not accepted: 416, the size of the file and nothing of it |
| RangeHeader.HeadAgrees | src/http/StaticFileHandler.cpp:197-198 | the answer to HEAD is that to GET without the body |
| RangeHeader.AnnouncedRangeIsStable | src/http/StaticFileHandler.cpp:57-88 | asking again for the announced bytes gets the same interval |
| RangeHeader.UnsignedExactly | src/http/StaticFileHandler.cpp:41-55 | the digit loop accepts exactly the decimal numerals below 2^64, with their value |
| RangeHeader.ParseSingleRange | src/http/StaticFileHandler.cpp:57-88 | the parser computes that function; offset and count stay inside the file |
| RangeHeader.ParseInterval | src/http/StaticFileHandler.cpp:67-87 | the part after the split |

## Left out

- MySQL, Redis, epoll, timerfd, eventfd, sendfile and std::regex internals: only their answers are modelled; std::regex as a backtracking matcher for the fragment the router emits.
- Thread memory model: each critical section and each atomic access is one indivisible event; plain fields read without a lock are taken to be read atomically.
- CachedSessionStore without cache or worker pool, enter, exit, invalidate, and TwoLevelCache: not part of the running server's revoke path.
- Session tokens are drawn fresh and rows of the durable store are storable text (no bar, non-empty updatedAt); RoundTripExactly and UnstorableCanTurnActive say what happens otherwise.
- SessionProtocol.RevokeIsFinal: speaks of cache steps, and assumes that a tombstone does not expire under a find with an older copy, because the code ensures neither for callbacks nor against expiry; LateAnswersExactly and UnguardedExpiryLeaks show that both limits are exact.
- SessionProtocol: a durable store that refuses a read at once, inside the task, is modelled as one that answers later with nothing.
- HttpParser.HttpContext.ParseRequest: returns on incomplete headers or body, as documented; the loop as written is covered by TurnProgress and WrittenLoopTerminatesExactly.
- HttpParser.HttpConnection.OnMessage: a handler's decision is a function of its request; receive times and the half-closed write side are not modelled.
- LfuCache.KLfuCache.Put: counters are unbounded integers; the constructor asks for an aging limit that is not negative, and outside 2 to 250 a put must not have to evict without a victim, where the source dereferences a list that is missing or empty.
- LfuCounts.CountsForEveryLimit: runs end where a put would evict without a victim; a negative limit makes aging raise frequencies and is not covered.
- HashLfu.SlicesCoverCapacity: rounds up over integers, not over doubles.
- EventLoop: runInLoop on the loop's own thread calls the functor at once and is not an event; channels other than the eventfd only appear as user code.
- TimerQueue: the destructor is not modelled; timer identities are never reused; the clock readings of restart and of the resetTimerfd after it are one.
- TcpOutput: write-complete and high-water-mark callbacks, the input side, negative descriptors, and the lifetime of the string passed to a cross-thread send.
- MemoryPool.PoolIsSound: pool calls are atomic; allocateNewBlock clears the free list under the other mutex (memory/memoryPool.cc:54-58, 98), which can lose slots between threads.
- AsyncLog: rolling and flushing of the log file, and negative line lengths.
- LeaseDrain: the reference counts behind weak_ptr; an expired lifetime and an invalid one are both refusals. What requests do besides their lifetime checks is not modelled.
- Router: handlers are opaque, and the request's other attributes are not modelled.
- RangeHeader: path resolution, conditional requests, caching and dates of static files.
- HTTP handlers, JSON, CORS, access log, configuration, DAO classes, password hashing and the front end: branch-by-branch code that would only add easy members.
