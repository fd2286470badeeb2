# Verified models of a distributed inference runtime

This project models, in Dafny, the parts of the repository whose correctness rests on
arguments that no single function shows: the distributed runtime that spreads a model's
layers over a chain of workers, the sliding-window KV rings, the disk store for KV
checkpoints, the admission projection over memory pages, the expert slot cache, the
online softmax and the streaming think-tag printer. `dafny verify dfyconfig.toml` checks
all of it.

Floats are reals or opaque values, sockets are FIFO sequences of frames, and a
mutex-protected region is one atomic step. State that the code updates in place is a
class or an array whose methods are proved against a specification; protocols are state
machines, and the theorems quantify over every run.

## What is proved

**Distributed runtime.** `TokenHash` and `WorkerSession`: the FNV-1a hash of a token span
composes over concatenation, so in every run of WORK, failed and successful reset, failed
evaluation and snapshot load a DONE reply certifies the prefix it was computed on.
`RouteSearch`, `RouteBlob`, `RoutePlan`: the backtracking search is sound and complete and
names the furthest reachable layer when it fails; the route blob is decoded exactly when
it is some acceptable route's encoding; and a span sent along any plan built from
registered workers is accepted at every hop. `Registry`: a cached plan is reused only
while every one of its hops is a registered worker, and forgetting a route leaves no
worker that serves any of its hops. `SendRing` and `Prefill`: in every interleaving of
producer, sender and reader the flow window, slot ownership, chunk order and hash chain
hold, success certifies the whole span, and without failures every maximal interleaving
succeeds after the same number of steps; with failures every interleaving still ends with
every thread ended. `PrefillOnWorker` joins the pipeline to a worker: one that is ready
for the span answers every frame DONE and ends with the whole prompt. `PendingQueue` and `ForwardChain`: the linked-list FIFO, and the chain
of FIFOs in which each hop returns one RESULT per WORK in order, with one telemetry record
per hop; what remains of that when hops report errors is proved too. `KvSizes` and
`KvPayload`: overflow-checked sizes are the exact products and sums, saving succeeds
exactly on one session's shards, and saving under one route and loading under any other
gives each shard exactly its layers; `KvLayout` says what those files are byte by byte.

**KV rings.** `RingCache`: over every run of forward, resume, fork, restore and reset the
resume rule is exact, attention over the ring equals attention over an absolute-position
cache, each layer of each model reads exactly the positions its kind calls for, and rings smaller than window + block - 1 are exactly the ones without that
property. `Softmax` and `Attention`: the two-pass and the online form with a sink are the
textbook averages.

**Disk store.** `Sha1`: any splitting of a message into updates gives the digest of FIPS
180-4, sections 5.1.1 and 6.1.2. `Lookup`: the pruned searches return what the unpruned
definitions do. `Eviction`: victims score lowest, none is taken once the rest fits, and a
stored file replaces only those of its name and leaves the directory within its budget.

**The rest.** `CreditUnion`: the one-pass run merger charges the non-resident pages of the
union, once each. `ExpertCache`: staging a batch succeeds exactly when its experts fit
beside the blocked slots, and evicts none of them. `ThinkPrinter`: whatever the chunks,
the terminal shows the text's letters, grey exactly where it is thinking.

What the model takes from the engine (ds4.c): a span is evaluated at the end of a valid
timeline, or at position 0 when the timeline is marked invalid, and is then appended
(ds4.c:77218-77255); a failed evaluation or load may leave any timeline; a reset empties
the timeline before it can fail (ds4.c:77138-77152), or is refused untouched. Together
with the early return after a failed reset (ds4_distributed.c:7198-7206), which keeps the
cached hash marked valid, that makes one natural claim false: a valid hash need not be the
timeline's. `WorkerSession` shows the run, the exact step that breaks it, and what holds
in every run all the same: a worker never evaluates an honest frame on anything but the
announced prefix. Honest frames announce the hash of the tokens before the span, as the
coordinator's do (ds4_distributed.c:1333-1347, `Prefill.FramesAreHonest`). A position-0
span on an invalid timeline is placed after leftover tokens only if those hash like no
tokens at all, which is the remaining case of `Placed`.

The header comment of the single-node payload (ds4.h:1601-1606) describes a row-format
flags word that the distributed writer and reader do not produce or accept; the model
follows the distributed code.

## Model

| member | source | states |
|---|---|---|
| `TokenHash.UpdateToken` | ds4_distributed.c:1315-1322 | the byte loop is FNV-1a over the token's four little-endian bytes in 64-bit arithmetic |
| `TokenHash.UpdateIsFour` | ds4_distributed.c:1315-1322 | a token is four rounds, one for each byte from the lowest up |
| `TokenHash.RoundIsFnv` | ds4_distributed.c:1309-1322 | a round takes the byte in and multiplies by the FNV prime, modulo 2^64; the starting value and the prime are the code's |
| `TokenHash.UpdateSpan` | ds4_distributed.c:1324-1331 | the span loop is the fold of the token step |
| `TokenHash.SpanConcat` | ds4_distributed.c:1324-1331 | hashing a concatenation is hashing the second part from the first part's hash |
| `WorkerSession.Worker.ProcessWork` | ds4_distributed.c:7188-7251 | the whole new session table and reply, for every outcome of reset and evaluation; keeps the invariant for an honest frame |
| `WorkerSession.Worker.LoadSnapshot` | ds4_distributed.c:6869-6890 | the same for a snapshot load, including a failed one |
| `WorkerSession.EvaluatedIsTruthful` | ds4_distributed.c:7016-7020 | on a truthful session a span runs only on a timeline that hashes to its announced prefix, which then hashes to the announced result |
| `WorkerSession.EvaluatedIsSound` | ds4_distributed.c:7224-7251 | the same on any session a run can leave, for an honest frame, and the span sits where it says |
| `WorkerSession.StepKeepsInv` | ds4_distributed.c:7188-7251 | every step keeps: a hash marked valid is the timeline's, or the engine has no timeline and says so |
| `WorkerSession.RunKeepsInv` | ds4_distributed.c:7188-7251 | so does every run of honest WORK, successful and failed resets, failed evaluations, snapshot loads and clears |
| `WorkerSession.DoneMeansPrefixMatched` | ds4_distributed.c:7224-7251 | after any such run a DONE reply certifies the prefix hash, the position and the result hash of that session, and that no other session changed |
| `WorkerSession.DoneExactly` | ds4_distributed.c:7188-7251 | a frame is answered DONE if and only if its hashes agree with each other, the session's hash, cached or recomputed, is the announced one at the announced position (after a reset: that of no tokens, at 0), and the engine succeeds; and then the timeline is the old one, or none, followed by the tokens |
| `WorkerSession.ContinuationIsDone` | ds4_distributed.c:7224-7251 | so a worker that holds exactly the tokens before a span, its hash cached or not, or that is told to reset at the beginning, evaluates it and refuses nothing |
| `WorkerSession.RefusalTouchesNothing` | ds4_distributed.c:7224-7247 | a refusal that asked the engine for nothing leaves the timeline alone, a prefix mismatch names two hashes that really differ, and no frame touches another session |
| `WorkerSession.LoadDoneExactly` | ds4_distributed.c:6869-6890 | exactly when a snapshot load succeeds, and what it leaves; a failed one leaves no valid hash |
| `WorkerSession.StaleNeverEvaluates` | ds4_distributed.c:7224-7251 | a session that a failed reset left with the hash of lost tokens evaluates no honest span, and a failed attempt clears the hash |
| `WorkerSession.TruthLostExactly` | ds4_distributed.c:7198-7206 | the stronger claim, that every valid hash is the timeline's, survives a step if and only if the step is not a reset that fails after emptying a session whose cached hash is valid and not that of no tokens |
| `WorkerSession.RunKeepsTruth` | ds4_distributed.c:7188-7251 | so it holds over every run without such a step, whatever the frames announce |
| `WorkerSession.FailedResetLosesTruth` | ds4_distributed.c:7198-7206 | a run in which it fails: after such a reset a frame that announces the lost token's hash at position 0 is answered DONE on an empty timeline |
| `WorkerSession.ErrorFreeRunReplicates` | ds4_distributed.c:7188-7251 | on runs without a refusal a worker's timeline is its start plus everything fed to it, whatever other sessions do |
| `WorkerSession.ResetStartsReplica` | ds4_distributed.c:7198-7206 | an evaluated reset WORK leaves exactly its own tokens |
| `RouteSearch.Search` | ds4_distributed.c:1774-1809 | the recursive search: sound, complete, within its buffer, path length unchanged on failure |
| `RouteSearch.FindRoute` | ds4_distributed.c:2063-2080 | a route is found if and only if some workers lie end to end from `next` until the first end at `last`, each with hidden states unless it is the last and has its own output head, and with an output head there or at the coordinator; otherwise the layer named is exactly the furthest that contiguous workers with hidden states leave to be served |
| `RouteSearch.RouteInFields` | ds4_distributed.c:1764-1802 | the chains that the search accepts are exactly those routes, in the workers' own fields |
| `RouteSearch.StartInFields` | ds4_distributed.c:1774-1809 | and the beginnings it explores exactly the contiguous workers with hidden states short of the last layer |
| `RouteSearch.CheckHello` | ds4_distributed.c:3930-4014 | the handshake accepts exactly a worker of the same model and layer count, with a range inside it, an output head only at its end, a context at least the coordinator's and a 16-bit port |
| `RouteBlob.TakeEncoded` | ds4_distributed.c:5759-5810 | a record reader undoes the record writer |
| `RouteBlob.TakenIsEncoded` | ds4_distributed.c:5759-5810 | and whatever it reads was so written |
| `RouteBlob.RecordLayout` | ds4_distributed.c:1955-1990 | a record's bytes: host length, port, first and last layer and flags, each with the highest byte first, then the host |
| `RouteBlob.ReturnLayout` | ds4_distributed.c:1993-2019 | the return record's twelve bytes |
| `RouteBlob.RouteOkMeans` | ds4_distributed.c:5879-5977 | what every hop checks of a route, in the records' own fields |
| `RouteBlob.Validate` | ds4_distributed.c:5879-5977 | accepts a blob if and only if it is the encoding of some contiguous, well-formed route of that length |
| `RouteBlob.GetEntry` | ds4_distributed.c:5759-5810 | returns the i-th entry of the route the blob encodes |
| `RouteBlob.GetReturnTarget` | ds4_distributed.c:5812-5877 | succeeds exactly on the encodings of some records, whatever their host lengths, and a return record with nothing after it, and returns that record |
| `RouteBlob.BuildBlob` | ds4_distributed.c:1955-2019 | succeeds exactly when all hosts are valid and the records fit 32 bits of length, and then yields the route's encoding |
| `RoutePlan.CompleteIsPlan` | ds4_distributed.c:2081-2125 | a complete chain of registered workers is a well-formed plan of registered workers |
| `RoutePlan.BuildPlan` | ds4_distributed.c:2021-2133 | a built plan is contiguous, encoded and served by registered workers, and is the coordinator alone or a route in the workers' own fields; each failure says why there is none, and an incomplete route that none exists and how far one gets |
| `RoutePlan.CheckRouting` | ds4_distributed.c:6947-7144 | accepts exactly the frames that agree in every field with a well-formed route and with this worker, and gives the route's next entry |
| `RoutePlan.FirstIsHonest` | ds4_distributed.c:2313-2372 | the coordinator's frame is honest at the first hop |
| `RoutePlan.ForwardIsHonest` | ds4_distributed.c:6483-6500 | the forwarding rewrite of an honest frame is honest at the next hop |
| `RoutePlan.EveryHopIsHonest` | ds4_distributed.c:6466-6540 | hence at every hop of the plan, with the span unchanged |
| `RoutePlan.HelloCoversContext` | ds4_distributed.c:3997-4006 | the HELLO check on contexts makes every worker hold every span within the coordinator's own context |
| `RoutePlan.RegisteredServe` | ds4_distributed.c:3930-4014 | workers that passed the HELLO checks are what the plan of their entries expects at each hop |
| `RoutePlan.JourneyExists` | ds4_distributed.c:6483-6500 | no hop's rewrite fails on the way |
| `RoutePlan.PlanIsHonest` | ds4_distributed.c:2081-2125 | for any plan served by registered workers and any span they hold, the frames exist and each is honest at its own worker |
| `RoutePlan.SendAlongPlan` | ds4_distributed.c:6947-7144 | build a plan from registered workers and send a span along it with every hop's checks and rewrite: whenever there is a plan, every hop accepts |
| `RoutePlan.WireSize` | ds4_distributed.c:780-810 | the hidden-state sizes computed from values and from float bytes agree at every hop |
| `RoutePlan.WireBytesIs` | ds4_distributed.c:780-795 | a size is accepted exactly when it is the values' number of bits, at 8, 16 or 32 each, in 32 bits of length |
| `Registry.SortWorkers` | ds4_distributed.c:1753-1762 | the sorted list is a permutation in the comparator's order |
| `Registry.SortedInFields` | ds4_distributed.c:1753-1762 | earlier layers first, then workers with the output head, then the longer range |
| `Registry.RegisterInFields` | ds4_distributed.c:1703-1734 | a registration replaces exactly the entries of the same host, model, range and output flag |
| `Registry.RemoveInFields` | ds4_distributed.c:3859-3882 | a closed connection takes out the first entry that came by it, and only then is the generation another |
| `Registry.ForgetInFields` | ds4_distributed.c:1922-1953 | a forget takes out exactly the workers with some hop's host, port, range and output flag |
| `Registry.Coordinator.Register` | ds4_distributed.c:1703-1734 | registers a worker, dropping every entry it replaces; keeps the invariant |
| `Registry.Coordinator.DropStale` | ds4_distributed.c:1709-1731 | the unlinking loop removes exactly the twins |
| `Registry.Coordinator.Remove` | ds4_distributed.c:3859-3882 | removes the first entry with that connection, and moves the generation only then |
| `Registry.Coordinator.Forget` | ds4_distributed.c:1922-1953 | removes one worker per hop of the failed plan, moves the generation if any was removed, frees the plan |
| `Registry.Coordinator.Build` | ds4_distributed.c:2021-2133 | yields the coordinator alone or a route through the sorted registry, or the reason why there is none |
| `Registry.Coordinator.EnsureRoute` | ds4_distributed.c:4096-4112 | reuses a plan of the current generation and otherwise builds one; succeeds exactly when the cache is fresh afterwards |
| `Registry.ForgottenHopsAreGone` | ds4_distributed.c:1922-1953 | after a forget no registered worker serves any hop of that route, and every worker that served none is still registered |
| `Registry.ForgetMovesGeneration` | ds4_distributed.c:2728-2733 | forgetting a fresh plan with hops always moves the generation |
| `Registry.StepKeepsInv` | ds4_distributed.c:2712-2738 | every register, remove, forget, build, ensure and rebuild step keeps the invariant, and the registry is unchanged whenever the generation is |
| `Registry.RunKeepsInv` | ds4_distributed.c:5264-5395 | so every run does: no twins, and a fresh plan is served by the current registry |
| `Registry.GenerationFixesRegistry` | ds4_distributed.c:4101-4102 | equal generations anywhere in a run mean equal registries |
| `Registry.ReusedPlanIsLive` | ds4_distributed.c:4096-4112 | a plan that would be reused is served hop by hop, each hop by exactly one worker |
| `SendRing.TailIsFree` | ds4_distributed.c:2916-2933 | the producer's slot is none of the queued ones |
| `SendRing.FillKeepsQueue` | ds4_distributed.c:2916-2951 | writing it disturbs no queued slot |
| `SendRing.PublishAppends` | ds4_distributed.c:2935-2951 | publishing appends it to the queue and keeps `tail == (head + queued) % slots` |
| `SendRing.ReleaseDropsFirst` | ds4_distributed.c:2970-3030 | releasing drops the oldest and keeps the same |
| `SendRing.Sender.AcquireSlot` | ds4_distributed.c:2916-2933 | one attempt: waits exactly on a full ring that has not stopped, is refused exactly after a stop or failure, and otherwise claims a free slot |
| `SendRing.Sender.EnqueueSlot` | ds4_distributed.c:2935-2951 | the new ring state and queue, or the refusal |
| `SendRing.Sender.ReleaseSlot` | ds4_distributed.c:2970-3030 | the new ring state and queue |
| `Prefill.ExpectedHashes` | ds4_distributed.c:3349-3366 | the table built for the reader holds, for each chunk, the hash of the whole prompt prefix that ends with it |
| `Prefill.StepKeepsInv` | ds4_distributed.c:3084-3183 | every action of any of the threads keeps the pipeline invariant |
| `Prefill.RunKeepsInv` | ds4_distributed.c:3345-3484 | so does every interleaving |
| `Prefill.FlowIsBounded` | ds4_distributed.c:3084-3105 | completed <= answered <= sent <= submitted <= completed + window, and `tail == (head + queued) % slots`, in every reachable state |
| `Prefill.WrittenSlotIsPrivate` | ds4_distributed.c:2916-3030 | while the producer writes a slot it is neither queued nor being sent |
| `Prefill.ChunksTile` | ds4_distributed.c:3345-3484 | the chunks tile the span without gap or overlap |
| `Prefill.WireIsOrdered` | ds4_distributed.c:2970-3030 | in every reachable state the frames that left are in request order, chain their hashes and carry exactly the start of the span |
| `Prefill.SuccessMeans` | ds4_distributed.c:3107-3183 | success means all chunks left, every answer matched id and prefix hash, and the last one was not an acknowledgement |
| `Prefill.NotStuck` | ds4_distributed.c:3084-3105 | without failures some action is enabled in every unfinished state |
| `Prefill.HealthyRunsSucceed` | ds4_distributed.c:3345-3484 | every failure-free interleaving that cannot go on has succeeded, after exactly nine steps per chunk and two exits |
| `Prefill.FramesAreHonest` | ds4_distributed.c:3446-3462 | every frame that leaves announces the hash of exactly the tokens before its span, and of both together |
| `Prefill.FramesInFields` | ds4_distributed.c:3446-3462 | in every reachable state: the k-th frame's id, position and width; it carries the reset exactly if the span does and it is the first, and asks for a bare acknowledgement exactly if that is enabled and it is not the last |
| `Prefill.GoodInFields` | ds4_distributed.c:3107-3183 | which answers the reader accepts for a chunk, field by field |
| `PrefillOnWorker.WorkerFollows` | ds4_distributed.c:3446-3462 | pipeline and worker together: fed the frames of any interleaving in order, a worker that holds the prompt before the span, or is told to reset at its start, answers every one DONE with the hash the reader expects, and holds the prompt through its chunk |
| `PrefillOnWorker.SuccessFillsWorker` | ds4_distributed.c:3462-3484 | so a successful prefill leaves it with exactly the prompt through the span's end |
| `Prefill.NeverStuck` | ds4_distributed.c:2953-3030 | whatever has failed, some action is enabled, without a further failure, until every thread has ended |
| `Prefill.EveryRunEnds` | ds4_distributed.c:3462-3484 | every interleaving with any failures and answers takes at most nine steps per chunk and eight more, and where it cannot go on every thread has ended |
| `PendingQueue.Forwarder.Enqueue` | ds4_distributed.c:6067-6095 | one attempt: waits exactly on a full open queue, is refused exactly on a closing one, and otherwise appends at the tail; count, tail pointer and depth bound stay right |
| `PendingQueue.Forwarder.Pop` | ds4_distributed.c:6097-6118 | removes the oldest, failing exactly on an empty list |
| `PendingQueue.Forwarder.Remove` | ds4_distributed.c:6120-6144 | unlinks the first node with that id, keeping order and tail |
| `ForwardChain.HeadsMatch` | ds4_distributed.c:6185-6380 | the oldest RESULT from below always answers the oldest pending request |
| `ForwardChain.StepKeepsInv` | ds4_distributed.c:6185-6380 | every submit, take, send, reply and relay keeps the chain invariant of error-free runs |
| `ForwardChain.RunKeepsInv` | ds4_distributed.c:6185-6380 | so does every run without an error, over any number of hops |
| `ForwardChain.OneResultPerWork` | ds4_distributed.c:7295-7316 | each hop has returned exactly one RESULT per WORK in arrival order, up to what is pending, within its depth |
| `ForwardChain.DeliveredInOrder` | ds4_distributed.c:6185-6380 | results reach the coordinator in submission order with one telemetry record per hop, last hop first |
| `ForwardChain.OutstandingWorkMoves` | ds4_distributed.c:7409-7446 | no reachable state of such a run with work outstanding is deadlocked, whatever the depth |
| `ForwardChain.ErrorsOvertake` | ds4_distributed.c:7014-7020 | a run in which a hop's error overtakes a pending result: the hop returns out of order and the coordinator stops |
| `ForwardChain.AnyRunKeeps` | ds4_distributed.c:6304-6324 | in every run, errors included, each node answers each request it took exactly once, and a result without an error has passed every hop |
| `ForwardChain.AcceptedInOrder` | ds4_distributed.c:2210-2214 | in every run what the coordinator accepts is a prefix of what it submitted |
| `KvSizes.CheckedMulIsExact` | ds4_distributed.c:697-702 | the overflow test is exact: the product when it fits 64 bits, failure otherwise |
| `KvSizes.CheckedStateIsExact` | ds4_distributed.c:4361-4373 | the chained state size is the exact product when that fits |
| `KvSizes.LayerBytes` | ds4_distributed.c:4375-4418 | a layer's checked tensor size is the exact sum of products when that fits, and fails otherwise |
| `KvSizes.LayerSizeIs` | ds4_distributed.c:4361-4418 | that sum in closed form, for uncompressed, compressed and ratio 4 layers |
| `KvPayload.ValidateRoute` | ds4_distributed.c:4642-4669 | accepts exactly the contiguous covers of all layers |
| `KvPayload.CheckedRangeSize` | ds4_distributed.c:4510-4555 | the checked total of a shard's layers is the exact sum when that fits |
| `KvPayload.ParseShard` | ds4_distributed.c:4443-4555 | succeeds exactly on the encodings of consistent shards, and returns their contents |
| `KvPayload.GatherShards` | ds4_distributed.c:4892-4930 | reading the shards in order yields exactly the session they were cut from, or fails |
| `KvPayload.SavePayload` | ds4_distributed.c:4892-4964 | succeeds exactly when the files are one session's cut along the route, and then writes that session |
| `KvPayload.ReadHead` | ds4_distributed.c:4990-5084 | succeeds exactly on the encodings of acceptable heads |
| `KvPayload.PrepareShard` | ds4_distributed.c:4749-4793 | cuts exactly one shard off the remaining bytes, failing exactly when they run out |
| `KvPayload.LoadPayload` | ds4_distributed.c:4990-5129 | succeeds exactly when the route covers the layers and the payload is some session's, with no byte over; every shard is then that session's |
| `KvPayload.RangeIsOffset` | ds4_distributed.c:4375-4418 | the tensor size of a layer range is the distance between its offsets |
| `KvLayout.PayloadLayout` | ds4_distributed.c:4938-4966 | a payload's bytes: magic, version, the eleven layout fields in order, tokens, logits, both row counts of every layer, tensors |
| `KvLayout.ShardLayout` | ds4_distributed.c:4456-4500 | a shard file's bytes, the same way |
| `KvLayout.HeadInFields` | ds4_distributed.c:5015-5084 | which heads a loader accepts, in the fields' own terms |
| `KvLayout.ShardInFields` | ds4_distributed.c:4466-4555 | which shards are believed, in the fields' own terms |
| `KvLayout.LayerTensors` | ds4_distributed.c:4375-4418 | each layer's tensors take the bytes its own ratio and row counts call for |
| `KvPayload.Migrate` | ds4_distributed.c:4843-5129 | saving under any covering route and loading under any other gives each shard its own layers, and the same tokens and logits |
| `RingCache.PlansAreWide` | ds4_gemma4.h:86-99 | how many rows each layer caches, by layer number: the context on every sixth Gemma layer and on MiMo's layer 0 and every sixth, window and block up to the context on the others; so every ring is wide |
| `RingCache.GemmaReadsTheBranch` | ds4_gemma4_graph.inc:1024-1034 | at the window and ring each kernel is given, after any run: every sixth layer reads the whole branch by absolute position, the others exactly its last 1024 positions |
| `RingCache.MimoReadsTheBranch` | ds4_mimo2_graph.inc:322-334 | the same of MiMo: layer 0 and every sixth the whole branch, the others its last 128 positions |
| `RingCache.StoreBlock` | ds4_iquest_ref.h:142-148 | the in-place store loop is the row-by-row write at `position % rows` |
| `RingCache.StepKeepsInv` | ds4_gemma4_graph.inc:485-500 | every forward, failed forward, resume, fork, restore and reset keeps the ring invariant |
| `RingCache.RunKeepsInv` | ds4_gemma4_session.inc:37-78 | so does every run from any initial contents |
| `RingCache.ResumeRuleIsExact` | ds4_gemma4_plan.h:150-160 | the resume rule admits k if and only if every row of the window under k still sits in its slot with the live branch's contents |
| `RingCache.FrontierIsAlwaysKept` | ds4_gemma4_plan.h:150-160 | resuming at the frontier is admitted in every reachable state |
| `RingCache.SavedStateRestores` | ds4_gemma4_payload.inc:117-182 | what is saved from any state of any run meets the demands of a restore |
| `RingCache.ForwardReadsTheBranch` | ds4_gemma4_plan.h:172-182 | after any run every row of any block reads the keys an unbounded cache would give it |
| `RingCache.AttendBothWays` | ds4_gemma4_ref.h:162-210 | the reference attention gives the same row over the ring as over absolute positions, after any run and for every row of every block |
| `RingCache.StoredWindowIsHistory` | ds4_iquest_ref.h:142-187 | row-by-row decoding reads exactly its window of the history |
| `RingCache.LappedRingFits` | ds4_gemma4_ref.h:162-210 | once a stream has lapped the ring every slot holds one of its rows, so a ring that is too small still holds real rows |
| `RingCache.NarrowIsWrong` | ds4_mimo2_plan.h:71-75 | for any ring that is smaller, a run of forwards within the block size after which some row's attention differs |
| `RingCache.WideIsExact` | ds4_gemma4_plan.h:172-182 | every query of every run attends as over absolute positions if and only if the ring holds window + block - 1 rows or the whole context |
| `Attention.ReferenceAttention` | ds4_gemma4_ref.h:162-210 | the two-pass loop computes the softmax average over exactly the window's keys |
| `Attention.SinkAttention` | ds4_iquest_ref.h:150-187 | the single pass with a running maximum and the final sink factor computes the average with the sink in the denominator |
| `Attention.DotIsLinear` | ds4_gemma4_ref.h:187-188 | the scores' dot product is linear in the key |
| `Attention.DotReadsOff` | ds4_gemma4_ref.h:187-188 | and reads a query's coordinates off the unit vectors, which determines it |
| `Softmax.ScaledStep` | ds4_iquest_ref.h:168-180 | moving the reference score while adding a key keeps every sum equal to its textbook value |
| `Softmax.SinkFactor` | ds4_iquest_ref.h:181-185 | the sink's factor turns the plain denominator into the one with the sink |
| `Sha1.MixByCode` | ds4_kvstore.c:244-259 | the code's round functions, written with bitwise or, are Ch, Parity and Maj |
| `Sha1.RolIsRotation` | ds4_kvstore.c:226-228 | the shift form is the rotation for the three amounts used |
| `Sha1.Transform` | ds4_kvstore.c:230-270 | one block's transform is the standard's compression |
| `Sha1.RoundInWords` | ds4_kvstore.c:244-266 | a round in the standard's rotations and constants |
| `Sha1.MixInWords` | ds4_kvstore.c:246-258 | the round functions as choice, parity and majority, by round |
| `Sha1.ScheduleInWords` | ds4_kvstore.c:230-239 | the message schedule and the initial value |
| `Sha1.Context.Absorb` | ds4_kvstore.c:285-297 | one turn of the update loop keeps: hash over whole blocks, rest in the buffer |
| `Sha1.Context.Update` | ds4_kvstore.c:282-297 | an update appends its bytes to the message |
| `Sha1.Context.PadWithZeros` | ds4_kvstore.c:301-304 | the padding loop ends, with the fewest zeros that leave room for the length |
| `Sha1.Context.Final` | ds4_kvstore.c:299-314 | the result is the digest of the message |
| `Sha1.LengthBytes` | ds4_kvstore.c:305-306 | the eight length bytes are the big-endian bit count |
| `Sha1.HashChunks` | ds4_kvstore.c:282-332 | any splitting into updates gives the digest of the concatenation |
| `Sha1.DigestIsUnique` | ds4_kvstore.c:325-332 | a message has one digest |
| `Sha1.LengthIsExact` | ds4_kvstore.c:300 | below 2^61 bytes the length field does not wrap |
| `Lookup.FindPrefix` | ds4_kvstore.c:1276-1311 | none if and only if no entry matches; otherwise every other match has a shorter text, or as long a text and fewer tokens, or ties and comes later |
| `Lookup.UsableExactly` | ds4_kvstore.c:1285-1301 | which entries may be restored, by reason, flag bits, token count, model, context and quantization |
| `Lookup.MatchesExactly` | ds4_kvstore.c:1285-1309 | and which match: the prompt starts with the text they are named after, and goes on where a suffix is needed |
| `Lookup.DeepestIsUnique` | ds4_kvstore.c:1276-1311 | that answer is unique |
| `Lookup.CommonPrefix` | ds4_kvstore.c:1371-1387 | the bounded read finds the longest common prefix of text and prompt |
| `Lookup.FiltersAreSound` | ds4_kvstore.c:1369-1370 | the length filters discard nothing that could be restored |
| `Lookup.FindLcp` | ds4_kvstore.c:1337-1398 | the pruned search returns the longest common prefix, then the smallest text, then the first entry, under the 1/8 rule |
| `Lookup.LongestIsUnique` | ds4_kvstore.c:1337-1398 | that answer is unique |
| `Eviction.ScoreOf` | ds4_kvstore.c:550-576 | the score, with the superseded test decided by the text's digest |
| `Eviction.HitsFade` | ds4_kvstore.c:555-564 | hits count in full when just used, half as much after six hours, and not at all once under a hundredth |
| `Eviction.ScoreLaws` | ds4_kvstore.c:565-568 | tokens per byte, times one more than the hits that count, doubled for every reason but four |
| `Eviction.SupersededScoresLess` | ds4_kvstore.c:508-573 | an entry scores less for the incoming text, at least a twentieth and under half, exactly when it is a running continuation that the text goes on from, of the same model, usable quantization and context |
| `Eviction.FindVictim` | ds4_kvstore.c:589-604 | no entry scores lower, none that scores the same was used longer ago, and no earlier one ties on both |
| `Eviction.Store.Evict` | ds4_kvstore.c:578-624 | the directory after the pass is that of a whole eviction, stopping at the first unlink that fails |
| `Eviction.EvictionFits` | ds4_kvstore.c:588-624 | nothing but the victims is lost, the rest fits unless an unlink failed, and no victim is taken once the rest fits |
| `Eviction.VictimsScoreLowest` | ds4_kvstore.c:588-604 | every victim scores no higher than every survivor |
| `Eviction.FitsExactly` | ds4_kvstore.c:801-842 | the size checks pass exactly when the true size fits 64 bits and 101 percent of it fits the budget |
| `Eviction.Store.StoreFile` | ds4_kvstore.c:1112-1195 | after a store every file of another name is there as often as before, the new one once, and nothing else of its name; with a trailer no larger than estimated and no failed unlink all files together fit the budget |
| `Eviction.RenamedKeeps` | ds4_kvstore.c:1191 | a rename replaces exactly the files of the new name |
| `CreditUnion.BankRunIsTouched` | ds4.h:531-538 | a bank's page run is exactly the pages its credited bytes lie in |
| `CreditUnion.MergeIsUnion` | ds4.h:539-548 | merging keeps runs disjoint and their union right |
| `CreditUnion.RunsAreTheUnion` | ds4.h:509-519 | the merged runs are disjoint and cover exactly the touched pages |
| `CreditUnion.ChargeRuns` | ds4.h:521-553 | the single pass, which keeps only the open run, charges exactly those runs, the candidate's length replacing its credit |
| `CreditUnion.ChargeIsTheUnion` | ds4.h:509-519 | the charge is the page size times the touched pages that are not resident |
| `CreditUnion.ChargeInFields` | ds4.h:521-553 | end to end in the caller's terms: the page size times the non-resident pages that hold a byte of some bank's rows, as many as its credit or the candidate's length calls for |
| `CreditUnion.ChargeIsMonotone` | ds4.h:509-519 | the charge never falls when any credit rises |
| `ExpertCache.CacheRows` | ds4_glm53_cache.h:20-36 | the longest whole-row prefix whose distinct experts fit; zero for ids out of range |
| `ExpertCache.AcceptsExactly` | ds4_glm53_stream.inc:533-536 | a batch is accepted whole exactly when its ids are in range and its distinct experts fit |
| `ExpertCache.Find` | ds4_glm53_cache.h:38-48 | the first slot that holds the expert, or none exactly if none does |
| `ExpertCache.Victim` | ds4_glm53_cache.h:50-61 | the first least recently used slot that is not held, free slots first; none exactly if all are held |
| `ExpertCache.SomeVictim` | ds4_glm53_cache.h:6-7 | while a batch that fits is incomplete, some slot may be evicted |
| `ExpertCache.BatchFits` | ds4_glm53_cache.h:6-7 | once the batch is resident it did fit beside the blocked slots |
| `ExpertCache.StagingStarts` | ds4_glm53_stream.inc:560-575 | after the hits are pinned exactly they and the blocked slots are held, across an epoch wrap too |
| `ExpertCache.Cache.Begin` | ds4_glm53_stream.inc:560-570 | releases this layer's hot pins; the new epoch is never zero |
| `ExpertCache.Cache.PinHits` | ds4_glm53_stream.inc:571-575 | pins exactly the slots that hold an expert of the batch |
| `ExpertCache.Cache.Admit` | ds4_glm53_stream.inc:576-601 | serves one id without disturbing a held slot, and keeps the table free of duplicates even when an upload fails |
| `ExpertCache.Cache.AdmitAll` | ds4_glm53_stream.inc:576-602 | admits the ids in order; succeeds with working uploads exactly when the batch fits beside the blocked slots, and every held slot keeps its expert |
| `ExpertCache.Cache.PinHot` | ds4_glm53_stream.inc:603-611 | makes hot exactly the slots of the last routed ids, and changes nothing else |
| `ExpertCache.NewestIs` | ds4_glm53_stream.inc:604-606 | which those are |
| `ExpertCache.StagedExactly` | ds4_glm53_stream.inc:560-602 | a slot that no routed id was served from is as the release left it |
| `ExpertCache.Cache.Stage` | ds4_glm53_stream.inc:531-613 | with working uploads a batch is staged if and only if its distinct experts fit beside the blocked slots; the whole new table: the slots reported hold the batch at this epoch, the last of them hot, and every other slot lost at most its pin |
| `ThinkPrinter.TokenPrinter.Process` | ds4_cli.c:454-498 | one call draws the scan of pending bytes and text, and holds back exactly its rest |
| `ThinkPrinter.TokenPrinter.WriteText` | ds4_cli.c:518-525 | the same, or a plain write when thinking is not formatted |
| `ThinkPrinter.TokenPrinter.Finish` | ds4_cli.c:500-506 | draws what was held back and closes the colour |
| `ThinkPrinter.ScanContinues` | ds4_cli.c:454-498 | a scan of two texts is the scan of the first, then of its rest with the second |
| `ThinkPrinter.HeldBackFits` | ds4_cli.c:483-492 | what is held back is a proper beginning of a tag, under 8 bytes, so the pending buffer drops nothing |
| `ThinkPrinter.FinishedScanDraws` | ds4_cli.c:463-495 | a finishing scan draws the tags and letters of the text |
| `ThinkPrinter.TokensSpellText` | ds4_cli.c:463-495 | reading a text as tags and letters loses nothing |
| `ThinkPrinter.LettersSpellNoTag` | ds4_cli.c:463-482 | and leaves no tag unread |
| `ThinkPrinter.PrintedLooks` | ds4_cli.c:435-452 | what the terminal shows: the letters, grey exactly in thinking sections with colours on, a line break after a section unless there is one; at the end it is plain, and without colours no escape was sent |
| `ThinkPrinter.SentBytes` | ds4_cli.c:435-452 | the bytes of that: the text's own, and the two escape sequences |
| `ThinkPrinter.ChunksDoNotMatter` | ds4_cli.c:454-506 | any chunks and a finish show what the whole text shows |
| `ThinkPrinter.PrintAll` | ds4_cli.c:454-506 | for any chunks the printer sends what the whole text calls for, and the terminal shows exactly that |

## Left out

- Socket setup, timeouts, retries, thread creation and joining: only the queue and lock discipline is kept, as atomic steps.
- Engine, GPU, tokenizer and sampling calls: parameters, with the assumptions stated above.
- Rounding: attention and eviction scores are over reals, and bf16 and f16 conversions are not modelled; one head of attention is modelled, the loop over heads is not.
- Hash collisions: the token hash and SHA-1 are computed exactly, but nothing is claimed about two texts with equal hashes.
- 64-bit wrap-around outside the checked arithmetic: the registry generation, the directory total, and the products and sums of the page projection are unbounded numbers here.
- ForwardChain.OutstandingWorkMoves: the job queue's depth and the socket buffers are unbounded channels, and a connection that closes is not a step; the contents of results are not modelled.
- PendingQueue.Forwarder.Enqueue: one attempt is modelled, not the wait on the condition variable between attempts; the same holds of `SendRing.Sender.AcquireSlot`.
- RoutePlan.CheckRouting: covers the routing checks of the WORK handler; the vocabulary check and the token hash comparison are separate, the latter in `WorkerSession`.
- Registry: the comparison and the rebuild of `dist_session_ensure_route` are one step; a build that happens later sees a later registry and records that registry's generation, so nothing more can be observed.
- KvPayload: shard transfer to and from workers, the file measuring calls and the single-node payload with its row-format flags word.
- Eviction.Store.StoreFile: the shortcut for an existing compatible file, which may rewrite its trailer in place without an eviction pass, and the directory scan that reads the headers.
- Lookup: the directory scan, and the hex spelling of digests (a digest is its 20 bytes).
- ExpertCache.Cache.Stage: the grouped layer mode and the weight uploads themselves; an upload is a yes or no per routed id.
- RingCache: the bytes of a payload are not modelled, only the rows it brings back.
- The tranche, admission-band and reclaim arithmetic of ds4.h, the memory census, option parsing, JSON and log output: they would add easy members only.
