# brain_os: verified models of its state machines, caches and text transformations

A Dafny 4.11 project beside the Python package `src/brain_os`. It models the parts of the package that keep
state or transform text by rules of their own, and proves what those parts promise: over every run, every
interleaving of awaits, every failure of a tier, every input. Each module follows one source file. Objects whose
methods update fields are classes with those fields; the machine a class steps through is a set of functions, the
class methods are proved to take exactly those steps, and the theorems about whole runs are lemmas on the machine.

`dafny verify dfyconfig.toml` checks everything.

| file | what it models |
|---|---|
| `Sequences.dfy`, `Recency.dfy` | suffixes and filters; least-recently-used order as a property of a whole trace, and the stack theorem |
| `EmbeddingSpec.dfy`, `EmbeddingCache.dfy` | the embedding service: in-memory LRU over Redis, SQLite and a batched API |
| `CachePruner.dfy` | the three eviction passes over the SQLite cache |
| `MessageBus.dfy` | publishers, dispatch loop, handlers, start and stop as interleaved steps |
| `ContextStore.dfy` | the bounded store of user contexts |
| `PlanLoop.dfy` | plan, execute, replan: phases, ids, mutual exclusion, termination |
| `Json.dfy`, `JsonRoundTrip.dfy`, `JsonScalars.dfy`, `JsonLengths.dfy`, `DedupEnvelope.dfy` | a JSON printer and parser (RFC 8259, sections 4, 5 and 7) and the dedup envelope on top of them |
| `Lines.dfy`, `IncludeGraph.dfy`, `PromptLoader.dfy`, `Composition.dfy` | `splitlines`, include expansion and what it puts together, section extraction |
| `DualWrite.dfy` | the two stores that write to SQLite and shadow to Postgres |
| `Router.dfy` | the pattern router's two ways of finding a winner |
| `Gather.dfy`, `Stability.dfy` | agents under a semaphore; the rolling stability monitor |

How concurrency is modelled: a step is at most what runs between two awaits, so a theorem about all interleavings
covers more than asyncio has. Where a run of the message bus is claimed to exist it is a cooperative one: nobody
moves while another holds the thread, and an await that need not wait does not give it up. Everything outside is an
argument: what the API, an LLM, SQLite or Postgres answers, whether an access fails, what other coroutines do during
an await, what a clock reads. Theorems hold for all of it.

## Where the code does less than its text says

The model follows the code, and each point below is a theorem.

- The in-memory and SQLite keys of an embedding hold neither model nor input type. A text embedded as a query is
  later served as a document with the query's vector (`QueryVectorServedAsDocument`). A call gets the vectors of its
  own kind exactly when what the tiers hold for its texts is of that kind (`AllRightIff`); what holds in general is
  that each vector was given by the API for that text, as long as its answers stand at their places.
- `embed_texts` is typed to return a vector for each text. Whatever the tiers do, a call leaves a `None` exactly when
  the API gave fewer answers than it was asked for (`NoneIsLeftIff`). When a batch is answered short and another answer
  follows, later vectors are returned for the wrong texts (`ShortBatchShiftsVectors`), and exactly then, for texts
  with different vectors (`FetchedRightIff`).
- `MessageBus.stop` says it drains the queue. It does so exactly when no message is queued, or a single one, in
  front, and the loop is already waiting for it (`StopDrainsIff`). A stop that begins while a handler runs leaves
  messages and its sentinel behind (`StopLeavesMessageAndSentinel`), and a restarted loop that meets the sentinel
  ends while the bus still says it is running. A restart is safe exactly when the queue holds no sentinel. With a
  bounded queue a stop can wait for ever, and it does exactly when the queue is full and the loop has finished with
  it (`StopCompletesIffNotStuck`, `StopGetsStuck`).
- A history limit of zero keeps everything, because `history[-0:]` is the whole list. A store made for no users
  raises on its first `get`.
- A replan that is carried out breaks off exactly when its answer cannot be iterated or holds a dict whose agents
  cannot. It has already dropped the pending phases then, and it is not counted against the limit of three: runs are bounded
  exactly when no replan is left (`RunsAreBoundedIff`). The autonomous loop still ends.
- Phase ids given by the LLM can collide. Ids stay distinct, and phases exclude each other in every interleaving,
  exactly when none it gives is taken. The guard does not keep a second call from executing the phase that runs;
  calls exclude each other exactly while each comes when none is in flight, or asks for a phase that is not running
  (`OneCallRunIff`).
- A stability score computed from negative counts can leave [10, 100] (`ScoreInRangeIff`).
- The envelope's round trip fails for one kind of string only: a high surrogate right before a low one comes back
  as the one character they spell.
- The prune report's balance of rows holds exactly when the closing count was read, or no row is left.
- A `mark_processed` is safe for the replica exactly when SQLite has the row as the call is made; otherwise an insert
  that overtakes it leaves Postgres ahead of SQLite (`MarkIsSafeIff`).
- In the router, without a demanded margin, a tie is broken by pattern order; with one, order never matters.

## Model

| member | source | states |
|---|---|---|
| `Recency.StackStep` | src/brain_os/brain/embeddings.py:610-622 | one put or hit on a cache holding the last n distinct keys of a trace leaves the last n distinct keys of the longer trace, for every bound, negative ones too |
| `Recency.StackTheorem` | src/brain_os/brain/embeddings.py:610-622 | after any run the bounded cache holds exactly the n most recently used distinct keys, in order of last use |
| `Recency.RecentKeysSurvive` | src/brain_os/brain/embeddings.py:617-622 | keys touched lately are all still held when there are at most n of them |
| `EmbeddingCache.EmbeddingService.CacheGet` | src/brain_os/brain/embeddings.py:610-615 | a hit returns the stored vector and counts as a use; the stack property and soundness are kept |
| `EmbeddingCache.EmbeddingService.CachePut` | src/brain_os/brain/embeddings.py:617-622 | the key is most recent and holds the vector; order and content stay the last `cache_size` keys of the trace |
| `EmbeddingCache.EmbeddingService.MemoryPass` | src/brain_os/brain/embeddings.py:415-427 | the call returns from memory exactly when every key is there, with the vectors held; otherwise the missed places are listed in order |
| `EmbeddingCache.EmbeddingService.RedisReads` | src/brain_os/brain/embeddings.py:429-439 | each answer is sound, and without other coroutines is what a read that works finds in Redis; a raising batch reads as all absent |
| `EmbeddingCache.EmbeddingService.SqliteReads` | src/brain_os/brain/embeddings.py:449-460 | the same for SQLite |
| `EmbeddingCache.EmbeddingService.Merge` | src/brain_os/brain/embeddings.py:440-447 | answers go to their own places, hits are promoted to memory, and what is left over is exactly what was not answered, in order |
| `EmbeddingCache.EmbeddingService.TierPasses` | src/brain_os/brain/embeddings.py:428-467 | without other coroutines the places filled are those that memory, a readable Redis or a readable SQLite answers, in that priority, and the others are answered by none; a read that fails, or a Redis that raises, answers nothing |
| `EmbeddingCache.EmbeddingService.TiersAnswerInOrder` | src/brain_os/brain/embeddings.py:415-461 | what the tiers answer for a place: memory, then Redis if it is ready, does not raise and the read works, then SQLite if it is on and the read works |
| `EmbeddingCache.EmbeddingService.ServedInOrder` | src/brain_os/brain/embeddings.py:415-461 | the same of a key when every access works |
| `EmbeddingCache.EmbeddingService.EmbedBatched` | src/brain_os/brain/embeddings.py:543-554 | the answers of the slices of 128 in order, one request for each slice, none when one fails |
| `EmbeddingSpec.BatchIs` | src/brain_os/brain/embeddings.py:550-551 | a batch is the next 128 texts or what is left, and there are as many requests as batches |
| `EmbeddingCache.EmbeddingService.FetchMissing` | src/brain_os/brain/embeddings.py:468-500 | the missing texts and no others are asked for, in every schedule; each gets the answer of its turn, in the result and in memory, and in a healthy run so does each tier that is on |
| `EmbeddingCache.EmbeddingService.WriteBack` | src/brain_os/brain/embeddings.py:475-498 | in a healthy run SQLite and Redis hold their old entries and the new ones, each only if it is on |
| `EmbeddingSpec.PutAllMeans` | src/brain_os/brain/embeddings.py:475-498 | a tier written to holds old and new keys, and only the new keys have new vectors |
| `EmbeddingCache.EmbeddingService.EmbedTexts` | src/brain_os/brain/embeddings.py:400-502 | for every schedule of failures, losses and other coroutines: the texts at some places are asked for in batches, one request a batch, each gets the answer of its turn, and every other place has a vector, so an API that answers each text leaves no `None`; a vector returned for text i is one the API gave for a text of that hash; without other coroutines the places are exactly those no readable tier answers, and the others have what the first such tier holds; in a healthy run the outcome is the relation `Completes` of the tiers; when all keys are in memory nothing else is touched |
| `EmbeddingCache.EmbeddingService.CallIsTransparent` | src/brain_os/brain/embeddings.py:415-502 | with a collision-free hash and a deterministic API, every vector a call returns is exactly the API's vector for the text of its place |
| `EmbeddingCache.EmbeddingService.NoneIsLeftIff` | src/brain_os/brain/embeddings.py:468-474 | in every schedule a `None` is left in the result if and only if the API gave fewer answers than texts it was asked for |
| `EmbeddingCache.EmbeddingService.FetchedWhole` | src/brain_os/brain/embeddings.py:468-474 | an API that gives one vector for each text of a batch leaves no `None` |
| `EmbeddingCache.EmbeddingService.FetchedRightIff` | src/brain_os/brain/embeddings.py:468-474 | short answers to a call, in every schedule: for texts with different vectors each vector from the API stands at its own text if and only if no short batch is followed by an answer |
| `EmbeddingCache.ShortBatchShiftsVectors` | src/brain_os/brain/embeddings.py:471-474 | a call that returns the last vector for the text before it, after a first batch answered short by one |
| `EmbeddingCache.EmbeddingService.EachIsHonest` | src/brain_os/brain/embeddings.py:543-554 | an API that gives one vector for each text of a batch has its answers at the places of their texts, as many as the texts |
| `EmbeddingCache.EmbeddingService.ServesFromParts` | src/brain_os/brain/embeddings.py:415-502 | the index lists of the code compute the specification: served texts get the tiers' vector, the n-th unserved text the n-th answer |
| `EmbeddingSpec.AlignedIff` | src/brain_os/brain/embeddings.py:543-554 | short answers: for texts with different vectors, what an API answers in order but perhaps short stands at the places of its texts if and only if no short batch is followed by a non-empty answer |
| `EmbeddingSpec.NoGapMeansAligned` | src/brain_os/brain/embeddings.py:543-554 | for any texts, what is answered before the first short batch and in it stands at the places of its texts when nothing comes after |
| `EmbeddingSpec.FilterIsPick` | src/brain_os/brain/embeddings.py:463-470 | the listed indices are the unserved texts in order |
| `EmbeddingCache.EmbeddingService.EmbedQuery` | src/brain_os/brain/embeddings.py:504-539 | sound for every schedule; in a healthy run the first tier that has the vector answers and nothing is written, else one request is made and its first answer, if there is one, stored in each tier that is on |
| `EmbeddingCache.EmbeddingService.EmbedTwice` | src/brain_os/brain/embeddings.py:418-474 | an immediate repeat makes no API call when the first call left no `None`, as with an API that answers each text, and the keys touched meanwhile fit the cache; without other coroutines it is enough that there are at most `cache_size` distinct texts |
| `EmbeddingCache.EmbeddingService.OwnKeysCount` | src/brain_os/brain/embeddings.py:418-474 | the distinct keys a call touches are at most its distinct texts |
| `EmbeddingCache.EmbeddingService.SoundMeansGiven` | src/brain_os/brain/embeddings.py:48-49 | with a collision-free hash a sound vector is one the API gave for that very text, and with a deterministic API it is the API's vector |
| `EmbeddingCache.EmbeddingService.AllRightIff` | src/brain_os/brain/embeddings.py:395-396 | a call gets the vectors the API gives for its own model and input type if and only if what the tiers already hold for its texts is of that kind |
| `EmbeddingCache.EmbeddingService.EmbedTextsAs` | src/brain_os/brain/embeddings.py:400-502 | the same of an `embed_texts` call with healthy tiers |
| `EmbeddingCache.QueryVectorServedAsDocument` | src/brain_os/brain/embeddings.py:610-622 | on any service, a text no tier has, embedded as a query and then as a document, gets the query's vector both times with one request, though the API gives another for the document |
| `EmbeddingCache.ServeQueryVector` | src/brain_os/brain/embeddings.py:610-622 | a service and schedules for which that happens |
| `CachePruner.EvictionsCompose` | src/brain_os/brain/embeddings.py:183-248 | evicting oldest rows after evicting oldest rows evicts oldest rows |
| `CachePruner.BatchFits` | src/brain_os/brain/embeddings.py:232-234 | a byte-cap batch is a twentieth of the rows left, rounded down, at least 1 and at most 500, so the exit for an empty batch is never taken |
| `CachePruner.ExpiredIffStale` | src/brain_os/brain/embeddings.py:183-195 | a row is expired if and only if there is a retention and it was last accessed, or created when never accessed, longer ago than that many days |
| `CachePruner.EmbeddingTable.DeleteOlderThan` | src/brain_os/brain/embeddings.py:183-195 | exactly the rows older than the cutoff go, and they are counted |
| `CachePruner.EmbeddingTable.DeleteOldest` | src/brain_os/brain/embeddings.py:200-211 | as many rows as asked for go, and no row that stays is older than one that went |
| `CachePruner.EmbeddingTable.AgeAndRowPasses` | src/brain_os/brain/embeddings.py:180-223 | no expired row and at most the cap of rows remain, and without a row over the cap exactly the rows that are not expired; a failed transaction leaves the table as it was |
| `CachePruner.EmbeddingTable.BytePass` | src/brain_os/brain/embeddings.py:226-260 | ends for every behaviour of the file size; each probe over budget costs a twentieth of the rows then left, at least one and at most 500 |
| `CachePruner.EmbeddingTable.Prune` | src/brain_os/brain/embeddings.py:135-284 | eviction order across all passes, bounds, exact counts, what each pass takes, the figures of the report and when they balance, and the status |
| `MessageBus.RecipientsAreThoseWhoWant` | src/brain_os/message_bus.py:174-178 | a message goes to exactly the handlers of its agent and the broadcast ones |
| `MessageBus.RecipientsInOrder` | src/brain_os/message_bus.py:174-188 | the handlers of the target are called first, as they subscribed, and then the broadcast ones |
| `MessageBus.DeliversInOrder` | src/brain_os/message_bus.py:180-188 | a dispatch calls its handlers one by one in the order of the list, each once, whether or not one before has raised |
| `MessageBus.DeliverKeeps` | src/brain_os/message_bus.py:180-188 | a handler call settles that handler alone, whether it returns or raises |
| `MessageBus.TakeKeeps` | src/brain_os/message_bus.py:165-171 | taking a message keeps conservation, the bounded log and every handler's account |
| `MessageBus.StepKeeps` | src/brain_os/message_bus.py:74-188 | every step of publishers, subscribers, loop, start and stop keeps the invariant |
| `MessageBus.BusDelivers` | src/brain_os/message_bus.py:58-188 | in every interleaving logged plus queued is what was accepted, in order; the log is its end; each handler there from the start has received exactly its messages, once and in order |
| `MessageBus.PublishedIsDelivered` | src/brain_os/message_bus.py:58-188 | read off the steps alone, in every interleaving: logged plus queued is the messages published, in order, running or not; an agent has as many handlers as it subscribed; and the i-th was called with exactly the messages for it logged since that subscription, once each, in order |
| `MessageBus.PutRefusedIff` | src/brain_os/message_bus.py:87-90 | a publisher waits if and only if the queue is bounded and full |
| `MessageBus.StopTakesAtMostOne` | src/brain_os/message_bus.py:154-172 | after a stop begins and until the next start at most one more message is taken, and only if the loop was already waiting |
| `MessageBus.CleanBusLives` | src/brain_os/message_bus.py:146-172 | a bus with no sentinel queued stays alive while nobody stops it |
| `MessageBus.DeadBusStaysDead` | src/brain_os/message_bus.py:146-152 | a loop that met a stale sentinel logs nothing more, whatever is published or started, until a stop |
| `MessageBus.RestartIsSafeIffNoSentinel` | src/brain_os/message_bus.py:146-172 | no schedule kills a live bus if and only if no sentinel is queued; with one, the loop dies by its own steps |
| `MessageBus.StopCompletesIffNotStuck` | src/brain_os/message_bus.py:154-160 | a suspended stop has a cooperative run in which it completes if and only if the queue has room or the loop will still read it; otherwise no run at all completes it |
| `MessageBus.StuckForever` | src/brain_os/message_bus.py:154-160 | a stuck stop stays stuck in every run |
| `MessageBus.StopDrainsIff` | src/brain_os/message_bus.py:154-172 | the messages queued as a stop begins are all logged when it has completed if and only if there are none, or one, in front, and the loop is waiting |
| `MessageBus.StopLeavesMessageAndSentinel` | src/brain_os/message_bus.py:154-188 | a cooperative run from a new bus in which a stop begins while a handler runs, completes, and leaves a message and its sentinel queued; the restarted bus is alive with the sentinel ahead |
| `MessageBus.StopGetsStuck` | src/brain_os/message_bus.py:154-188 | a cooperative run from a new bus to a stuck stop |
| `MessageBus.LoopCooperates` | src/brain_os/message_bus.py:165-188 | the loop by itself can always go on: a run of its steps alone is cooperative |
| `MessageBus.Bus.AddHandler` | src/brain_os/message_bus.py:74-83 | the step of the machine: the handler is last in its agent's list |
| `MessageBus.Bus.Publish` | src/brain_os/message_bus.py:87-90 | the step of the machine; a full queue makes the publisher wait |
| `MessageBus.Bus.StartLoop` | src/brain_os/message_bus.py:146-152 | the step of the machine; nothing when already running |
| `MessageBus.Bus.BeginStop` | src/brain_os/message_bus.py:154-157 | the step of the machine: the flag falls before the sentinel is queued |
| `MessageBus.Bus.ContinueStop` | src/brain_os/message_bus.py:158-160 | the two awaits of a stop, each when it can go on |
| `MessageBus.Bus.LookAtFlag` | src/brain_os/message_bus.py:166 | the step of the machine: on to the queue, or the end |
| `MessageBus.Bus.TakeNext` | src/brain_os/message_bus.py:167-171 | takes the oldest item; a sentinel ends the loop |
| `MessageBus.Bus.CallNext` | src/brain_os/message_bus.py:180-188 | one handler call, and the next handler after it even when it raises |
| `ContextStore.FetchKeeps` | src/brain_os/context.py:63-77 | `get` succeeds and the store is again the least-recently-used one |
| `ContextStore.RecordKeeps` | src/brain_os/context.py:85-123 | a recorded turn moves its user to the recent end and keeps histories, time order and goals |
| `ContextStore.CallKeeps` | src/brain_os/context.py:63-139 | every call with later clock readings succeeds and keeps the invariant |
| `ContextStore.StoreIsLeastRecentlyUsed` | src/brain_os/context.py:63-123 | over whole runs eviction by smallest time stamp keeps exactly the last `max_users` distinct users touched, and each history is the last `max_history` messages since the user's last insertion |
| `ContextStore.StoreIsWhatWasCalled` | src/brain_os/context.py:63-139 | read off the list of calls alone: the users held are the last `max_users` used; the history of each is the last `max_history` messages of its turns since the call that inserted it; the channel is that of the last turn; the goals are those set and not cleared since, in the order they were set |
| `ContextStore.TruncateBoundsIff` | src/brain_os/context.py:117-118 | the limit bounds every history if and only if it is at least one |
| `ContextStore.FirstGetSucceedsIff` | src/brain_os/context.py:69-75 | the first `get` succeeds if and only if there is room for a user |
| `ContextStore.RecentHistoryIsSuffix` | src/brain_os/context.py:143-155 | for every limit and for a channel or none: the messages returned are the end of the channel's messages, with their exact number |
| `ContextStore.OnChannelInOrder` | src/brain_os/context.py:150-154 | the messages of a channel are chosen one by one, in order |
| `ContextStore.RecentHistoryBoundedIff` | src/brain_os/context.py:155 | the limit bounds what is returned, whatever the history, if and only if it is at least one |
| `ContextStore.GoalsStayDistinct` | src/brain_os/context.py:125-139 | a user has at most one goal of each id, whatever is set or cleared |
| `ContextStore.UnifiedContextManager.OldestKey` | src/brain_os/context.py:71-74 | the key with the smallest time stamp, the first of them in dict order |
| `ContextStore.UnifiedContextManager.GetContext` | src/brain_os/context.py:63-77 | the step of the store; the caller gets the stored object itself |
| `ContextStore.UnifiedContextManager.Record` | src/brain_os/context.py:85-123 | the context is changed in place and no other context changes |
| `ContextStore.UnifiedContextManager.ChangeGoal` | src/brain_os/context.py:125-139 | the goal step of the store, in place |
| `PlanLoop.AppendDistinctIff` | src/brain_os/pipeline_loop.py:664-686 | ids stay distinct if and only if no id given by the LLM was taken when its turn came; ids chosen by the program never clash |
| `PlanLoop.ReplanKeepsAndCorrects` | src/brain_os/pipeline_loop.py:641-693 | all phases that left PENDING survive unchanged and in order as a prefix, then one corrective phase for each failed assertion, then pending ones only; only a completed replan is counted |
| `PlanLoop.CorrectivePhaseIsMapped` | src/brain_os/pipeline_loop.py:646-662 | the k-th corrective phase has the next free id above all survivors and maps to its assertion alone |
| `PlanLoop.ReplanOutcomes` | src/brain_os/pipeline_loop.py:617-693 | a replan is refused, raises or is unchanged exactly when none is left, the plan is empty, or the answer is no JSON, and then leaves the plan as it was |
| `PlanLoop.ReplanAdds` | src/brain_os/pipeline_loop.py:643-686 | every phase that left PENDING is kept at its rank, and every usable entry of the answer becomes a pending phase, in order, with its content and the id it gives, or else one above all ids before it |
| `PlanLoop.SurvivorsAt` | src/brain_os/pipeline_loop.py:644 | the survivors are the phases that have left PENDING, each at its rank |
| `PlanLoop.MaxIdIs` | src/brain_os/pipeline_loop.py:645-664 | the largest id of the phases, and zero for none |
| `PlanLoop.MapCorrectivesAt` | src/brain_os/pipeline_loop.py:662 | each new id maps to exactly one assertion and no other entry changes |
| `PlanLoop.ReplanDistinctIff` | src/brain_os/pipeline_loop.py:645-686 | after a replan ids are distinct if and only if the survivors' were and the LLM took no id |
| `PlanLoop.ReplanStaysDistinct` | src/brain_os/pipeline_loop.py:645-686 | without integer ids from the LLM, distinct ids stay distinct, however the replan ends |
| `PlanLoop.ExclusiveRunIff` | src/brain_os/pipeline_loop.py:361-693 | in any interleaving of executions and replans ids stay distinct and at most one phase runs in every state, if and only if no replan takes an id in use |
| `PlanLoop.ReplanKeepsExclusive` | src/brain_os/pipeline_loop.py:645-686 | one replan keeps that if and only if no id the LLM gives is taken when its turn comes |
| `PlanLoop.BeginKeepsOneCallIff` | src/brain_os/pipeline_loop.py:361-375 | a call leaves at most one call in flight if and only if none is, or the phase it asks for is not running |
| `PlanLoop.OneCallRunIff` | src/brain_os/pipeline_loop.py:361-462 | in every interleaving with replans that take free ids, no state has two calls in flight if and only if each call comes while none is, or asks for a phase that is not running |
| `PlanLoop.ExclusionIffDistinctIds` | src/brain_os/pipeline_loop.py:361-375 | executions exclude each other in all interleavings if and only if no two phases share an id |
| `PlanLoop.TwinsBothRun` | src/brain_os/pipeline_loop.py:361-375 | two phases with one id, begun one after the other, run together |
| `PlanLoop.MeasureDecreases` | src/brain_os/pipeline_loop.py:375-693 | replans left, then pending phases, then calls in flight: every step that gets somewhere lowers this measure, in any interleaving |
| `PlanLoop.NoInfiniteRun` | src/brain_os/pipeline_loop.py:375-693 | there is no infinite run of such steps |
| `PlanLoop.AtMostThreeReplans` | src/brain_os/pipeline_loop.py:617-688 | `revision_count` counts exactly the replans that went through, at most three in any run |
| `PlanLoop.BreaksOffIff` | src/brain_os/pipeline_loop.py:617-693 | a replan breaks off, and so escapes the count, if and only if one is left, the plan has phases, and the answer cannot be iterated or holds a dict whose agents cannot |
| `PlanLoop.RunsAreBoundedIff` | src/brain_os/pipeline_loop.py:617-693 | from an idle plan, runs that get somewhere or break a replan off have bounded length if and only if no replan is left |
| `PlanLoop.BrokenReplansAreUnbounded` | src/brain_os/pipeline_loop.py:639-693 | for every n some run has n replans that break off, each followed by an execution that asks for the next, at an unchanged revision |
| `PlanLoop.ReplanKeepsCompleted` | src/brain_os/pipeline_loop.py:645-693 | a replan, however it ends, leaves the completed phases alone |
| `PlanLoop.AgentLoop.CurrentPhase` | src/brain_os/pipeline_loop.py:167-172 | the first pending phase, if there is one |
| `PlanLoop.AgentLoop.BeginPhase` | src/brain_os/pipeline_loop.py:361-375 | refused exactly when a phase of another id runs, and then nothing changes; else the phase runs |
| `PlanLoop.AgentLoop.FinishPhase` | src/brain_os/pipeline_loop.py:459-462 | the phase needs clarification after that decision, keeps its status after an abort, and is completed after any other; the other phases stay |
| `PlanLoop.AgentLoop.ReplanPhases` | src/brain_os/pipeline_loop.py:606-693 | the whole new plan and outcome, for every LLM answer |
| `PlanLoop.AgentLoop.RunAutonomous` | src/brain_os/pipeline_phases/loop_control.py:25-73 | ends within the phase cap for every sequence of decisions, crashes and replans; the ending is that of the first round that does not go on; how it ends follows from its last turn |
| `JsonRoundTrip.ParsePrintedString` | src/brain_os/pipeline_runtime.py:66-84 | a printed string, escapes and surrogate pairs included, reads back joined, up to its quote and no further |
| `JsonRoundTrip.ParsePrinted` | src/brain_os/pipeline_runtime.py:66-121 | parsing undoes printing for every value without numbers, whatever text follows |
| `JsonRoundTrip.LoadsPrinted` | src/brain_os/pipeline_runtime.py:66-121 | loading a dump gives the value with its strings joined |
| `Json.JoinedIdentityIff` | src/brain_os/pipeline_runtime.py:75-82 | a string comes back as it was if and only if no high surrogate stands right before a low one |
| `Json.ShortEscapes` | src/brain_os/pipeline_runtime.py:75-82 | the two-character escapes, and the characters printed as themselves |
| `Json.LongEscapes` | src/brain_os/pipeline_runtime.py:75-82 | any other code unit is printed as `\u` and its four lower-case digits, a larger code point as its surrogate pair |
| `Json.UnescapeIff` | src/brain_os/pipeline_runtime.py:106-109 | the escapes read back are those and the slash |
| `JsonScalars.HighThenNotLow` | src/brain_os/pipeline_runtime.py:106-109 | the parser never yields a high surrogate and then a low one from text of Unicode scalar values |
| `JsonScalars.LoadsClean` | src/brain_os/pipeline_runtime.py:106-109 | no loaded string has such a pair |
| `DedupEnvelope.DecodeEncode` | src/brain_os/pipeline_runtime.py:66-121 | what comes back, for every entry whatever its strings hold |
| `DedupEnvelope.RoundTripIff` | src/brain_os/pipeline_runtime.py:66-121 | an entry comes back as it went in if and only if none of its strings has such a pair |
| `DedupEnvelope.ScalarEntriesRoundTrip` | src/brain_os/pipeline_runtime.py:66-121 | entries of Unicode scalar values always come back as they went in |
| `DedupEnvelope.EncodeIsLiteral` | src/brain_os/pipeline_runtime.py:75-82 | an entry is stored as an object of four members, by name and in order |
| `DedupEnvelope.ObjectPrinted` | src/brain_os/pipeline_runtime.py:75-82 | an object is printed as its members between braces, comma separated |
| `DedupEnvelope.PrintArray` | src/brain_os/pipeline_runtime.py:75-82 | a list of strings is printed between brackets, comma separated |
| `DedupEnvelope.PrintPlain` | src/brain_os/pipeline_runtime.py:75-82 | text of printable ASCII without quote or backslash is printed between quotes as it is |
| `DedupEnvelope.DecodesToItselfIff` | src/brain_os/pipeline_runtime.py:94-121 | a stored text decodes to itself, with no agents and no run id, if and only if it is no envelope; nothing stored is no hit |
| `DedupEnvelope.OnlyEnvelopesAreOpened` | src/brain_os/pipeline_runtime.py:106-117 | a text decodes to itself if and only if it is not an object whose last `v` is the version and whose last `shaped` is a string |
| `DedupEnvelope.EnvelopeIsRead` | src/brain_os/pipeline_runtime.py:112-121 | what any envelope is read as, whoever wrote it: its response, the agents of a list as strings, and the run id by its truth value |
| `JsonLengths.LoadsShort` | src/brain_os/pipeline_runtime.py:106-109 | every string in a loaded value is shorter than the text it was loaded from |
| `DedupEnvelope.PlainTextDecodesToItself` | src/brain_os/pipeline_runtime.py:103-113 | every non-empty text that does not begin with a brace, blanks aside, decodes to itself |
| `DedupEnvelope.EncodeIsAscii` | src/brain_os/pipeline_runtime.py:66-84 | the envelope is printable ASCII whatever the entry holds |
| `DedupEnvelope.DecodedEntriesAreStable` | src/brain_os/pipeline_runtime.py:66-121 | reading, writing and reading again changes nothing, for envelopes and legacy texts |
| `IncludeGraph.DoneIffChainsFit` | src/brain_os/prompt_loader.py:120-137 | a depth-limited recursion over a graph gets through if and only if every chain is shorter than its fuel and ends in a file that is there |
| `IncludeGraph.ReachableLoopNeverFits` | src/brain_os/prompt_loader.py:120-137 | no fuel gets it through a reachable cycle |
| `PromptLoader.ExpandPromptIncludes` | src/brain_os/prompt_loader.py:120-137 | the loop and recursion compute the fuelled specification, errors included |
| `Composition.ExpandIsTree` | src/brain_os/prompt_loader.py:107-137 | expansion returns exactly the text of the include tree, when it is no deeper than the limit: each marker line gives way to the text its file expands to, taken from `_includes` before `prompts`, and the other lines are as they were |
| `Composition.TreeIsUnique` | src/brain_os/prompt_loader.py:107-137 | files and lines determine the include tree |
| `Composition.NothingIsLost` | src/brain_os/prompt_loader.py:129-137 | blanks aside, the result is the lines of all files that are no markers, in document order |
| `Composition.MarkerIff` | src/brain_os/prompt_loader.py:41 | the lines taken for markers, and their names, are exactly those of the pattern |
| `Composition.ErrorIsReal` | src/brain_os/prompt_loader.py:107-127 | a missing file that is reported ends a chain of includes, and a depth error has a chain as long as the limit whose files are all there |
| `PromptLoader.ExpandSucceedsIff` | src/brain_os/prompt_loader.py:107-137 | expansion succeeds if and only if no include chain is longer than 6 and every file on one is there |
| `PromptLoader.ReachableCycleFails` | src/brain_os/prompt_loader.py:126-127 | a reachable cycle makes it fail |
| `PromptLoader.LimitDoesNotMatter` | src/brain_os/prompt_loader.py:120-137 | a successful expansion is the unbounded one |
| `PromptLoader.ExpandIsIdempotent` | src/brain_os/prompt_loader.py:40-41 | a successful expansion leaves no whole-line marker, and expanding it again with any files returns it unchanged |
| `PromptLoader.SoulPreamble` | src/brain_os/prompt_loader.py:54-89 | the flag-driven loop yields exactly the matching sections, heading to next heading, in document order |
| `PromptLoader.SectionsAreKept` | src/brain_os/prompt_loader.py:63-84 | the sections together are exactly the lines whose heading opens a section, in order |
| `PromptLoader.SectionsBegin` | src/brain_os/prompt_loader.py:63-84 | each section begins with such a heading and has no other |
| `PromptLoader.TitleMatchesIff` | src/brain_os/prompt_loader.py:45-58 | which headings open a section |
| `Lines.SplitAtBreak` | src/brain_os/prompt_loader.py:63 | a line ends at the first break, and a carriage return with its newline is one break |
| `Lines.ContainsIff` | src/brain_os/prompt_loader.py:58 | the search finds a word wherever it stands |
| `DualWrite.StepKeeps` | src/brain_os/brain/correction_store_backend.py:246-286 | every insert, mark and shadow write, taken or lost, keeps the shadow a replica |
| `DualWrite.ShadowIsReplica` | src/brain_os/brain/correction_store_backend.py:237-289 | in every interleaving and under every Postgres failure the shadow's ids are among SQLite's with the same fields, and processed there means processed in SQLite |
| `DualWrite.NothingReturnsToPending` | src/brain_os/brain/correction_store_backend.py:129-135 | on neither side does a row go away, change or return to pending |
| `DualWrite.SqliteHoldsInserts` | src/brain_os/brain/correction_store_backend.py:246-286 | read off the steps alone: SQLite holds the row of every insert, in order, with its fields and time, processed if and only if it was marked since |
| `DualWrite.RowStays` | src/brain_os/brain/correction_store_backend.py:129-135 | a row that is there changes by its own marks only |
| `DualWrite.NoLossIsComplete` | src/brain_os/brain/correction_store_backend.py:246-286 | when Postgres took every shadow write and none is left, in any interleaving, it has every row of SQLite |
| `DualWrite.MarkIsSafeIff` | src/brain_os/brain/correction_store_backend.py:281-286 | after a mark every continuation keeps each shadow row backed by a SQLite row if and only if SQLite had the row as the call was made |
| `DualWrite.OvertakenMark` | src/brain_os/brain/correction_store_backend.py:246-286 | the continuation that breaks it otherwise: the insert overtakes, and both shadow writes are taken |
| `DualWrite.SequentialCallsMirror` | src/brain_os/brain/correction_store_backend.py:246-286 | after sequential calls whose shadow writes went through, both sides hold the same rows in the same order, with increasing times |
| `DualWrite.OnlyOrdering` | src/brain_os/brain/correction_store_backend.py:118-127 | rows with increasing times have one ordering by time |
| `DualWrite.ReadsAgree` | src/brain_os/brain/cursor_session_store.py:178-352 | then pending, entity and recent reads agree in content and order whichever side serves them, with any limit |
| `DualWrite.DualWriteStore.AddRow` | src/brain_os/brain/cursor_session_store.py:301-346 | SQLite's outcome counts and the shadow follows unless Postgres fails; a duplicate id writes nothing |
| `DualWrite.DualWriteStore.Process` | src/brain_os/brain/correction_store_backend.py:281-286 | the mark on both sides, or on SQLite alone when Postgres fails; an awaited mark keeps the replica for every id |
| `Router.AccumulateScores` | src/brain_os/brain/deterministic_router.py:508-520 | each matched intent once, with the sum of its matching weights, in the order of first matches |
| `Router.FirstBestIsFirst` | src/brain_os/brain/deterministic_router.py:530-532 | nothing is better than the first argmax and everything before it is worse |
| `Router.RankIsSorted` | src/brain_os/brain/deterministic_router.py:539-543 | the ranking is a descending permutation of the table |
| `Router.RankIsStable` | src/brain_os/brain/deterministic_router.py:542 | equal scores keep their order |
| `Router.WinnersAgree` | src/brain_os/brain/deterministic_router.py:522-559 | the classifier answers if and only if the board says matched, and then with the board's top intent and a margin of at least zero |
| `Router.TiedMarginIsZero` | src/brain_os/brain/deterministic_router.py:544-549 | a tie at the top has margin zero |
| `Router.RoutedIsStrictBest` | src/brain_os/brain/deterministic_router.py:571-588 | with a positive minimum margin, through the rounding to four digits, a routed intent is strictly the best |
| `Router.RoutedIff` | src/brain_os/brain/deterministic_router.py:522-588 | what is routed is exactly the first of the best intents, if its score reaches the threshold and, where a margin is demanded, its rounded lead over every other entry reaches that |
| `Router.LargeLeadIsRouted` | src/brain_os/brain/deterministic_router.py:571-588 | a confident intent that leads by half a ten-thousandth more than demanded is routed |
| `Router.RoundNearest` | src/brain_os/brain/deterministic_router.py:556 | the margin is rounded to the nearest ten-thousandth, halves to even |
| `Router.RouteIgnoresTableOrder` | src/brain_os/brain/deterministic_router.py:571-588 | the route then does not depend on the order of the table |
| `Router.OrderMattersIff` | src/brain_os/brain/deterministic_router.py:571-588 | the route is the same for all orders if and only if a margin is demanded, nothing is confident, or the best is strict |
| `Router.RouteIgnoresPatternOrder` | src/brain_os/brain/deterministic_router.py:508-588 | with a positive minimum margin, patterns listed in another order never route a query differently |
| `Gather.ParallelismIsBounded` | src/brain_os/pantheon.py:336-346 | in every schedule at most `max_parallel` agents run at once, or one when that is less than one |
| `Gather.ParallelismIsReached` | src/brain_os/pantheon.py:336-346 | with enough agents some schedule runs that many |
| `Gather.GatherEnds` | src/brain_os/pantheon.py:345-396 | no schedule gets stuck, and one is complete exactly after two steps for each agent |
| `Gather.CollectResponses` | src/brain_os/pantheon.py:345-403 | each answered name once with its last answer; for distinct names exactly the expected map in request order, where an agent that answered stands with its own answer, one that was not found, timed out or failed with its notice, and one without a result not at all |
| `Gather.EveryNameOnce` | src/brain_os/pantheon.py:345-403 | when every agent has an answer, the expected map has one entry for each requested name, in request order, with that agent's answer, timeout or error text |
| `Gather.NamesInOrder` | src/brain_os/pantheon.py:397-403 | the names of the map are the agents with a result, in request order |
| `Gather.ScheduleDoesNotMatter` | src/brain_os/pantheon.py:393-403 | two complete schedules with the same fates leave the same results, whatever their order and parallelism |
| `Gather.TaskRoom.Enter` | src/brain_os/pantheon.py:346 | a task enters exactly when there is a permit |
| `Gather.TaskRoom.Leave` | src/brain_os/pantheon.py:346-391 | a task that ends, however it ends, gives its permit back |
| `Stability.ComputeScore` | src/brain_os/agents/metis.py:148-170 | the score is the sum of what each question is worth, cut at 100 |
| `Stability.ScoreRange` | src/brain_os/agents/metis.py:148-170 | for any counts with a non-negative part for the agents the score lies in [10, 100], and with no more successes than agents it is 100 exactly when everything is right |
| `Stability.ScoreInRangeIff` | src/brain_os/agents/metis.py:156-170 | for any counts, the score lies in [10, 100] whatever else the response is like if and only if no agents are counted or thirty times the successes exceed minus their number |
| `Stability.ScoreParts` | src/brain_os/agents/metis.py:148-170 | what each answer is worth: 20 for sources, 10 for no warnings, 15 and 30 for length, the share of 30 for agents, and 10 in any case |
| `Stability.EventKeeps` | src/brain_os/agents/metis.py:208-261 | tracking, confirming and rejecting keep the meaning of window and counter |
| `Stability.MonitorMeaning` | src/brain_os/agents/metis.py:208-222 | over whole runs the window is the last 20 scores, the counter the longest suffix of tracked calls since the last reject whose window averaged at least 75, and stability is announced exactly when unconfirmed and that suffix has ten |
| `Stability.GoodCallAverages` | src/brain_os/agents/metis.py:211-216 | a tracked call is good if and only if the last 20 scores up to it average at least 75 |
| `Stability.LongestIsUnique` | src/brain_os/agents/metis.py:213-217 | that length is determined by the history |
| `Stability.HistoryIsTracked` | src/brain_os/agents/metis.py:208-248 | the history is the tracked scores in order, and the flag is set exactly by a confirmation |
| `Stability.RejectedWhenTold` | src/brain_os/agents/metis.py:250-261 | the counter starts over at the last reject |
| `Stability.Metis.Observe` | src/brain_os/agents/metis.py:208-222 | the tracking step on the state in place, and what it announces |
| `Stability.Metis.ConfirmStable` | src/brain_os/agents/metis.py:243-248 | the flag is set and nothing else changes |
| `Stability.Metis.RejectStable` | src/brain_os/agents/metis.py:250-261 | the counter falls to zero and the round limit rises by a fifth, rounded down, or by one when that is more |

## Left out

- EmbeddingService.EmbedTexts: HTTP retries are part of the API's answer. `Honest` asks only that the relation `gives`, which says whose vector is whose, admits what the API answers; one that admits everything makes it no demand.
- EmbeddingService.RedisReads: the awaits of one `gather` are taken in index order, because reads change nothing; several models sharing Redis under different keys, time to live and JSON errors are losses and failures of the schedule.
- EmbeddingService.WriteBack: duplicates of one text in a call are written in order, because the threads' real order is open.
- Opportunistic pruning after writes and its module counter, and adding the `last_accessed` column.
- EmbeddingTable.Prune: rows are keyed by hash with two time stamps and no payload, and no other writer runs during a prune; integers stand for ISO time texts.
- Redis stream persistence of bus messages, deprecation warnings, `send`, statistics, and `task_done`.
- MessageBus.StepKeeps: one start or stop at a time and one dispatch loop, because overlapping ones are not promised, so `Bus.StartLoop` and `Bus.BeginStop` ask that no stop is in flight; a handler raises ordinary exceptions only, not cancellation.
- UnifiedContextManager: `save` of a context made elsewhere, metadata and `all_users`.
- Phase objects are values with a unique number standing for identity; an execution of a phase dropped by a replan still ends its call.
- ReplanPhases: one replan at a time, because two overlapping ones would both pass the guard.
- AgentLoop.RunAutonomous: plans without an active standing goal, because what continues such a plan are phases its judge injects, which are not modelled.
- Standing goals and continuation phases, retry counts, validators, hand-offs, plan parsing and compilation.
- Encode: entries are text; the fallbacks for values JSON cannot print, for non-text stored values, for nesting beyond Python's stack and for integers too long to read are not modelled. `str` of numbers, lists and objects is a parameter.
- ExpandPromptIncludes: files are maps read as they are; caches of prompts and of SOUL.md are left out.
- Statistics, initialisation, closing and full-text search of the stores; id allocation by SQLite and `uuid`, so ids are inputs; rows with equal times may come in any order.
- Router.AccumulateScores: without the learned nudges, whose module is not part of this model; what is proved of tables holds of every table, nudged or not.
- Regular expressions (a pattern matches or not), the routing table and `all_scores`; scores are exact reals.
- Gather: journal entries, the mechanics of `wait_for`, and which waiting task gets a permit first.
- Metis: report probability, rounding of the reported average, file access, and the text markers that give a score its inputs; averages and thresholds are exact.
- LLM calls, agents, tools, settings, migrations and the command line: wrappers around services this project cannot see.
