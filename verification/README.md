# Pali: verification model of the memory core

This project models the stateful core of Pali's memory engine in Dafny and proves what its parts promise each other. It
covers the post-process job queue and its workers, the parser path of single jobs and of batches, entity facts and the
invalidation of superseded values, the record of what is indexed, the query-embedding cache, rank fusion, ranking and
reranking, the telemetry rings, the fixture generator's resequencer, turn texts, and the group rank metrics of the research
script.

Code that changes objects or loops over local state is modelled by classes and methods with loops, each proved against a
specification function; what the source promises is then proved of those functions, for all inputs and over all runs.
Repositories are modelled after their SQLite statements. Regular expressions, keyword rules, hashes, embedders and clocks
are parameters. Floating-point numbers are `real`, integers are unbounded.

| files | what they hold |
|---|---|
| `Text`, `Optional`, `Sums` | trimming, searching and ordering strings; absent values; sums over lists |
| `Backoff`, `PostprocessQueue`, `PostprocessRuns`, `PostprocessDrain` | worker options and delays, the job table, every interleaving of workers, and how runs end |
| `EntityFacts` | the entity-fact table and `storeEntityFacts` |
| `ParsedFacts`, `ParserExtract`, `ParserBatch`, `StoreBatch` | lookups, the parser-extract job, the batched parser store, and the split of a batch into its two paths |
| `IndexState` | stores, deletes and vector jobs over both stores and the index table |
| `MruList`, `RecentKeys`, `QueryCache`, `EmbedQueries` | the most-recently-used list, which keys stand at its front, the cache that refines it, and the batch embed through it |
| `Scoring`, `RankFusion`, `Ranking`, `Reranking` | averages, reciprocal rank fusion, scores, and the windowed reranks |
| `TelemetryRings`, `TenantWrites`, `Telemetry` | what the rings and counters stand for, and the service |
| `FixtureText`, `Resequencer` | the fixture file's text, and the loop that writes results in order |
| `TurnText`, `TurnRoundTrips` | printing and parsing turns, and which prints are read back |
| `RankMetrics` | nDCG, recall and MRR over groups |

## Where the code does not do what one would expect

Each of these is a lemma here: the input that shows it, and the exact condition under which the expected property holds.

- A job whose mark is lost, or whose worker stops, stays `running` for good, because a claim takes only queued and failed
  jobs (`PostprocessDrain.JobMayBeLost`, `StrandedForGood`); workers that start on a table with running jobs find them all in
  that state (`RestartStrands`). A run leaves such a job if and only if there was one before or it lost one
  (`StrandedIffLost`), and where no worker can go on the queue has drained if and only if neither is so (`QueueDrainsIff`).
- Storing an entity fact does not reopen a closed row, so a value that a later call brings back from the same memory leaves
  its slot with no active value, on either path (`EntityFacts.ReturningValueStaysClosed`; exactly what is active:
  `BatchKeepsAgreedValue`, `OneByOneLeavesIff`, `LastStoredValueWins`).
- A call that breaks off between a write and its invalidation leaves two active values of a singleton relation
  (`EntityFacts.BrokenCallLeavesTwo`; exactly when not: `BrokenBatchKeepsSingletonIff`, `BrokenStepKeepsSingletonIff`); the
  next completed call that mentions the slot mends it (`CompletedCallMakesSingletons`).
- The text by which facts are deduplicated joins their fields with `|`, so fields that hold a bar can collide
  (`EntityFacts.BarsCanCollide`; exactly when no fact is lost: `UniqueLosesNothingIff`, so without bars none is:
  `UniqueLosesNothing`).
- A parser job that fails after its entity facts are stored can, when retried, store one more memory, because its own facts
  may have closed the row an earlier fact was matched by (`ParserExtract.LateRetryMayAddMemory`; exactly when not:
  `LateRetryEqualsCleanRunIff`, and over a job's whole history `LateRetriesEqualCleanRunIff`). Up to that point retries equal
  one clean run (`RetriesEqualOneCleanRun`).
- A parser job enqueues vector jobs only for the memories that the attempt that gets through created, so those of an attempt
  that broke off never get one (`ParserExtract.CreatedMayLackItsJob`; exactly when all do: `EveryCreatedIsEnqueuedIff`).
- A delete writes an index row of its own, so a deleted memory's upsert row still says indexed
  (`IndexState.StaleIndexedRow`; exactly when such a row tells the truth: `IndexedMeansPresentIff`).
- A delete that gets through the memory store but not the vector store leaves a vector without its memory
  (`IndexState.OrphanArises`; exactly when: `OrphansAreLeftIff`), which no later call removes (`OrphanStays`).
- On temporal, person and multi-hop queries a total of exactly zero is taken for one. So on temporal and multi-hop queries
  the least recent, least relevant and least important memory of a batch scores like the best
  (`Ranking.LeastScoresLikeTheBest`, `OldestBeatsMiddle`; exactly when a total is zero: `TotalIsZeroIff`, and when stronger
  evidence still scores higher: `StrongerScoresHigherIff`, `StrongerRoutesHigherIff`).
- The match algorithm mixes phrase coverage into the overlap only when there is some, so a memory that holds half of the
  query's phrase can score lower than the same memory without it (`Ranking.PhraseMatchMayDilute`; exactly when:
  `PhraseMatchLowersScoreIff`; exactly when stronger evidence is safe for all weights: `StrongerMatchesHigherIff`).
- The penalty's guard for a high fused score asks for 0.75, and no fused score is above 2/3, so no fused result is spared by
  it (`Ranking.FusedResultsMissTheGuard`); only lookups by entity facts meet it, which pass a score of 1
  (`LookupsMeetTheGuard`), and the other bounds spare every score from 0.65 on just as well (`SparedIff`).
- A printed turn whose time holds the marker the parser tries first is read back as another turn
  (`TurnRoundTrips.TimeMayHoldAMarker`; exactly when the three prints are read back, as conditions on speaker, time and
  utterance: `SaidReadsBackIff`, `AtReadsBackIff`, `ParensFormReadsBackIff`).
- After a failed generation the fixture command exits before its deferred close, so the array in the file stays open
  (`Resequencer.RunGenfix`, which says exactly when it is completed).
- Telemetry takes a remainder with the sign of its dividend for an index, and so panics for most minutes before 1970
  (`Telemetry.Service.RecordRequestMinute`, `RequestsPerMinute`, which say exactly when).

## Model

| member | source | states |
|---|---|---|
| Backoff.Normalize | internal/core/memory/postprocess_worker.go:39-68 | every set of worker options becomes usable, and one that already is stays as it was |
| Backoff.RetryDelay | internal/core/memory/postprocess_worker.go:401-419 | for usable options the doubling loop returns exactly min(max, base * 2^(attempt-1)) |
| Backoff.DelaysGrowWithinBounds | internal/core/memory/postprocess_worker.go:401-419 | over attempts the delays never decrease and stay within [base, max] |
| Backoff.DelaysDouble | internal/core/memory/postprocess_worker.go:401-419 | the first delay is the base, and each later one twice the one before it, up to the maximum |
| PostprocessQueue.JobTable.ClaimPostprocessJobs | internal/repository/sqlite/memory_jobs.go:241-318 | at most the limit, each job once, only queued or failed available jobs without a live lease, none that is left behind earlier in availability and creation; they become running under the lease, nothing else changes, and fewer than the limit means nothing claimable is left |
| PostprocessQueue.JobTable.MarkPostprocessJobSucceeded | internal/repository/sqlite/memory_jobs.go:320-341 | the job becomes succeeded and loses its lease, and a missing job is reported |
| PostprocessQueue.JobTable.MarkPostprocessJobFailed | internal/repository/sqlite/memory_jobs.go:343-390 | the job takes the given status, attempts and time; another status, negative attempts or a missing job change nothing and are reported |
| PostprocessQueue.JobTable.EnqueuePostprocessJobs | internal/repository/sqlite/memory_jobs.go:179-239 | all requests or none: a blank tenant or memory id or an unsupported type refuses the batch, otherwise each request inserts or resets its row |
| PostprocessQueue.EnqueuedRows | internal/repository/sqlite/memory_jobs.go:504-557 | after an enqueue exactly the requested rows are new or reset to queued with no attempts, and all others are as they were |
| PostprocessQueue.LastRequestDecides | internal/repository/sqlite/memory_jobs.go:504-557 | of several requests for a job the last decides its row: queued, available now, no attempts, no lease, created when it first was, with the maximum asked for, else the default, else five |
| PostprocessQueue.JobTable.ProcessPostprocessJob | internal/core/memory/postprocess_worker.go:147-184 | after an execution that ended well the row is succeeded without a lease, its attempts as they were; after one that erred it has one attempt more and no lease, and is dead-lettered now if that reaches the maximum, else failed and available after min(max, base doubled for each earlier attempt) |
| PostprocessRuns.StepKeepsInv | internal/core/memory/postprocess_worker.go:104-200 | every event of every worker keeps: no job held twice, held jobs are running, attempts below the maximum except for dead letters, which are at it |
| PostprocessRuns.SpawnedTable | internal/core/memory/postprocess_worker.go:310-331 | the jobs a parser job enqueues are new vector jobs, and leave every job there was as it was |
| PostprocessRuns.IngestedTable | internal/repository/sqlite/memory_jobs.go:80-176 | an ingest of new memories brings new queued jobs without attempts, and leaves every job there was as it was |
| PostprocessRuns.EachGetsItsJob | internal/core/memory/postprocess_worker.go:310-331 | each memory a parser job hands on has its vector job afterwards, in the tenant of the parser job, and each request of an ingest its own job |
| PostprocessDrain.EveryRunKeepsInv | internal/core/memory/postprocess_worker.go:104-332 | in every interleaving of any number of workers, from any state that meets the invariant and with jobs ingested at any time, attempts never pass the effective maximum and a job is dead-lettered exactly when they reach it |
| PostprocessDrain.EveryStepDescends | internal/core/memory/postprocess_worker.go:104-332 | every event of a worker lowers, lexicographically, what parser jobs have left and what the others have left |
| PostprocessDrain.EveryRunStops | internal/core/memory/postprocess_worker.go:104-145 | no schedule keeps the workers busy for ever once nothing new is ingested |
| PostprocessDrain.StrandedForGood | internal/core/memory/postprocess_worker.go:147-184 | a running job nobody holds is never claimed again, nor changed |
| PostprocessDrain.MarksStrandNothing | internal/core/memory/postprocess_worker.go:147-184 | only a lost mark or a stopped worker strands a job |
| PostprocessDrain.AbandonStrands | internal/core/memory/postprocess_worker.go:147-184 | and either always does |
| PostprocessDrain.StrandedByAbandonedIff | internal/core/memory/postprocess_worker.go:147-184 | a job is stranded by exactly the event that abandons it |
| PostprocessDrain.RestartStrands | internal/core/memory/postprocess_worker.go:70-102 | to workers that start on a table every job it marks running is stranded, and no other, and the invariant holds |
| PostprocessDrain.JobMayBeLost | internal/core/memory/postprocess_worker.go:104-184 | a run of two events that loses a job |
| PostprocessDrain.StrandedIffLost | internal/core/memory/postprocess_worker.go:147-184 | a run leaves a stranded job if and only if there was one before it, or a mark was lost or a worker stopped at a job in it |
| PostprocessDrain.StuckMeansDone | internal/core/memory/postprocess_worker.go:104-145 | while some job is neither settled nor stranded, some worker can go on |
| PostprocessDrain.QueueDrainsIff | internal/core/memory/postprocess_worker.go:104-332 | where no worker can go on, every job is succeeded or dead-lettered if and only if none was stranded before the run and none lost in it |
| PostprocessDrain.ExecutionsBounded | internal/core/memory/postprocess_worker.go:147-184 | every job, whenever it came in, is executed at most as often as it has attempts left, executions whose mark was lost included, however the workers interleave; while it is unsettled its row counts all but the one that stranded it |
| PostprocessDrain.SucceededIff | internal/core/memory/postprocess_worker.go:147-184 | over every run a job has succeeded if and only if it had before or one execution of it in the run ended well with its mark; it gains one attempt for each that erred, and is a dead letter exactly at its maximum |
| PostprocessDrain.RetryWaits | internal/core/memory/postprocess_worker.go:162-184 | a job that erred at a time is not claimed again before that time plus the base doubled once for each earlier attempt, or the maximum, whatever happens in between |
| EntityFacts.EntityTable.Store | internal/repository/sqlite/entity_facts.go:24-49 | a fact the table holds leaves it as it is, closed or not; any other comes first, active |
| EntityFacts.EntityTable.InvalidateEntityRelation | internal/repository/sqlite/entity_facts.go:195-222 | closes every active row of the same tenant, entity and relation with another value, and nothing else |
| EntityFacts.EntityTable.StoreEntityFacts | internal/core/memory/entity_facts.go:448-482 | issues exactly the calls of its path, in order, up to the first that fails |
| EntityFacts.EntityTable.InvalidateSuperseded | internal/core/memory/entity_facts.go:510-545 | issues one invalidation for each singleton fact, in order, up to the first that fails |
| EntityFacts.Deduplicate | internal/core/memory/entity_facts.go:448-470 | keeps exactly the first fact for every deduplication text, in order |
| EntityFacts.UniqueKeepsFirsts | internal/core/memory/entity_facts.go:448-470 | the kept facts are the first ones with their texts, in the order of the list, and every text in the list has one |
| EntityFacts.BatchKeepsAgreedValue | internal/core/memory/entity_facts.go:448-545 | on the batch path a value of a singleton slot ends active exactly when it was active, or a fact new to the table brings it in, and all the batch's facts of the slot agree on it |
| EntityFacts.OneByOneLeavesIff | internal/core/memory/entity_facts.go:448-545 | one by one a value of a singleton slot ends active exactly when nothing of the slot comes after another value and the value was active before or a fact new to table and list brought it |
| EntityFacts.LastStoredValueWins | internal/core/memory/entity_facts.go:448-545 | so the value of the last fact of a slot is the only active one if the fact was new or its value had stayed active through the facts before it, and otherwise nothing is |
| EntityFacts.ReturningValueStaysClosed | internal/repository/sqlite/queries.go:110-134 | three completed calls on either path, Paris, Rome and Paris again from the same memory, leave no active place |
| EntityFacts.CompletedCallKeepsSingletons | internal/core/memory/entity_facts.go:448-545 | every completed call keeps at most one active value in a singleton slot |
| EntityFacts.CompletedCallMakesSingletons | internal/core/memory/entity_facts.go:448-545 | and leaves at most one in every such slot it mentions, whatever the table held |
| EntityFacts.BrokenBatchLeavesIff | internal/core/memory/entity_facts.go:472-545 | the values a batch call leaves active, wherever it broke off after its write: those written or active before that no invalidation it got through closed |
| EntityFacts.BrokenBatchKeepsSingletonIff | internal/core/memory/entity_facts.go:472-545 | such a call leaves a slot at most one value if and only if an invalidation of the slot got through or the write left no two values in it |
| EntityFacts.BrokenStepLeavesIff | internal/core/memory/entity_facts.go:472-545 | the values a one-by-one call leaves active, wherever it broke off: those that survive the finished facts, and a new fact's that was written only |
| EntityFacts.BrokenStepKeepsSingletonIff | internal/core/memory/entity_facts.go:472-545 | such a call keeps a slot to one value if and only if it did not stop between the write of a new fact of the slot and its invalidation, or no other value had survived the facts before that one |
| EntityFacts.BrokenCallLeavesTwo | internal/core/memory/entity_facts.go:472-545 | an input where two values stay active, on either path |
| EntityFacts.OtherRelationsStayOpen | internal/core/memory/entity_facts.go:501-545 | however many calls get through, no row of another relation is closed or changed |
| EntityFacts.OtherSlotsUntouched | internal/core/memory/entity_facts.go:448-545 | however many calls get through, no row of a tenant, entity and relation that no fact of the call names comes, goes or closes |
| EntityFacts.CompletedCallRecords | internal/core/memory/entity_facts.go:472-545 | a completed call leaves a row for exactly the facts that had one before and those it was given |
| EntityFacts.UniqueLosesNothingIff | internal/core/memory/entity_facts.go:448-470 | deduplication loses no fact if and only if no two different facts of the list share a text |
| EntityFacts.UniqueLosesNothing | internal/core/memory/entity_facts.go:448-470 | so it loses none as long as no field holds a bar |
| EntityFacts.BarsCanCollide | internal/core/memory/entity_facts.go:448-470 | with bars two different facts can share a text, and the second is dropped |
| ParsedFacts.FindByKey | internal/core/memory/store.go:947-959 | finds a memory of the tenant with the key exactly when there is one, and a blank key finds nothing |
| ParsedFacts.LatestHit | internal/core/memory/entity_facts.go:384-446 | finds a stored memory exactly when a listed row counts as a hit, and one that no other hit was updated after |
| ParsedFacts.ListIsTheNewest | internal/repository/sqlite/entity_facts.go:97-150 | a listing is the newest rows of its tenant, entity and relation in order, as many as the limit: each stands behind exactly the newer ones |
| ParsedFacts.FoundByTuple | internal/core/memory/entity_facts.go:384-446 | the tuple lookup finds nothing exactly without an entity repository, a whole tuple, or a stored memory of the tenant that one of the sixteen newest rows, an active one when asked for, gives that value; else one of these no other was updated after |
| ParserExtract.Repository.ApplyParsedFact | internal/core/memory/postprocess_worker.go:334-399 | a fact without an informative text is dropped, one whose key or tuple finds a memory is matched with it, and any other is stored as one new memory with its normalised text, key and tenant; only the last changes the store |
| ParserExtract.Repository.ExtractFacts | internal/core/memory/postprocess_worker.go:257-332 | the vector jobs to enqueue are exactly the memories this execution created, each once, in order |
| ParserExtract.EveryFactIsFound | internal/core/memory/postprocess_worker.go:334-399 | after a clean run every fact with an informative text has a memory of its tenant under its key, or one its tuple finds |
| ParserExtract.AddedAreFacts | internal/core/memory/postprocess_worker.go:334-399 | and every memory the run adds is a fact of its turn, with its normalised text, its own key and its tenant, while the others stay as they were |
| ParserExtract.HandedOverIff | internal/core/memory/postprocess_worker.go:271-324 | the entity facts it hands over are one complete record of each storable fact with a complete triple, bound to a stored memory and its tenant, and no other |
| ParserExtract.RerunRejoins | internal/core/memory/postprocess_worker.go:257-399 | an execution that broke off and a second one leave, memory for memory and id for id, what the longer of the two leaves alone |
| ParserExtract.RetriesEqualOneCleanRun | internal/core/memory/postprocess_worker.go:257-399 | however often and wherever the job broke off among its facts, it ends with the memories of one clean run |
| ParserExtract.RunAddsNothingIff | internal/core/memory/postprocess_worker.go:334-399 | a run adds nothing exactly when every storable fact is found beforehand |
| ParserExtract.LateRetryEqualsCleanRunIff | internal/core/memory/postprocess_worker.go:257-399 | after a failure past the facts a retry ends with the clean run's memories exactly when each fact that was matched by its tuple alone is still found |
| ParserExtract.LateRetriesEqualCleanRunIff | internal/core/memory/postprocess_worker.go:257-399 | after any attempts that broke off, one that got through the facts and any number of later ones over any entity tables, the memories are the clean run's exactly when each later attempt still finds every storable fact it gets to |
| ParserExtract.OpenSlotsRetryCleanly | internal/core/memory/postprocess_worker.go:257-399 | over the table the turn's own entity facts leave, however many calls got through, a retry is clean if each of its slots is of no singleton relation and fits into one listing |
| ParserExtract.EveryCreatedIsEnqueuedIff | internal/core/memory/postprocess_worker.go:271-330 | every memory the attempts created has its vector job if and only if no attempt that broke off had created any |
| ParserExtract.CreatedMayLackItsJob | internal/core/memory/postprocess_worker.go:271-330 | an input where a memory is left without one |
| ParserExtract.LateRetryMayAddMemory | internal/core/memory/postprocess_worker.go:257-399 | an input where it is not, because the turn's own facts closed the matched row |
| ParserExtract.AttemptsKeepOnePerKey | internal/core/memory/postprocess_worker.go:334-399 | no sequence of executions of any jobs makes a second memory for a canonical key of a tenant |
| ParserBatch.CollectTexts | internal/core/memory/store_batch_parser.go:125-146 | the texts to embed: every needed non-empty text exactly once, and no other |
| ParserBatch.EmbedTexts | internal/core/memory/store_batch_parser.go:165-171 | each unique text maps to its own embedding |
| ParserBatch.FindPendingByCanonicalKey | internal/core/memory/store_batch_parser.go:493-511 | the last staged write of the tenant with the key that is not dropped, or none |
| ParserBatch.FindPendingByRelationTuple | internal/core/memory/store_batch_parser.go:513-531 | the last staged write of the tenant with the tuple that is not dropped, or none |
| ParserBatch.ResolveParserPendingIndex | internal/core/memory/store_batch_parser.go:533-544 | following replacements that do not circle ends at a write that is not dropped, or at none; a write that is not dropped resolves to itself |
| ParserBatch.ApplyParsedFactWithPending | internal/core/memory/store_batch_parser.go:420-491 | a fact is dropped, found staged or stored, or staged; with its text embedded it cannot fail |
| ParserBatch.StagingIsSound | internal/core/memory/store_batch_parser.go:173-295 | every input is answered exactly once in its place, every staged write carries its own text's vector, and staged facts of a tenant have different canonical keys and relation tuples, none of them stored before |
| ParserBatch.StoreBatchWithParser | internal/core/memory/store_batch_parser.go:125-394 | with non-empty embeddings the missing-embedding and failed-resolution exits are never met, each input's slot gets what staging refers it to, and it succeeds exactly when no call errs; an error up to the scoring leaves the store as it was, one while inserting leaves that many, one from the vectors on the whole batch |
| ParserBatch.EveryInputIsAnswered | internal/core/memory/store_batch_parser.go:205-391 | each answer is a stored memory: the input's raw turn, or one that stands for its first storable fact |
| ParserBatch.EveryFactIsThere | internal/core/memory/store_batch_parser.go:205-283 | whether raw turns are stored or not, every storable fact of every parsed turn ends up in the store: under its key, under its tuple, or as the fact of the batch with the same tuple |
| ParserBatch.RawTurnIsStoredIff | internal/core/memory/store_batch_parser.go:205-283 | a turn is stored raw if and only if its parse failed, raw turns are stored, or none of its facts is storable |
| ParserBatch.StagedFactIs | internal/core/memory/store_batch_parser.go:420-491 | a fact the batch stores has its normalised text, its own key, its turn's tenant and the vector of its own text |
| ParserBatch.StoredFactKeysAreUnique | internal/core/memory/store_batch_parser.go:420-531 | after the batch no fact memory it stored shares its key with another fact memory of the tenant |
| StoreBatch.PrepareStoreInputs | internal/core/memory/store.go:103-131 | the batch is prepared exactly when every input has a tenant that exists and content, and each input keeps its place |
| StoreBatch.RankFindsInput | internal/core/memory/store.go:59-101 | every input stands in its own path at the place its rank says |
| StoreBatch.SelectedIndices | internal/core/memory/store.go:59-101 | every item of a path is the input its index says, so no two write the same slot |
| StoreBatch.SelectIsPath | internal/core/memory/store.go:59-101 | a path holds, in the order of the inputs, exactly the raw turns when the parser is on, and the other exactly the rest, each with its tenant trimmed and its kind resolved |
| StoreBatch.Scatter | internal/core/memory/store.go:59-101 | scattering a path's results fills exactly the slots of its inputs and leaves the others |
| StoreBatch.StoreAll | internal/core/memory/store.go:59-101 | one result for each input, in its slot, from its own path: the parser's for a raw turn when the parser is on; one bad input, or either path failing, refuses the batch |
| IndexState.Stores.MarkIndexState | internal/repository/sqlite/memory_jobs.go:17-78 | sets the state of the given ids for one operation, or changes nothing when it fails |
| IndexState.Stores.UpsertStoredEmbeddings | internal/core/memory/store.go:1033-1084 | vectors are written in one batch or one by one, and the ids marked as far as that got |
| IndexState.Stores.DeleteMemory | internal/core/memory/delete.go:12-62 | removes the memory, then its vector, marking as it goes, and reports what failed, with or without effect |
| IndexState.Stores.HandleVectorUpsertJob | internal/core/memory/postprocess_worker.go:202-255 | a missing memory is skipped; a job whose embedding and write work reports success and marks indexed what it wrote, any other failure is reported and marked failed |
| IndexState.UpsertStoredFacts | internal/core/memory/store.go:1033-1084 | only ids whose vectors were written are marked indexed, and with working marks none is left pending |
| IndexState.JobIndexesIff | internal/core/memory/postprocess_worker.go:202-255 | with a last mark that works the row of a memory that is there is indexed if and only if it was embedded and its vector written, and failed otherwise |
| IndexState.StoreIndexesIff | internal/core/memory/store.go:1033-1084 | with working marks each id of a Store is indexed exactly when its own write worked, in a batch the whole call and one by one every write up to it, and failed otherwise; its vector is there exactly when that write took effect |
| IndexState.StoreLeavesOthers | internal/core/memory/store.go:1033-1084 | a Store leaves the memory, the vector and the row of every other id alone |
| IndexState.EveryRunKeepsInv | internal/core/memory/delete.go:12-62 | in every run, whatever fails, a memory that is there and recorded as indexed has its vector, and a tombstoned one is in neither store |
| IndexState.GoneForGood | internal/core/memory/delete.go:12-62 | an id gone from both stores stays gone whatever is called |
| IndexState.TombstonedForGood | internal/core/memory/delete.go:12-62 | once tombstoned, an id is in neither store at the end of every run |
| IndexState.NothingLeftPending | internal/core/memory/store.go:1033-1084 | a call that reaches its last mark leaves none of its ids pending, and a delete is tombstoned exactly when it reports success |
| IndexState.DeleteFacts | internal/core/memory/delete.go:12-62 | a delete touches its own id only, each store exactly when it went through there, and is tombstoned only after both |
| IndexState.IndexedMeansPresentIff | internal/repository/sqlite/queries.go:158-171 | in every run, for an id whose upsert row says indexed the vector is present exactly when no delete of it went through in both stores |
| IndexState.StaleIndexedRow | internal/repository/sqlite/queries.go:158-171 | a store and a delete without any failure leave the upsert row indexed and the vector gone |
| IndexState.OrphanArises | internal/core/memory/delete.go:12-62 | a smooth store and a delete whose vector call fails leave the vector without its memory |
| IndexState.OrphansAreLeftIff | internal/core/memory/delete.go:12-62 | at the end of every run an id has a vector and no memory if and only if some delete took the memory and left the vector |
| IndexState.OrphanStays | internal/core/memory/delete.go:12-62 | a vector that outlived its memory is removed by no later call, and deleting it again fails |
| MruList.EveryRunIsMostRecent | internal/core/memory/query_embedding_cache.go:34-85 | after any sequence of calls the list holds exactly the most recently hit or set keys that fit, newest first, with the values last set, so the victim is the least recently used |
| MruList.SetIsFirst | internal/core/memory/query_embedding_cache.go:53-85 | with a capacity a non-blank key set to a non-empty value is found with it, first in the list; anything else leaves the list as it was |
| RecentKeys.UseJoinsFront | internal/core/memory/query_embedding_cache.go:34-85 | while no more different keys are used than fit, the keys used since some point stand together at the front of the list |
| QueryCache.Cache.Get | internal/core/memory/query_embedding_cache.go:34-51 | a hit returns a fresh copy of the listed value and moves its key to the front, nothing else changing; a miss changes nothing; the cache is the list after the call |
| QueryCache.Cache.Set | internal/core/memory/query_embedding_cache.go:53-85 | with a capacity, a non-blank key and a non-empty vector a copy stands first and the last entries go that no longer fit, any other call changes nothing; the cache is the list after the call, list and map hold the same entries, and the caller's array is not kept |
| QueryCache.CloneEmbedding | internal/core/memory/query_embedding_cache.go:114-121 | a fresh array with the same contents |
| QueryCache.LinkedWithoutLast | internal/core/memory/query_embedding_cache.go:74-84 | taking the last entry off list and map leaves them one for one |
| QueryCache.LinkedMoved | internal/core/memory/query_embedding_cache.go:42-46 | moving an entry to the front leaves list and map one for one, and the other entries in order |
| EmbedQueries.EmbedContents | internal/core/memory/store.go:961-992 | succeeds exactly when every text can be embedded, with one fresh vector for each, in order |
| EmbedQueries.EmbedSearchQueries | internal/core/memory/search_setup.go:18-48 | any mix of hits and misses gives each query its own embedding in order and shares no array with the cache; it succeeds exactly when every missed key can be embedded; every cached value stays its key's embedding, with room for the different keys every query is a hit afterwards, and the cache ends as after looking up every query and then storing the missed ones, in order |
| EmbedQueries.LookUp | internal/core/memory/search_setup.go:22-32 | every slot is filled by a hit or listed as a miss with its query, and the misses are exactly the keys not found when their turn came |
| EmbedQueries.FillIn | internal/core/memory/search_setup.go:43-46 | each missed query gets a copy of its vector in its own slot, and the cache stores the vectors in that order |
| EmbedQueries.EveryQueryHits | internal/core/memory/search_setup.go:18-48 | after a successful call on a cache with room for the different keys of its queries every query with a non-blank key is a hit |
| Scoring.WeightedAverage | internal/core/memory/search_ranking_utils.go:13-31 | the loop computes the mean of the clamped values whose weight is above zero |
| Scoring.AverageIsBetween | internal/core/memory/search_ranking_utils.go:13-31 | for all weights, negative ones too, the average is in [0,1] and within any bounds on the values that count, and zero when none does |
| Scoring.AverageGrows | internal/core/memory/search_ranking_utils.go:13-31 | for all weights raising values never lowers the average |
| Scoring.OneMoreValue | internal/core/memory/search_ranking_utils.go:13-31 | a value more adds its weight to the total and its weighted, clamped value to the sum if its weight is above zero, and nothing otherwise |
| Scoring.RankFallsEvenly | internal/core/memory/search_ranking_utils.go:366-375 | a rank's normalised value falls evenly from one at the first to zero at the limit |
| Scoring.MinMax | internal/core/scoring/normalizer.go:5-15 | every value is normalised into [0,1], even for an empty range |
| RankFusion.RankIsFirst | internal/core/memory/search_ranking_utils.go:288-305 | an id's rank is the place of its first occurrence, and zero when it has none |
| RankFusion.TopIsGreatest | internal/core/memory/search_ranking_utils.go:288-305 | its score is the greatest over all its occurrences |
| RankFusion.BestDense | internal/core/memory/search_ranking_utils.go:287-306 | exactly the non-blank ids of the list, each with its first rank and best score |
| RankFusion.BestLexical | internal/core/memory/search_ranking_utils.go:315-333 | the same for the lexical list, with clamped scores |
| RankFusion.FuseCandidatesByRRF | internal/core/memory/search_ranking_utils.go:272-364 | the first min(limit, number of ids) of all non-blank ids in strict order of score and id, none left out that goes before one kept, with exactly their signals |
| RankFusion.FusionIsUnique | internal/core/memory/search_ranking_utils.go:307-364 | the result is the same for every order in which the maps hand out their keys |
| RankFusion.FusionHolds | internal/core/memory/search_ranking_utils.go:272-364 | at most the limit asked for, or ten for none; only non-blank ids of the lists, and all of them unless it is full; each with its own two ranks and clamped best scores |
| RankFusion.DominatorComesFirst | internal/core/memory/search_ranking_utils.go:272-364 | an id ranked at least as well in both lists and better in one is kept whenever the other is, and comes before it |
| RankFusion.BothAgainstOneIff | internal/core/memory/search_ranking_utils.go:272-364 | an id of both lists, x and y counted from sixty, comes before an id of one, z so counted, exactly when (x + y)z > xy, or equals it and its id is less |
| RankFusion.NormalizedScoreRange | internal/core/memory/search_ranking_utils.go:377-383 | the normalised score is in (0, 2/3], 2/3 exactly for rank 1 in both lists, and at most 1/2 for an id of one list |
| RankFusion.NormalizedScoreIs | internal/core/memory/search_ranking_utils.go:377-383 | it is f / (f + 1/61) for f the sum of 1 / (60 + rank) over the lists that hold the id |
| RankFusion.SortIdsSorts | internal/core/memory/search_ranking_utils.go:342-349 | the order is total, so the ids come out strictly sorted, each once |
| Ranking.RangesBound | internal/core/memory/search_ranking_scoring.go:230-314 | the recorded extremes bound every memory's values |
| Ranking.RangesAttained | internal/core/memory/search_ranking_scoring.go:230-304 | and each extreme is some memory's value, or where it started |
| Ranking.RelevanceIs | internal/core/memory/search_ranking_scoring.go:182-207 | raw relevance in numbers: seven clamped values with weights that add up to one, of which 0.58 are left when the dense list does not hold the memory |
| Ranking.RankMemories | internal/core/memory/search_ranking_scoring.go:209-373 | one score for each memory, in order, from its own evidence and the batch's extremes |
| Ranking.ScoreMemory | internal/core/memory/search_ranking_scoring.go:316-371 | the branches of both algorithms compute the specified score |
| Ranking.DefaultScoreIs | internal/core/memory/search_ranking_scoring.go:338-393 | the default score in numbers, from the mean of the batch-normalised values: the boost and the cuts to a quarter and to 0.45 on single-hop queries, without the guard at 0.75, and the routing of temporal, person and multi-hop ones |
| Ranking.MatchScoreIs | internal/core/memory/search_ranking_scoring.go:316-337 | the match score in numbers: five values, a matched phrase's coverage taking a fifth of the overlap, the route counting from 0.8 to 1.35 |
| Ranking.ScoreIsInUnit | internal/core/memory/search_ranking_scoring.go:316-371 | for all weights and profiles the score is in [0,1] |
| Ranking.StrongerTotalsHigher | internal/core/memory/search_ranking_scoring.go:338-364 | before routing, evidence at least as strong in every respect never totals less, for all weights |
| Ranking.PrecisionBoostGrows | internal/core/memory/search_ranking_scoring.go:439-490 | the precision boost grows with total, overlap, phrase coverage and multiplier |
| Ranking.PenaltyGrows | internal/core/memory/search_ranking_scoring.go:379-393 | the low-evidence penalty is monotone in total, relevance, overlap and fused score |
| Ranking.StrongerScoresHigherIff | internal/core/memory/search_ranking_scoring.go:338-371 | stronger evidence scores at least as high if and only if the profile does not route, or the weaker total is above zero, or the stronger reaches what the weaker is given |
| Ranking.TotalIsZeroIff | internal/core/memory/search_ranking_scoring.go:338-364 | a total is zero exactly for a memory that is the least of its batch in everything the weights count and, on other than temporal and multi-hop queries, shares no words with the query, or there for one whose kind multiplier is not positive |
| Ranking.StrongerRoutesHigherIff | internal/core/memory/search_ranking_scoring.go:338-371 | so on temporal and multi-hop queries it scores at least as high if and only if the weaker memory is not at the bottom of its batch, or both are, or the stronger reaches what the weaker is given |
| Ranking.LeastScoresLikeTheBest | internal/core/memory/search_ranking_scoring.go:365-370 | the least recent, relevant and important memory scores at least as high as any memory routed no better |
| Ranking.OldestBeatsMiddle | internal/core/memory/search_ranking_scoring.go:365-370 | three memories where the oldest scores 1 and the middle one 1/2 |
| Ranking.OverlapGrowsIff | internal/core/memory/search_ranking_scoring.go:323-328 | with stronger evidence the match overlap grows unless a phrase is found for the first time and its coverage is below the overlap by more than four times the overlap's gain |
| Ranking.StrongerMatchesHigherIff | internal/core/memory/search_ranking_scoring.go:323-337 | the match algorithm never scores stronger evidence lower, whatever the weights, if and only if that is not so |
| Ranking.PhraseMatchLowersScoreIff | internal/core/memory/search_ranking_scoring.go:323-337 | for two memories alike but for the shared words the score falls if and only if the overlap has a weight and the phrase dilutes it; with equal overlap, if and only if the coverage is below it |
| Ranking.PhraseMatchMayDilute | internal/core/memory/search_ranking_scoring.go:323-337 | a batch of two where the memory with half of the phrase scores 0.9 and the other 1 |
| Ranking.FusedResultsMissTheGuard | internal/core/memory/search_ranking_scoring.go:379-393 | no fused result meets the 0.75 guard, and a weak one of a single list always falls to a quarter |
| Ranking.SparedIff | internal/core/memory/search_ranking_scoring.go:379-393 | a fused score is spared whatever the rest if and only if it is at least 0.65 |
| Ranking.LookupsMeetTheGuard | internal/core/memory/search_entity.go:94-102 | memories looked up by entity facts meet the guard and keep their boosted total, however weak |
| Reranking.PairwiseWindow | internal/core/memory/search_ranking_scoring.go:17-26 | the exact window, a legal slice bound for all options and every topK, and never short of the topK results |
| Reranking.EarlyRankRerankWindow | internal/core/memory/search_ranking_scoring.go:539-564 | the exact window: the base or four times topK, topK more on temporal and multi-hop queries, twice topK or eight more below the confidence threshold, within its maximum, two and the list |
| Reranking.NormalizedTuning | internal/core/memory/service.go:407-450 | the early windows become positive and ordered |
| Reranking.RerankScoredCandidates | internal/core/memory/search_ranking_scoring.go:11-46 | the head is blended with the signal and sorted by score and id, the tail is as it was; disabled or short lists are returned as they are |
| Reranking.ApplyEarlyRankRerank | internal/core/memory/search_ranking_scoring.go:517-537 | the same for the early rerank and its window |
| Reranking.RerankKeeps | internal/core/memory/search_ranking_scoring.go:39-46 | a rerank keeps the multiset of memories and every score in [0,1] |
| Reranking.SortByScoreSorts | internal/core/memory/search_ranking_utils.go:392-404 | sorting by score, with or without breaking ties by id, keeps the multiset and orders every pair |
| Reranking.RankAndRerank | internal/core/memory/search.go:387-404 | three stages, whatever the weights and options: every memory with its batch score, in order of score; the pairwise rerank of that if it is enabled, applies and there are two; the early rerank of that in its exact window if it applies and there are two; the list holds the same memories, every score in [0,1] |
| TelemetryRings.ReportIsExactIff | internal/telemetry/service.go:339-362 | the ring never reports too much, and is exact if and only if nothing else took the minute's slot after it |
| TelemetryRings.WindowIsExact | internal/telemetry/service.go:339-362 | with every record less than a window older than the newest before it, every minute of the window is exact even out of order |
| TelemetryRings.RecentSlot | internal/telemetry/service.go:364-380 | the slot read for the i-th newest event is the one it was put in |
| TenantWrites.TenantWritesSumUp | internal/telemetry/service.go:201-277 | per-tenant writes sum to the successful single stores and batch items that name a tenant |
| TenantWrites.OneMoreEntry | internal/telemetry/service.go:226-277 | an entry of a batch adds its items to its trimmed tenant and to the total if it has both, and nothing otherwise |
| TenantWrites.OnlyTenantIsIt | internal/telemetry/service.go:226-277 | the tenant a batch is named by is that of the one entry that counts, and blank when none or several do |
| Telemetry.Service.constructor | internal/telemetry/service.go:137-152 | a new service has empty rings of the given or default sizes and no counts |
| Telemetry.Service.RecordRequestMinute | internal/telemetry/service.go:426-443 | the ring goes on standing for the history of minutes, extended by one; it panics exactly for a minute before 1970 that is no multiple of the window |
| Telemetry.Service.RequestsPerMinute | internal/telemetry/service.go:339-362 | one count for each of the last minutes, none too high, and all exact within the window; it panics exactly when a window of more than one minute reaches back before 1970 |
| Telemetry.Service.AppendEvent | internal/telemetry/service.go:473-488 | the event ring goes on standing for the newest events of the history, extended by one |
| Telemetry.Service.RecentEvents | internal/telemetry/service.go:364-380 | exactly the most recent min(limit, capacity, total) events, newest first |
| Telemetry.Service.RecordRequest | internal/telemetry/service.go:171-198 | a tracked path adds one minute and one event, another path nothing, and a panic comes before either |
| Telemetry.Service.RecordStore | internal/telemetry/service.go:201-223 | a status from 200 to 399 counts once, and once for the trimmed tenant, no other does, and every store is an event |
| Telemetry.Service.RecordBatchStore | internal/telemetry/service.go:226-277 | a batch with a status from 200 to 399 counts once and credits each tenant its items, and the event names the tenant when exactly one entry counts |
| Telemetry.Service.RecordSearch | internal/telemetry/service.go:280-302 | a status from 200 to 399 counts once, and once for the trimmed tenant, and no other does |
| FixtureText.ClosedIsArray | cmd/genfix/main.go:375-417 | opening, writing items and closing print the array of the items, one a line |
| FixtureText.BodyIs | cmd/genfix/main.go:375-417 | the array print in full: each item indented on its own line, a comma after all but the last, the bracket on a line of its own |
| FixtureText.PrintReadsBack | cmd/genfix/main.go:375-417 | the printed array reads back as its items |
| Resequencer.FixtureWriter.Write | cmd/genfix/main.go:378-399 | one more item, or on a failed write a beginning of it, and nothing after closing |
| Resequencer.FixtureWriter.Close | cmd/genfix/main.go:401-417 | completes the array once, exactly when the file takes the writes for it, and succeeds exactly when the file closes too; closing again does nothing |
| Resequencer.GenerateAndWriteFixtures | cmd/genfix/main.go:157-220 | for results in any order, exactly the items before the least failed index are written, in order, if and only if the file takes the writes for them; it succeeds if and only if nothing failed, and the incomplete exit is never met |
| Resequencer.NextWritten | cmd/genfix/main.go:195-209 | writing the next pending item keeps written, pending and counted items in step with the results seen |
| Resequencer.Received | cmd/genfix/main.go:186-194 | taking a result, failed or not, keeps them in step |
| Resequencer.NothingMore | cmd/genfix/main.go:195-219 | when all has arrived and the next item is not pending, it is the least failed index or the count |
| Resequencer.LeadIs | cmd/genfix/main.go:186-219 | the items written are the results' own, each in the place of its index, up to the least index that failed |
| Resequencer.TalliesSum | cmd/genfix/main.go:203 | the category counts sum to the number of items written |
| Resequencer.RunGenfix | cmd/genfix/main.go:120-137 | the file is the array print of all items exactly when nothing failed and it took every write, a beginning of one item more after a failed write, and after a failed generation the open print of the items before it |
| TurnRoundTrips.SaidReadsBackIff | internal/core/memory/structured_observations.go:185-222 | "S said at T: U" is read back as S, T and U if and only if S does not hold or run into the marker and U has no colon |
| TurnRoundTrips.SaidInAtIff | internal/core/memory/structured_observations.go:185-222 | in "S at T: U" the parser for " said at " finds a turn if and only if S ends in " said", or the text before the first marker in T passes for a speaker |
| TurnRoundTrips.AtReadsBackIff | internal/core/memory/structured_observations.go:185-222 | so it is read back if and only if neither holds, S does not hold or run into " at " and U has no colon |
| TurnRoundTrips.MarkerInParensIff | internal/core/memory/structured_observations.go:202-222 | in "S (T): U" a marker's branch finds a turn if and only if the marker lies in S and the space after it and U does not end with a colon |
| TurnRoundTrips.ParensFormReadsBackIff | internal/core/memory/structured_observations.go:185-245 | so it is read back if and only if no " at " lies there, or U ends with a colon, and T has no "):" |
| TurnText.OtherMarker | internal/core/memory/structured_observations.go:202-222 | a branch whose marker does not stand right after the speaker never returns that speaker |
| TurnText.MarkerReadsBackIff | internal/core/memory/structured_observations.go:202-222 | a marker branch recovers its own print exactly when the marker is found at the speaker's end and U has no colon |
| TurnText.ParensReadBackIff | internal/core/memory/structured_observations.go:224-245 | the parenthesis branch recovers its own print exactly when " (" is found at the speaker's end and T has no "):" |
| TurnText.PrintsAre | internal/core/memory/structured_observations.go:41-88 | the three prints of a turn in full |
| TurnText.MarkerFindsIff | internal/core/memory/structured_observations.go:202-222 | a marker branch returns a turn if and only if the first marker follows a speaker and the last colon of the trimmed rest parts a time from an utterance, and then it is these three |
| TurnText.ParensFindIff | internal/core/memory/structured_observations.go:224-245 | the parenthesis branch returns a turn if and only if the first " (" follows a speaker and the first "):" beyond it parts a time from an utterance |
| TurnText.ParseTriesInOrder | internal/core/memory/structured_observations.go:185-200 | the branches are tried in this order on the trimmed text, the first that finds a turn answers, and where none does the tag reader answers for the text as it came |
| TurnText.SpeakersAre | internal/core/memory/structured_observations.go:13 | speakers have one to eighty-one characters, the first a letter |
| TurnRoundTrips.TimeIsMisread | internal/core/memory/structured_observations.go:185-200 | two turns print the same text, and a time that holds " said at " is read as part of the speaker |
| TurnRoundTrips.TimeMayHoldAMarker | internal/core/memory/structured_observations.go:185-200 | an input for it |
| RankMetrics.ComputeGroupRankMetrics | research/eval_locomo_f1_bleu.py:3266-3294 | for every list, groups and k of at least 1: nDCG is the gain of the positions that first meet a group over the ideal gain, in [0,1], and 1 exactly when the first min(groups, k) positions each meet a new group; recall in [0,1]; MRR positive exactly on a hit and one over the first hit |
| RankMetrics.Match | research/eval_locomo_f1_bleu.py:3271-3282 | the nested loops find exactly the groups met and the positions that met a new one |
| RankMetrics.DcgBinary | research/eval_locomo_f1_bleu.py:3236-3241 | the loop sums the gains of the relevant positions |
| RankMetrics.DcgAtMost | research/eval_locomo_f1_bleu.py:3236-3241 | t relevant positions gain at most the ideal for t, and that only when they come first |
| RankMetrics.OneMoreGains | research/eval_locomo_f1_bleu.py:3236-3241 | one relevant position more adds exactly its own gain |
| RankMetrics.EarlierHitWins | research/eval_locomo_f1_bleu.py:3236-3294 | of two lists alike but for one hit, the one with the earlier hit has the greater nDCG |
| RankMetrics.MetGrows | research/eval_locomo_f1_bleu.py:3271-3282 | each relevant position meets at least one group more, and there are no more than all |
| RankMetrics.MetMeans | research/eval_locomo_f1_bleu.py:3271-3282 | a group is met exactly when one of its ids is among those returned |
| RankMetrics.CountsIff | research/eval_locomo_f1_bleu.py:3271-3282 | a position counts exactly when it is the first to hold an id of some group |
| RankMetrics.HitsGrow | research/eval_locomo_f1_bleu.py:3266-3287 | hits, and so recall, never fall as k grows |

## Left out

- The Neo4j, Qdrant and pgvector backends; the vector store is a set of ids whose calls may fail with or without effect.
- HTTP handlers, MCP, dashboard, tokens, configuration, wiring, prompts, logging and progress output.
- Regular expressions, keyword rules, token scores, hashes and normalisers: they are function parameters, and so are the
  decayed recency, the route boost, the kind multiplier and the rerank signals.
- Floating-point rounding, and 64-bit overflow of window and time arithmetic.
- Surrogate job ids, ingest ids, last-error texts and the listing of jobs; a job is known by its unique columns.
- The raw-turn metadata a parser job writes on its own memory, and tags, tiers, answer metadata and importance of memories.
- Changes of update times: the time by which a tuple's hits are ordered is a function of the memory's id.
- The sequential fallback of the batched parser store, and the entity facts it collects on the way.
- ParserBatch.StoreBatchWithParser: states the path past the fallbacks, where every text has a non-empty embedding and canonical keys are not blank.
- Equality of the batched and the sequential parser store, which look tuples up differently.
- Index states of batches over several tenants, and of a delete that overlaps a worker.
- Locks: each method of the cache and of the telemetry service is one atomic step.
- The ranking of tenants in the telemetry snapshot.
- TurnRoundTrips.SaidReadsBackIff: leaves the reader of tagged turns, which the parser tries last, as a parameter, and so speaks of texts it does not turn into the same turn.
- JSON marshalling of fixtures and the calls that generate them; an item is its marshalled text.
- Resequencer.RunGenfix: starts with the file opened and its first bracket written.
