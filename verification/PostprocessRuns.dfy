/** Every interleaving of any number of post-process workers and of new ingests over one job table. */
module PostprocessRuns {
  import opened Backoff
  import opened PostprocessQueue
  import opened Sums

  /** held[w] is what is left of the batch worker w claimed; known is every memory id ever handed out. */
  datatype Queue = Queue(jobs: Table, held: seq<seq<Claim>>, known: set<string>)

  datatype Event =
    | Claimed(w: nat, keys: seq<JobKey>, now: int, until: int)
    | Spawned(w: nat, memories: seq<string>, now: int)   // a parser job enqueues vector jobs for memories it created
    | Finished(w: nat, ok: bool, now: int)               // a job was executed and its mark took effect
    | Abandoned(w: nat)                                  // the mark failed, or the worker was stopped
    | Ingested(requests: seq<Request>, now: int)         // memories were stored together with their jobs

  predicate Enabled(q: Queue, e: Event, o: WorkerOptions) {
    && (!e.Ingested? ==> e.w < |q.held|)
    && match e
       case Claimed(w, keys, now, until) =>
         && q.held[w] == [] && 0 < |keys| <= o.batchSize && now < until && Distinct(keys)
         && forall k | k in keys :: k in q.jobs && Claimable(q.jobs[k], now)
       case Spawned(w, memories, now) =>
         && q.held[w] != [] && q.held[w][0].key.jobType == ParserExtract && !q.held[w][0].enqueued
         && memories != [] && Distinct(memories) && forall m | m in memories :: m !in q.known
       case Finished(w, ok, now) =>
         // enqueueing is the last step of a parser job, and an unsupported type always errs
         && q.held[w] != [] && (q.held[w][0].enqueued ==> ok) && (q.held[w][0].key.jobType == Unsupported ==> !ok)
       case Abandoned(w) => q.held[w] != []
       case Ingested(requests, now) => forall r | r in requests :: r.key.memory !in q.known && Enqueueable(r)
  }

  function Requests(tenant: string, memories: seq<string>, most: int): (rs: seq<Request>)
    ensures |rs| == |memories|
    ensures forall i | 0 <= i < |rs| :: rs[i].key == JobKey(tenant, memories[i], VectorUpsert)
  {
    seq(|memories|, i requires 0 <= i < |memories| => Request(JobKey(tenant, memories[i], VectorUpsert), most))
  }

  function Take(t: Table, keys: seq<JobKey>): (cs: seq<Claim>)
    requires forall k | k in keys :: k in t
    ensures |cs| == |keys|
    ensures forall i | 0 <= i < |cs| :: cs[i] == Claim(keys[i], t[keys[i]], false)
  {
    seq(|keys|, i requires 0 <= i < |keys| => Claim(keys[i], t[keys[i]], false))
  }

  function Apply(q: Queue, e: Event, o: WorkerOptions): Queue {
    if !Enabled(q, e, o) then q
    else match e
      case Claimed(w, keys, now, until) =>
        var jobs := ClaimAll(q.jobs, keys, Leased(w, until));
        q.(jobs := jobs, held := q.held[w := Take(jobs, keys)])
      case Spawned(w, memories, now) =>
        var head := q.held[w][0];
        Queue(EnqueueAll(q.jobs, Requests(head.key.tenant, memories, o.maxAttempts), o.maxAttempts, now),
              q.held[w := [head.(enqueued := true)] + q.held[w][1..]],
              q.known + set m | m in memories)
      case Finished(w, ok, now) =>
        q.(jobs := Finish(q.jobs, q.held[w][0].key, q.held[w][0].seen, ok, now, o), held := q.held[w := q.held[w][1..]])
      case Abandoned(w) =>
        q.(held := q.held[w := q.held[w][1..]])
      case Ingested(requests, now) =>
        q.(jobs := EnqueueAll(q.jobs, requests, o.maxAttempts, now), known := q.known + set r | r in requests :: r.key.memory)
  }

  // ----- the invariant

  predicate Settled(j: Job) {
    j.status == Succeeded || j.status == DeadLetter
  }

  ghost predicate AttemptsInv(q: Queue, o: WorkerOptions) {
    forall k | k in q.jobs ::
      && 0 <= q.jobs[k].attempts <= EffectiveMax(q.jobs[k], o)
      && (q.jobs[k].status == DeadLetter <==> q.jobs[k].attempts == EffectiveMax(q.jobs[k], o))
  }

  ghost predicate HeldInv(q: Queue) {
    forall w, i | 0 <= w < |q.held| && 0 <= i < |q.held[w]| ::
      && q.held[w][i].key in q.jobs
      && q.jobs[q.held[w][i].key].status == Running
      && q.held[w][i].seen.attempts == q.jobs[q.held[w][i].key].attempts
      && q.held[w][i].seen.maxAttempts == q.jobs[q.held[w][i].key].maxAttempts
      && (q.held[w][i].enqueued ==> q.held[w][i].key.jobType == ParserExtract)
  }

  /** No job is in two workers' hands, nor twice in one worker's. */
  ghost predicate Exclusive(q: Queue) {
    forall w, i, v, j | 0 <= w < |q.held| && 0 <= i < |q.held[w]| && 0 <= v < |q.held| && 0 <= j < |q.held[v]| ::
      q.held[w][i].key == q.held[v][j].key ==> w == v && i == j
  }

  ghost predicate KnownInv(q: Queue) {
    forall k | k in q.jobs :: k.memory in q.known
  }

  ghost predicate Inv(q: Queue, o: WorkerOptions) {
    AttemptsInv(q, o) && HeldInv(q) && Exclusive(q) && KnownInv(q)
  }

  /** A table before any worker started: nothing running, attempts below the maximum except for dead letters. */
  ghost predicate Initial(q: Queue, o: WorkerOptions) {
    && AttemptsInv(q, o) && KnownInv(q)
    && (forall w | 0 <= w < |q.held| :: q.held[w] == [])
    && (forall k | k in q.jobs :: q.jobs[k].status != Running)
  }

  lemma SpawnedTable(q: Queue, e: Event, o: WorkerOptions)
    requires Usable(o) && KnownInv(q) && e.Spawned? && Enabled(q, e, o)
    ensures forall k | k in q.jobs :: k in Apply(q, e, o).jobs && Apply(q, e, o).jobs[k] == q.jobs[k]
    ensures forall k | k in Apply(q, e, o).jobs && k !in q.jobs ::
              && k.jobType == VectorUpsert && k.memory in e.memories
              && Apply(q, e, o).jobs[k].status == Queued && Apply(q, e, o).jobs[k].attempts == 0
              && Apply(q, e, o).jobs[k].maxAttempts > 0
  {
    var rs := Requests(q.held[e.w][0].key.tenant, e.memories, o.maxAttempts);
    EnqueuedRows(q.jobs, rs, o.maxAttempts, e.now);
  }

  /** Each memory the parser job hands on gets its vector job, of the parser job's tenant, and each request of an ingest its own. */
  lemma EachGetsItsJob(q: Queue, e: Event, o: WorkerOptions)
    requires Enabled(q, e, o)
    ensures e.Spawned? ==> forall m | m in e.memories :: JobKey(q.held[e.w][0].key.tenant, m, VectorUpsert) in Apply(q, e, o).jobs
    ensures e.Ingested? ==> forall r | r in e.requests :: r.key in Apply(q, e, o).jobs
  {
    if e.Spawned? {
      var rs := Requests(q.held[e.w][0].key.tenant, e.memories, o.maxAttempts);
      EnqueuedRows(q.jobs, rs, o.maxAttempts, e.now);
      forall m | m in e.memories
        ensures JobKey(q.held[e.w][0].key.tenant, m, VectorUpsert) in Apply(q, e, o).jobs
      {
        var i :| 0 <= i < |e.memories| && e.memories[i] == m;
        assert rs[i].key == JobKey(q.held[e.w][0].key.tenant, m, VectorUpsert);
      }
    } else if e.Ingested? {
      EnqueuedRows(q.jobs, e.requests, o.maxAttempts, e.now);
      forall r | r in e.requests
        ensures r.key in Apply(q, e, o).jobs
      {
        var i :| 0 <= i < |e.requests| && e.requests[i] == r;
      }
    }
  }

  /** New memories bring new jobs, all queued, and leave the ones there were alone. */
  lemma IngestedTable(q: Queue, e: Event, o: WorkerOptions)
    requires KnownInv(q) && e.Ingested? && Enabled(q, e, o)
    ensures forall k | k in q.jobs :: k in Apply(q, e, o).jobs && Apply(q, e, o).jobs[k] == q.jobs[k]
    ensures forall k | k in Apply(q, e, o).jobs && k !in q.jobs ::
              k.memory in Apply(q, e, o).known && IsFresh(Apply(q, e, o).jobs[k])
  {
    EnqueuedRows(q.jobs, e.requests, o.maxAttempts, e.now);
    forall i | 0 <= i < |e.requests|
      ensures e.requests[i].key !in q.jobs && e.requests[i].key.memory in Apply(q, e, o).known
    {
      assert e.requests[i] in e.requests;
    }
  }

  lemma IngestKeepsInv(q: Queue, e: Event, o: WorkerOptions)
    requires Usable(o) && Inv(q, o) && e.Ingested? && Enabled(q, e, o)
    ensures Inv(Apply(q, e, o), o)
  {
    IngestedTable(q, e, o);
  }

  /** Where entry i of worker v's batch was before the step, when the step drops w's head. */
  function Back(v: nat, w: nat, i: nat): nat {
    if v == w then i + 1 else i
  }

  lemma ClaimKeepsInv(q: Queue, e: Event, o: WorkerOptions)
    requires Usable(o) && Inv(q, o) && e.Claimed? && Enabled(q, e, o)
    ensures Inv(Apply(q, e, o), o)
  {
    var r := Apply(q, e, o);
    var w := e.w;
    DistinctPlaces(e.keys);
    forall v, i | 0 <= v < |r.held| && 0 <= i < |r.held[v]|
      ensures v != w ==> r.held[v][i] == q.held[v][i] && r.held[v][i].key !in e.keys
    {
    }
    assert AttemptsInv(r, o);
    assert HeldInv(r);
    assert Exclusive(r);
  }

  lemma SpawnKeepsInv(q: Queue, e: Event, o: WorkerOptions)
    requires Usable(o) && Inv(q, o) && e.Spawned? && Enabled(q, e, o)
    ensures Inv(Apply(q, e, o), o)
  {
    var r := Apply(q, e, o);
    SpawnedTable(q, e, o);
    assert AttemptsInv(r, o);
    forall v, i | 0 <= v < |r.held| && 0 <= i < |r.held[v]|
      ensures |r.held[v]| == |q.held[v]| && r.held[v][i].key == q.held[v][i].key && r.held[v][i].seen == q.held[v][i].seen
      ensures r.held[v][i].enqueued ==> r.held[v][i].key.jobType == ParserExtract
    {
    }
    assert HeldInv(r);
    assert Exclusive(r);
  }

  lemma DropKeepsHeld(q: Queue, w: nat, r: Queue)
    requires HeldInv(q) && Exclusive(q) && w < |q.held| && q.held[w] != []
    requires r.held == q.held[w := q.held[w][1..]]
    requires forall k | k in q.jobs && k != q.held[w][0].key :: k in r.jobs && r.jobs[k] == q.jobs[k]
    ensures HeldInv(r) && Exclusive(r)
  {
    forall v, i | 0 <= v < |r.held| && 0 <= i < |r.held[v]|
      ensures r.held[v][i] == q.held[v][Back(v, w, i)] && r.held[v][i].key != q.held[w][0].key
    {
      assert r.held[v][i] == q.held[v][Back(v, w, i)];
    }
    forall v, i, u, j | 0 <= v < |r.held| && 0 <= i < |r.held[v]| && 0 <= u < |r.held| && 0 <= j < |r.held[u]|
                        && r.held[v][i].key == r.held[u][j].key
      ensures v == u && i == j
    {
      assert q.held[v][Back(v, w, i)].key == q.held[u][Back(u, w, j)].key;
    }
  }

  /** The invariant is kept by every event of every worker, and by every ingest. */
  lemma StepKeepsInv(q: Queue, e: Event, o: WorkerOptions)
    requires Usable(o) && Inv(q, o)
    ensures Inv(Apply(q, e, o), o)
  {
    if Enabled(q, e, o) {
      match e
      case Claimed(w, keys, now, until) => ClaimKeepsInv(q, e, o);
      case Spawned(w, memories, now) => SpawnKeepsInv(q, e, o);
      case Finished(w, ok, now) =>
        assert q.held[w][0].key in q.jobs;
        DropKeepsHeld(q, w, Apply(q, e, o));
      case Abandoned(w) =>
        DropKeepsHeld(q, w, Apply(q, e, o));
      case Ingested(_, _) => IngestKeepsInv(q, e, o);
    }
  }
}
