/** What every run of the post-process workers comes to: it stops, and what it leaves behind. */
module PostprocessDrain {
  import opened Backoff
  import opened PostprocessQueue
  import opened PostprocessRuns
  import opened Sums

  // ----- runs

  /** The state after the first n events; an event that is not enabled changes nothing. */
  ghost function StateAt(q: Queue, es: nat -> Event, n: nat, o: WorkerOptions): Queue {
    if n == 0 then q else Apply(StateAt(q, es, n - 1, o), es(n - 1), o)
  }

  function Run(q: Queue, es: seq<Event>, o: WorkerOptions): Queue
    decreases |es|
  {
    if es == [] then q else Apply(Run(q, es[..|es| - 1], o), es[|es| - 1], o)
  }

  /**
   In every interleaving, with new jobs ingested at any time, no job is held twice, attempts never pass the effective
   maximum, a job is dead-lettered exactly when they reach it, and so a failed or queued one is below it.
   */
  lemma {:induction false} EveryRunKeepsInv(q: Queue, es: seq<Event>, o: WorkerOptions)
    requires Usable(o) && Inv(q, o)
    ensures Inv(Run(q, es, o), o)
    decreases |es|
  {
    if es != [] {
      EveryRunKeepsInv(q, es[..|es| - 1], o);
      StepKeepsInv(Run(q, es[..|es| - 1], o), es[|es| - 1], o);
    }
  }

  // ----- the measure

  ghost predicate IsHeld(q: Queue, k: JobKey) {
    exists w, i :: 0 <= w < |q.held| && 0 <= i < |q.held[w]| && q.held[w][i].key == k
  }

  ghost predicate IsEnqueued(q: Queue, k: JobKey) {
    exists w, i :: 0 <= w < |q.held| && 0 <= i < |q.held[w]| && q.held[w][i].key == k && q.held[w][i].enqueued
  }

  /** Remaining attempts, in thirds: claiming a job and letting it enqueue cost one each. */
  ghost function Weight(q: Queue, k: JobKey, o: WorkerOptions): int
    requires k in q.jobs
  {
    var left := 3 * (EffectiveMax(q.jobs[k], o) - q.jobs[k].attempts);
    if Settled(q.jobs[k]) then 0
    else if q.jobs[k].status != Running then left
    else if !IsHeld(q, k) then 0
    else if IsEnqueued(q, k) then left - 2
    else left - 1
  }

  lemma WeightNonNegative(q: Queue, k: JobKey, o: WorkerOptions)
    requires k in q.jobs && AttemptsInv(q, o)
    ensures Weight(q, k, o) >= 0
    ensures Weight(q, k, o) == 0 ==> Settled(q.jobs[k]) || (q.jobs[k].status == Running && !IsHeld(q, k))
  {
  }

  ghost function Pick(ks: set<JobKey>): (k: JobKey)
    requires ks != {}
    ensures k in ks
  {
    var k :| k in ks; k
  }

  ghost function Total(q: Queue, ks: set<JobKey>, o: WorkerOptions): nat
    requires AttemptsInv(q, o) && ks <= q.jobs.Keys
  {
    if ks == {} then 0
    else
      WeightNonNegative(q, Pick(ks), o);
      Weight(q, Pick(ks), o) + Total(q, ks - {Pick(ks)}, o)
  }

  lemma {:induction false} TotalShrinks(q: Queue, r: Queue, ks: set<JobKey>, o: WorkerOptions)
    requires AttemptsInv(q, o) && AttemptsInv(r, o) && ks <= q.jobs.Keys && ks <= r.jobs.Keys
    requires forall k | k in ks :: Weight(r, k, o) <= Weight(q, k, o)
    ensures Total(r, ks, o) <= Total(q, ks, o)
    ensures forall k | k in ks && Weight(r, k, o) < Weight(q, k, o) :: Total(r, ks, o) < Total(q, ks, o)
  {
    if ks != {} {
      TotalShrinks(q, r, ks - {Pick(ks)}, o);
    }
  }

  function ParserKeys(q: Queue): set<JobKey> {
    set k | k in q.jobs && k.jobType == ParserExtract
  }

  function OtherKeys(q: Queue): set<JobKey> {
    set k | k in q.jobs && k.jobType != ParserExtract
  }

  // ----- how each event moves the weights

  lemma HeldFact(q: Queue, w: nat, i: nat)
    requires w < |q.held| && i < |q.held[w]|
    ensures IsHeld(q, q.held[w][i].key)
    ensures q.held[w][i].enqueued ==> IsEnqueued(q, q.held[w][i].key)
  {
  }

  lemma ClaimHolds(q: Queue, e: Event, o: WorkerOptions, k: JobKey)
    requires e.Claimed? && Enabled(q, e, o)
    ensures IsHeld(Apply(q, e, o), k) <==> IsHeld(q, k) || k in e.keys
    ensures IsEnqueued(Apply(q, e, o), k) <==> IsEnqueued(q, k)
  {
    var r := Apply(q, e, o);
    forall v, i | 0 <= v < |q.held| && 0 <= i < |q.held[v]|
      ensures 0 <= i < |r.held[v]| && r.held[v][i] == q.held[v][i]
    {
    }
    if k in e.keys {
      var i :| 0 <= i < |e.keys| && e.keys[i] == k;
      assert r.held[e.w][i].key == k;
    }
  }

  lemma SpawnHolds(q: Queue, e: Event, o: WorkerOptions, k: JobKey)
    requires e.Spawned? && Enabled(q, e, o)
    ensures IsHeld(Apply(q, e, o), k) <==> IsHeld(q, k)
    ensures IsEnqueued(Apply(q, e, o), k) <==> IsEnqueued(q, k) || k == q.held[e.w][0].key
  {
    var r := Apply(q, e, o);
    assert |r.held| == |q.held|;
    forall v, i | 0 <= v < |q.held| && 0 <= i < |q.held[v]|
      ensures |r.held[v]| == |q.held[v]| && r.held[v][i].key == q.held[v][i].key
      ensures r.held[v][i].enqueued <==> q.held[v][i].enqueued || (v == e.w && i == 0)
    {
    }
    assert r.held[e.w][0].enqueued && r.held[e.w][0].key == q.held[e.w][0].key;
  }

  lemma DropHolds(q: Queue, w: nat, r: Queue, k: JobKey)
    requires Exclusive(q) && w < |q.held| && q.held[w] != [] && r.held == q.held[w := q.held[w][1..]]
    ensures IsHeld(r, k) <==> IsHeld(q, k) && k != q.held[w][0].key
    ensures IsEnqueued(r, k) <==> IsEnqueued(q, k) && k != q.held[w][0].key
  {
    forall v, i | 0 <= v < |r.held| && 0 <= i < |r.held[v]|
      ensures r.held[v][i] == q.held[v][Back(v, w, i)] && r.held[v][i].key != q.held[w][0].key
    {
      assert r.held[v][i] == q.held[v][Back(v, w, i)];
    }
    forall v, i | 0 <= v < |q.held| && 0 <= i < |q.held[v]| && q.held[v][i].key != q.held[w][0].key
      ensures exists j :: 0 <= j < |r.held[v]| && r.held[v][j] == q.held[v][i]
    {
      assert r.held[v][if v == w then i - 1 else i] == q.held[v][i];
    }
  }

  lemma HeldIsRunning(q: Queue, k: JobKey)
    requires HeldInv(q) && IsHeld(q, k)
    ensures k in q.jobs && q.jobs[k].status == Running
  {
  }

  lemma ClaimWeights(q: Queue, e: Event, o: WorkerOptions, k: JobKey)
    requires Usable(o) && Inv(q, o) && e.Claimed? && Enabled(q, e, o) && k in q.jobs
    ensures Weight(Apply(q, e, o), k, o) <= Weight(q, k, o)
    ensures k in e.keys ==> Weight(Apply(q, e, o), k, o) < Weight(q, k, o)
  {
    ClaimHolds(q, e, o, k);
    if IsHeld(q, k) { HeldIsRunning(q, k); }
  }

  lemma SpawnWeights(q: Queue, e: Event, o: WorkerOptions, k: JobKey)
    requires Usable(o) && Inv(q, o) && e.Spawned? && Enabled(q, e, o) && k in q.jobs
    ensures k in Apply(q, e, o).jobs
    ensures Weight(Apply(q, e, o), k, o) <= Weight(q, k, o)
    ensures k == q.held[e.w][0].key ==> Weight(Apply(q, e, o), k, o) < Weight(q, k, o)
  {
    SpawnHolds(q, e, o, k);
    SpawnedTable(q, e, o);
    if k == q.held[e.w][0].key {
      HeldFact(q, e.w, 0);
      assert q.jobs[k].status == Running;
      assert !IsEnqueued(q, k);
    }
  }

  lemma DropWeights(q: Queue, e: Event, o: WorkerOptions, k: JobKey)
    requires Usable(o) && Inv(q, o) && (e.Finished? || e.Abandoned?) && Enabled(q, e, o) && k in q.jobs
    ensures k in Apply(q, e, o).jobs
    ensures Weight(Apply(q, e, o), k, o) <= Weight(q, k, o)
    ensures k == q.held[e.w][0].key ==> Weight(Apply(q, e, o), k, o) < Weight(q, k, o)
  {
    DropHolds(q, e.w, Apply(q, e, o), k);
    HeldFact(q, e.w, 0);
    assert q.jobs[q.held[e.w][0].key].status == Running;
    if k == q.held[e.w][0].key && IsEnqueued(q, k) {
      assert q.held[e.w][0].enqueued;
    }
  }

  /** Each event of a worker lowers (what parser jobs have left, what the other jobs have left) lexicographically. */
  lemma EveryStepDescends(q: Queue, e: Event, o: WorkerOptions)
    requires Usable(o) && Inv(q, o) && Enabled(q, e, o) && !e.Ingested?
    ensures Inv(Apply(q, e, o), o)
    ensures var r := Apply(q, e, o);
            || Total(r, ParserKeys(r), o) < Total(q, ParserKeys(q), o)
            || (Total(r, ParserKeys(r), o) == Total(q, ParserKeys(q), o) && Total(r, OtherKeys(r), o) < Total(q, OtherKeys(q), o))
    // only an enqueueing parser job may add to the rest
    ensures var r := Apply(q, e, o);
            e.Spawned? ==> Total(r, ParserKeys(r), o) < Total(q, ParserKeys(q), o)
  {
    var r := Apply(q, e, o);
    StepKeepsInv(q, e, o);
    var moved := if e.Claimed? then e.keys[0] else q.held[e.w][0].key;
    forall k | k in q.jobs
      ensures k in r.jobs && Weight(r, k, o) <= Weight(q, k, o) && (k == moved ==> Weight(r, k, o) < Weight(q, k, o))
    {
      match e
      case Claimed(_, _, _, _) => ClaimWeights(q, e, o, k);
      case Spawned(_, _, _) => SpawnWeights(q, e, o, k);
      case _ => DropWeights(q, e, o, k);
    }
    if e.Spawned? {
      SpawnedTable(q, e, o);
      assert ParserKeys(r) == ParserKeys(q);
    } else {
      assert r.jobs.Keys == q.jobs.Keys;
      assert ParserKeys(r) == ParserKeys(q) && OtherKeys(r) == OtherKeys(q);
      TotalShrinks(q, r, OtherKeys(q), o);
    }
    TotalShrinks(q, r, ParserKeys(q), o);
    assert moved in ParserKeys(q) || moved in OtherKeys(q);
  }

  lemma {:induction false} StateKeepsInv(q: Queue, es: nat -> Event, n: nat, o: WorkerOptions)
    requires Usable(o) && Inv(q, o)
    ensures Inv(StateAt(q, es, n, o), o)
  {
    if n > 0 {
      StateKeepsInv(q, es, n - 1, o);
      StepKeepsInv(StateAt(q, es, n - 1, o), es(n - 1), o);
    }
  }

  /** No schedule keeps the workers busy for ever: after the last ingest some event is not enabled. */
  lemma EveryRunStops(q: Queue, es: nat -> Event, last: nat, o: WorkerOptions) returns (n: nat)
    requires Usable(o) && Inv(q, o) && forall m | m >= last :: !es(m).Ingested?
    ensures n >= last && !Enabled(StateAt(q, es, n, o), es(n), o)
  {
    n := last;
    StateKeepsInv(q, es, last, o);
    while Enabled(StateAt(q, es, n, o), es(n), o)
      invariant n >= last && Inv(StateAt(q, es, n, o), o)
      decreases Total(StateAt(q, es, n, o), ParserKeys(StateAt(q, es, n, o)), o),
                Total(StateAt(q, es, n, o), OtherKeys(StateAt(q, es, n, o)), o)
    {
      EveryStepDescends(StateAt(q, es, n, o), es(n), o);
      n := n + 1;
    }
  }

  // ----- what a run leaves behind

  ghost predicate Stranded(q: Queue, k: JobKey) {
    k in q.jobs && q.jobs[k].status == Running && !IsHeld(q, k)
  }

  /** A job nobody holds but still marked running is never claimed again. */
  lemma StrandedForGood(q: Queue, e: Event, o: WorkerOptions, k: JobKey)
    requires Usable(o) && Inv(q, o) && Stranded(q, k)
    ensures Stranded(Apply(q, e, o), k) && Apply(q, e, o).jobs[k] == q.jobs[k]
  {
    if Enabled(q, e, o) {
      match e
      case Claimed(_, _, _, _) => ClaimHolds(q, e, o, k);
      case Spawned(_, _, _) =>
        SpawnHolds(q, e, o, k);
        SpawnedTable(q, e, o);
      case Ingested(_, _) => IngestedTable(q, e, o);
      case _ =>
        DropHolds(q, e.w, Apply(q, e, o), k);
        HeldFact(q, e.w, 0);
    }
  }

  ghost predicate NoneStranded(q: Queue) {
    forall k :: !Stranded(q, k)
  }

  lemma InitialInv(q: Queue, o: WorkerOptions)
    requires Initial(q, o)
    ensures Inv(q, o) && NoneStranded(q)
  {
  }

  /** New workers start on the table the old ones left: to them every job still marked running is stranded, and no other. */
  lemma RestartStrands(q: Queue, workers: nat, o: WorkerOptions)
    requires Inv(q, o)
    ensures Inv(Restarted(q, workers), o)
    ensures forall k :: Stranded(Restarted(q, workers), k) <==> k in q.jobs && q.jobs[k].status == Running
  {
  }

  function Restarted(q: Queue, workers: nat): Queue {
    q.(held := seq(workers, _ => []))
  }

  /** A worker is at job k when the event takes it off its hands. */
  predicate Executes(q: Queue, e: Event, k: JobKey, o: WorkerOptions) {
    Enabled(q, e, o) && (e.Finished? || e.Abandoned?) && q.held[e.w][0].key == k
  }

  /** A job is stranded by the event that abandons it, and by no other. */
  lemma StrandedByAbandonedIff(q: Queue, e: Event, o: WorkerOptions, k: JobKey)
    requires Usable(o) && Inv(q, o) && !Stranded(q, k)
    ensures Stranded(Apply(q, e, o), k) <==> e.Abandoned? && Executes(q, e, k, o)
  {
    if Enabled(q, e, o) {
      var r := Apply(q, e, o);
      match e
      case Claimed(_, _, _, _) => ClaimHolds(q, e, o, k);
      case Spawned(_, _, _) =>
        SpawnHolds(q, e, o, k);
        SpawnedTable(q, e, o);
      case Ingested(_, _) =>
        IngestedTable(q, e, o);
        assert IsHeld(r, k) <==> IsHeld(q, k);
      case _ =>
        HeldFact(q, e.w, 0);
        DropHolds(q, e.w, r, k);
    }
  }

  /** Only a lost mark or a stopped worker strands a job. */
  lemma MarksStrandNothing(q: Queue, e: Event, o: WorkerOptions)
    requires Usable(o) && Inv(q, o) && NoneStranded(q) && !e.Abandoned?
    ensures NoneStranded(Apply(q, e, o))
  {
    forall k
      ensures !Stranded(Apply(q, e, o), k)
    {
      StrandedByAbandonedIff(q, e, o, k);
    }
  }

  /** And a lost mark or a stopped worker always does: the job it was at stays running with nobody to hold it. */
  lemma AbandonStrands(q: Queue, e: Event, o: WorkerOptions)
    requires Usable(o) && Inv(q, o) && e.Abandoned? && Enabled(q, e, o)
    ensures Stranded(Apply(q, e, o), q.held[e.w][0].key)
  {
    HeldFact(q, e.w, 0);
    DropHolds(q, e.w, Apply(q, e, o), q.held[e.w][0].key);
  }

  /** In some step of the run a claimed job's mark was lost, or its worker was stopped. */
  predicate Lost(q: Queue, es: seq<Event>, o: WorkerOptions)
    decreases |es|
  {
    es != [] && (Lost(q, es[..|es| - 1], o) || (es[|es| - 1].Abandoned? && Enabled(Run(q, es[..|es| - 1], o), es[|es| - 1], o)))
  }

  /** A run leaves a stranded job if and only if there was one before it or it lost one. */
  lemma {:induction false} StrandedIffLost(q: Queue, es: seq<Event>, o: WorkerOptions)
    requires Usable(o) && Inv(q, o)
    ensures NoneStranded(Run(q, es, o)) <==> NoneStranded(q) && !Lost(q, es, o)
    decreases |es|
  {
    if es != [] {
      var p, e := Run(q, es[..|es| - 1], o), es[|es| - 1];
      StrandedIffLost(q, es[..|es| - 1], o);
      EveryRunKeepsInv(q, es[..|es| - 1], o);
      if k :| Stranded(p, k) {
        StrandedForGood(p, e, o, k);
      } else if e.Abandoned? && Enabled(p, e, o) {
        AbandonStrands(p, e, o);
      } else if !e.Abandoned? {
        MarksStrandNothing(p, e, o);
      }
    }
  }

  lemma TwoEvents(q: Queue, a: Event, b: Event, o: WorkerOptions)
    ensures Run(q, [a, b], o) == Apply(Apply(q, a, o), b, o)
    ensures Lost(q, [a, b], o) <==> (a.Abandoned? && Enabled(q, a, o)) || (b.Abandoned? && Enabled(Apply(q, a, o), b, o))
  {
    hide Apply, Enabled;
    assert [a, b][..1] == [a] && [a][..0] == [];
    assert Run(q, [a], o) == Apply(Run(q, [], o), a, o);
    assert Lost(q, [a], o) <==> a.Abandoned? && Enabled(q, a, o);
  }

  const ONLY := JobKey("t", "m", VectorUpsert)

  /** One worker and one queued job, claimed and abandoned: it stays running with nobody to hold it. */
  lemma JobMayBeLost(o: WorkerOptions)
    requires Usable(o)
    ensures var q, es := Queue(map[ONLY := Job(Queued, 0, 1, 0, 0, NoLease)], [[]], {"m"}), [Claimed(0, [ONLY], 0, 1), Abandoned(0)];
            Initial(q, o) && Lost(q, es, o) && Stranded(Run(q, es, o), ONLY)
  {
    var q := Queue(map[ONLY := Job(Queued, 0, 1, 0, 0, NoLease)], [[]], {"m"});
    var claimed, abandoned := Claimed(0, [ONLY], 0, 1), Abandoned(0);
    InitialInv(q, o);
    TwoEvents(q, claimed, abandoned, o);
    assert Distinct([ONLY]) by { assert [ONLY][1..] == []; }
    assert Enabled(q, claimed, o);
    StepKeepsInv(q, claimed, o);
    var p := Apply(q, claimed, o);
    assert p.held[0] == Take(p.jobs, [ONLY]);
    AbandonStrands(p, abandoned, o);
  }

  /** A run can only stop where every job is settled or stranded: otherwise this event goes on. */
  lemma StuckMeansDone(q: Queue, o: WorkerOptions) returns (next: Event)
    requires Usable(o) && Inv(q, o) && |q.held| > 0
    requires exists k | k in q.jobs :: !Settled(q.jobs[k]) && !Stranded(q, k)
    ensures Enabled(q, next, o) && !next.Ingested?
  {
    var k :| k in q.jobs && !Settled(q.jobs[k]) && !Stranded(q, k);
    if w :| 0 <= w < |q.held| && q.held[w] != [] {
      HeldFact(q, w, 0);
      next := Finished(w, q.held[w][0].enqueued, 0);
    } else {
      assert q.jobs[k].status != Running;
      var j := q.jobs[k];
      var now := if j.lease.Leased? && j.lease.until > j.availableAt then j.lease.until else j.availableAt;
      next := Claimed(0, [k], now, now + 1);
    }
  }

  /** No worker can go on. */
  ghost predicate Idle(q: Queue, o: WorkerOptions) {
    forall e: Event | !e.Ingested? :: !Enabled(q, e, o)
  }

  /** Where no worker can go on, the queue has drained if and only if no job was stranded before nor lost on the way. */
  lemma QueueDrainsIff(q: Queue, es: seq<Event>, o: WorkerOptions)
    requires Usable(o) && Inv(q, o) && |q.held| > 0 && Idle(Run(q, es, o), o)
    ensures (forall k | k in Run(q, es, o).jobs :: Settled(Run(q, es, o).jobs[k])) <==> NoneStranded(q) && !Lost(q, es, o)
  {
    var r := Run(q, es, o);
    EveryRunKeepsInv(q, es, o);
    StrandedIffLost(q, es, o);
    RunKeepsWorkers(q, es, o);
    if NoneStranded(r) {
      if k :| k in r.jobs && !Settled(r.jobs[k]) {
        assert !Stranded(r, k);
        var next := StuckMeansDone(r, o);
      }
    } else {
      var k :| Stranded(r, k);
      assert !Settled(r.jobs[k]);
    }
  }

  lemma {:induction false} RunKeepsWorkers(q: Queue, es: seq<Event>, o: WorkerOptions)
    ensures |Run(q, es, o).held| == |q.held|
    decreases |es|
  {
    if es != [] {
      RunKeepsWorkers(q, es[..|es| - 1], o);
    }
  }

  // ----- how often one job is executed

  /** Executions of job k among the events of a run; an abandoned one counts, for its mark may be all that was lost. */
  function Executions(q: Queue, es: seq<Event>, k: JobKey, o: WorkerOptions): nat
    decreases |es|
  {
    if es == [] then 0
    else Executions(q, es[..|es| - 1], k, o) + if Executes(Run(q, es[..|es| - 1], o), es[|es| - 1], k, o) then 1 else 0
  }

  /** The executions the table knows of, and one more when the last was lost. */
  ghost function Tried(q: Queue, k: JobKey): int
    requires k in q.jobs
  {
    q.jobs[k].attempts + if Stranded(q, k) then 1 else 0
  }

  /** Executing a job is for an unsettled one with attempts left, and settles it or counts. */
  lemma ExecutionCounts(q: Queue, e: Event, k: JobKey, o: WorkerOptions)
    requires Usable(o) && Inv(q, o) && k in q.jobs
    ensures k in Apply(q, e, o).jobs && EffectiveMax(Apply(q, e, o).jobs[k], o) == EffectiveMax(q.jobs[k], o)
    ensures Executes(q, e, k, o) ==> !Settled(q.jobs[k]) && Tried(q, k) < EffectiveMax(q.jobs[k], o)
    ensures !Settled(Apply(q, e, o).jobs[k]) ==>
              !Settled(q.jobs[k]) && Tried(Apply(q, e, o), k) == Tried(q, k) + if Executes(q, e, k, o) then 1 else 0
  {
    if Executes(q, e, k, o) {
      HeldFact(q, e.w, 0);
    }
    if Stranded(q, k) {
      StrandedForGood(q, e, o, k);
    } else {
      StrandedByAbandonedIff(q, e, o, k);
      hide Stranded;
      if Enabled(q, e, o) && e.Spawned? {
        SpawnedTable(q, e, o);
      }
      if Enabled(q, e, o) && e.Ingested? {
        IngestedTable(q, e, o);
      }
    }
  }

  /** A job that comes in while the queue runs has no attempts behind it, and none of its own events before it is there. */
  lemma NewJobStarts(q: Queue, e: Event, k: JobKey, o: WorkerOptions)
    requires Usable(o) && Inv(q, o) && k !in q.jobs
    ensures !Executes(q, e, k, o)
    ensures k in Apply(q, e, o).jobs ==>
              Tried(Apply(q, e, o), k) == 0 < EffectiveMax(Apply(q, e, o).jobs[k], o) && !Settled(Apply(q, e, o).jobs[k])
    ensures k in Apply(q, e, o).jobs ==> Apply(q, e, o).jobs[k].status == Queued && Apply(q, e, o).jobs[k].attempts == 0
  {
    if Enabled(q, e, o) {
      match e
      case Spawned(_, _, _) => SpawnedTable(q, e, o);
      case Ingested(_, _) => IngestedTable(q, e, o);
      case _ =>
    }
  }

  /** The executions of a job before the run began, as far as its row tells. */
  ghost function TriedAtFirst(q: Queue, k: JobKey): int {
    if k in q.jobs then Tried(q, k) else 0
  }

  lemma TriedIsWithin(q: Queue, k: JobKey, o: WorkerOptions)
    requires AttemptsInv(q, o) && k in q.jobs
    ensures q.jobs[k].attempts <= Tried(q, k) <= EffectiveMax(q.jobs[k], o)
  {
  }

  /**
   Every job, whenever it came in, is executed at most as often as it has attempts left, however the workers interleave and
   whatever marks are lost; and while it is unsettled its row counts them all, except the one that stranded it.
   */
  lemma {:induction false} ExecutionsBounded(q: Queue, es: seq<Event>, k: JobKey, o: WorkerOptions)
    requires Usable(o) && Inv(q, o)
    ensures k !in Run(q, es, o).jobs ==> Executions(q, es, k, o) == 0 && k !in q.jobs
    ensures k in Run(q, es, o).jobs ==>
              Executions(q, es, k, o) + TriedAtFirst(q, k) <= EffectiveMax(Run(q, es, o).jobs[k], o)
    ensures k in Run(q, es, o).jobs && !Settled(Run(q, es, o).jobs[k]) ==>
              Executions(q, es, k, o) + TriedAtFirst(q, k) == Tried(Run(q, es, o), k)
    decreases |es|
  {
    if es == [] {
      if k in q.jobs {
        TriedIsWithin(q, k, o);
      }
    } else {
      var p := Run(q, es[..|es| - 1], o);
      var e := es[|es| - 1];
      ExecutionsBounded(q, es[..|es| - 1], k, o);
      EveryRunKeepsInv(q, es[..|es| - 1], o);
      if k in p.jobs {
        ExecutionCounts(p, e, k, o);
      } else {
        NewJobStarts(p, e, k, o);
      }
      hide Inv, Apply, Enabled, Settled, EffectiveMax, Executes, Tried;
    }
  }

  // ----- how one job ends

  /** The event is an execution of job k that returned what `ok` says, and whose mark took effect. */
  predicate Ends(q: Queue, e: Event, k: JobKey, ok: bool, o: WorkerOptions) {
    Enabled(q, e, o) && e.Finished? && q.held[e.w][0].key == k && e.ok == ok
  }

  /** How many executions of job k in the run ended so. */
  function Endings(q: Queue, es: seq<Event>, k: JobKey, ok: bool, o: WorkerOptions): nat
    decreases |es|
  {
    if es == [] then 0
    else
      Endings(q, es[..|es| - 1], k, ok, o) + if Ends(Run(q, es[..|es| - 1], o), es[|es| - 1], k, ok, o) then 1 else 0
  }

  lemma EndingOfOne(q: Queue, e: Event, k: JobKey, o: WorkerOptions)
    requires Usable(o) && Inv(q, o) && k in q.jobs
    ensures var r := Apply(q, e, o);
            && k in r.jobs
            && (r.jobs[k].status == Succeeded <==> q.jobs[k].status == Succeeded || Ends(q, e, k, true, o))
            && r.jobs[k].attempts == q.jobs[k].attempts + (if Ends(q, e, k, false, o) then 1 else 0)
            && (Ends(q, e, k, true, o) || Ends(q, e, k, false, o) ==> !Settled(q.jobs[k]))
  {
    if Enabled(q, e, o) {
      match e
      case Spawned(_, _, _) => SpawnedTable(q, e, o);
      case Ingested(_, _) => IngestedTable(q, e, o);
      case _ =>
    }
  }

  /**
   A job has succeeded if and only if it had before the run or an execution of it in the run ended well; it has one attempt for
   each that erred, and none after one that ended well.
   */
  lemma {:induction false} SucceededIff(q: Queue, es: seq<Event>, k: JobKey, o: WorkerOptions)
    requires Usable(o) && Inv(q, o)
    ensures k !in Run(q, es, o).jobs ==> k !in q.jobs && Endings(q, es, k, true, o) == Endings(q, es, k, false, o) == 0
    ensures k in Run(q, es, o).jobs ==>
              var j := Run(q, es, o).jobs[k];
              && (j.status == Succeeded <==> (k in q.jobs && q.jobs[k].status == Succeeded) || Endings(q, es, k, true, o) > 0)
              && Endings(q, es, k, true, o) <= 1
              && j.attempts == (if k in q.jobs then q.jobs[k].attempts else 0) + Endings(q, es, k, false, o)
              && (j.status == DeadLetter <==> j.attempts == EffectiveMax(j, o))
    decreases |es|
  {
    EveryRunKeepsInv(q, es, o);
    if es != [] {
      var p, e := Run(q, es[..|es| - 1], o), es[|es| - 1];
      SucceededIff(q, es[..|es| - 1], k, o);
      EveryRunKeepsInv(q, es[..|es| - 1], o);
      if k in p.jobs {
        EndingOfOne(p, e, k, o);
      } else {
        NewJobStarts(p, e, k, o);
      }
      assert k !in p.jobs ==> !Ends(p, e, k, true, o) && !Ends(p, e, k, false, o);
      hide Inv, Apply, Enabled, EffectiveMax, Ends;
    }
  }

  predicate ClaimsJob(q: Queue, e: Event, k: JobKey, o: WorkerOptions) {
    Enabled(q, e, o) && e.Claimed? && k in e.keys
  }

  /** A failed job's row stays as it is until the job is claimed. */
  lemma {:induction false} FailedRowStays(q: Queue, es: seq<Event>, k: JobKey, o: WorkerOptions)
    requires Usable(o) && Inv(q, o) && k in q.jobs && q.jobs[k].status == Failed
    requires forall i | 0 <= i < |es| :: !ClaimsJob(Run(q, es[..i], o), es[i], k, o)
    ensures k in Run(q, es, o).jobs && Run(q, es, o).jobs[k] == q.jobs[k]
    decreases |es|
  {
    if es != [] {
      var n := |es| - 1;
      forall i | 0 <= i < n
        ensures !ClaimsJob(Run(q, es[..n][..i], o), es[..n][i], k, o)
      {
        assert es[..n][..i] == es[..i];
      }
      FailedRowStays(q, es[..n], k, o);
      EveryRunKeepsInv(q, es[..n], o);
      var p, e := Run(q, es[..n], o), es[n];
      assert !ClaimsJob(p, e, k, o);
      if Enabled(p, e, o) {
        match e
        case Spawned(_, _, _) => SpawnedTable(p, e, o);
        case Ingested(_, _) => IngestedTable(p, e, o);
        case _ =>
      }
    }
  }

  lemma ClaimedIsAvailable(q: Queue, e: Event, k: JobKey, o: WorkerOptions)
    requires ClaimsJob(q, e, k, o)
    ensures k in q.jobs && q.jobs[k].status != DeadLetter && q.jobs[k].availableAt <= e.now
  {
  }

  lemma FailureDelays(q: Queue, e: Event, k: JobKey, o: WorkerOptions)
    requires Usable(o) && Inv(q, o) && k in q.jobs && Ends(q, e, k, false, o)
    ensures var j, delay := Apply(q, e, o).jobs[k], o.retryBase * Pow2(q.jobs[k].attempts);
            || j.status == DeadLetter
            || (j.status == Failed && j.availableAt == e.now + if delay < o.retryMax then delay else o.retryMax)
  {
  }

  /** A job whose n-th attempt erred is not claimed again before its delay is over: the base doubled n - 1 times, or the maximum. */
  lemma RetryWaits(q: Queue, e: Event, es: seq<Event>, next: Event, k: JobKey, o: WorkerOptions)
    requires Usable(o) && Inv(q, o) && k in q.jobs && Ends(q, e, k, false, o)
    requires forall i | 0 <= i < |es| :: !ClaimsJob(Run(Apply(q, e, o), es[..i], o), es[i], k, o)
    requires ClaimsJob(Run(Apply(q, e, o), es, o), next, k, o)
    ensures var delay := o.retryBase * Pow2(q.jobs[k].attempts);
            next.now >= e.now + if delay < o.retryMax then delay else o.retryMax
  {
    var r := Apply(q, e, o);
    StepKeepsInv(q, e, o);
    EndingOfOne(q, e, k, o);
    FailureDelays(q, e, k, o);
    hide Apply, Ends, Inv, ClaimsJob, Run;
    ClaimedIsAvailable(Run(r, es, o), next, k, o);
    if r.jobs[k].status == Failed {
      FailedRowStays(r, es, k, o);
    } else {
      DeadLetterStays(r, es, k, o);
    }
  }

  lemma {:induction false} DeadLetterStays(q: Queue, es: seq<Event>, k: JobKey, o: WorkerOptions)
    requires Usable(o) && Inv(q, o) && k in q.jobs && q.jobs[k].status == DeadLetter
    ensures k in Run(q, es, o).jobs && Run(q, es, o).jobs[k] == q.jobs[k]
    decreases |es|
  {
    if es != [] {
      DeadLetterStays(q, es[..|es| - 1], k, o);
      EveryRunKeepsInv(q, es[..|es| - 1], o);
      var p, e := Run(q, es[..|es| - 1], o), es[|es| - 1];
      if Enabled(p, e, o) {
        match e
        case Spawned(_, _, _) => SpawnedTable(p, e, o);
        case Ingested(_, _) => IngestedTable(p, e, o);
        case _ =>
      }
    }
  }
}
