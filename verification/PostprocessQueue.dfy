/**
 The post-process job table, the workers that claim, run and mark its jobs, and every interleaving of them.

 A job is known by the columns the table declares unique (tenant, memory, job type); its surrogate id plays no part.
 */
module PostprocessQueue {
  import opened Backoff
  import opened Sums
  import opened Text

  datatype JobType = ParserExtract | VectorUpsert | Unsupported
  datatype Status = Queued | Running | Succeeded | Failed | DeadLetter
  datatype Lease = NoLease | Leased(owner: nat, until: int)

  datatype JobKey = JobKey(tenant: string, memory: string, jobType: JobType)
  datatype Job = Job(status: Status, attempts: int, maxAttempts: int, availableAt: int, created: int, lease: Lease)
  datatype Request = Request(key: JobKey, maxAttempts: int)

  type Table = map<JobKey, Job>

  // ----- the table's own operations

  predicate Claimable(j: Job, now: int) {
    && j.availableAt <= now
    && (j.status == Queued || j.status == Failed)
    && (j.lease.NoLease? || j.lease.until <= now)
  }

  /** Earlier by the time a job is available from, and then by its creation. */
  predicate Earlier(a: Job, b: Job) {
    a.availableAt < b.availableAt || (a.availableAt == b.availableAt && a.created < b.created)
  }

  function ClaimAll(t: Table, keys: seq<JobKey>, lease: Lease): Table {
    map k | k in t :: if k in keys then t[k].(status := Running, lease := lease) else t[k]
  }

  function Succeed(t: Table, k: JobKey): Table {
    if k in t then t[k := t[k].(status := Succeeded, lease := NoLease)] else t
  }

  function Fail(t: Table, k: JobKey, attempts: int, status: Status, availableAt: int): Table {
    if k in t
    then t[k := t[k].(status := status, attempts := attempts, availableAt := availableAt, lease := NoLease)]
    else t
  }

  /** The row an enqueue writes: a new one, or one that is there reset but for its creation time. */
  function Fresh(t: Table, r: Request, default: int, now: int): (j: Job)
    ensures IsFresh(j) && (r.key in t ==> j.created == t[r.key].created)
  {
    Job(Queued, 0, OrDefault(r.maxAttempts, OrDefault(default, 5)), now, if r.key in t then t[r.key].created else now, NoLease)
  }

  predicate IsFresh(j: Job) {
    j.status == Queued && j.attempts == 0 && j.maxAttempts > 0 && j.lease == NoLease
  }

  predicate Enqueueable(r: Request) {
    !Blank(r.key.tenant) && !Blank(r.key.memory) && r.key.jobType != Unsupported
  }

  function EnqueueAll(t: Table, rs: seq<Request>, default: int, now: int): Table
    decreases |rs|
  {
    if rs == [] then t
    else
      var before := EnqueueAll(t, rs[..|rs| - 1], default, now);
      before[rs[|rs| - 1].key := Fresh(before, rs[|rs| - 1], default, now)]
  }

  lemma {:induction false} EnqueuedRows(t: Table, rs: seq<Request>, default: int, now: int)
    ensures forall k :: k in EnqueueAll(t, rs, default, now) <==> k in t || exists i | 0 <= i < |rs| :: rs[i].key == k
    ensures forall k | k in t && (forall i | 0 <= i < |rs| :: rs[i].key != k) :: EnqueueAll(t, rs, default, now)[k] == t[k]
    ensures forall k | k in t :: EnqueueAll(t, rs, default, now)[k].created == t[k].created
    ensures forall i | 0 <= i < |rs| :: IsFresh(EnqueueAll(t, rs, default, now)[rs[i].key])
    decreases |rs|
  {
    hide Fresh, IsFresh;
    if rs != [] {
      EnqueuedRows(t, rs[..|rs| - 1], default, now);
    }
  }

  lemma {:induction false} CreatedThen(t: Table, rs: seq<Request>, default: int, now: int, k: JobKey)
    requires k in EnqueueAll(t, rs, default, now)
    ensures EnqueueAll(t, rs, default, now)[k].created == if k in t then t[k].created else now
    decreases |rs|
  {
    if rs != [] && k in EnqueueAll(t, rs[..|rs| - 1], default, now) {
      CreatedThen(t, rs[..|rs| - 1], default, now, k);
    } else if rs != [] {
      EnqueuedRows(t, rs[..|rs| - 1], default, now);
    }
  }

  /**
   The last request for a job decides its row: queued and available at once, without attempts or lease, created when it first
   was, and with the maximum asked for, the default where none is, and five without that.
   */
  lemma {:induction false} LastRequestDecides(t: Table, rs: seq<Request>, default: int, now: int, i: nat)
    requires i < |rs| && forall m | i < m < |rs| :: rs[m].key != rs[i].key
    ensures rs[i].key in EnqueueAll(t, rs, default, now)
    ensures EnqueueAll(t, rs, default, now)[rs[i].key]
            == Job(Queued, 0, if rs[i].maxAttempts > 0 then rs[i].maxAttempts else if default > 0 then default else 5, now,
                   if rs[i].key in t then t[rs[i].key].created else now, NoLease)
    decreases |rs|
  {
    var n := |rs| - 1;
    if i < n {
      LastRequestDecides(t, rs[..n], default, now, i);
    } else {
      EnqueuedRows(t, rs[..n], default, now);
      if rs[i].key in EnqueueAll(t, rs[..n], default, now) {
        CreatedThen(t, rs[..n], default, now, rs[i].key);
      }
    }
  }

  // ----- one job after its execution

  function EffectiveMax(j: Job, o: WorkerOptions): int {
    OrDefault(j.maxAttempts, o.maxAttempts)
  }

  /** The mark a worker leaves: `seen` is the copy of the job it got when it claimed. */
  function Finish(t: Table, k: JobKey, seen: Job, ok: bool, now: int, o: WorkerOptions): Table {
    if ok then Succeed(t, k)
    else
      var attempts := seen.attempts + 1;
      if attempts >= EffectiveMax(seen, o) then Fail(t, k, attempts, DeadLetter, now)
      else Fail(t, k, attempts, Failed, now + Capped(attempts, o.retryBase, o.retryMax))
  }

  lemma ClaimedNothing(t: Table, lease: Lease)
    ensures Keys([]) == [] && Distinct(Keys([])) && ClaimAll(t, Keys([]), lease) == t
  {
  }

  lemma ClaimedRow(t: Table, was: Table, keys: seq<JobKey>, lease: Lease, k: JobKey)
    requires t == ClaimAll(was, keys, lease) && k in was
    ensures k in t && (k !in keys ==> t[k] == was[k])
  {
  }

  lemma ClaimedOneMore(t: Table, cs: seq<Claim>, c: Claim, lease: Lease)
    requires c.key in t && c.key !in Keys(cs)
    ensures Keys(cs + [c]) == Keys(cs) + [c.key] && (Distinct(Keys(cs)) ==> Distinct(Keys(cs + [c])))
    ensures ClaimAll(t, Keys(cs + [c]), lease) == ClaimAll(t, Keys(cs), lease)[c.key := t[c.key].(status := Running, lease := lease)]
  {
    assert Keys(cs + [c]) == Keys(cs) + [c.key];
    if Distinct(Keys(cs)) {
      DistinctAppend(Keys(cs), c.key);
    }
  }

  lemma NothingClaimable(t: Table, keys: seq<JobKey>, lease: Lease, now: int)
    ensures (forall k | k in t && Claimable(t[k], now) :: k in keys) ==>
              forall k | k in ClaimAll(t, keys, lease) :: !Claimable(ClaimAll(t, keys, lease)[k], now)
  {
  }

  /** One of the jobs none is to come before. */
  method Earliest(t: Table, keys: set<JobKey>) returns (k: JobKey)
    requires keys != {} && keys <= t.Keys
    ensures k in keys && forall other | other in keys :: !Earlier(t[other], t[k])
  {
    k :| k in keys;
    var rest := keys - {k};
    while rest != {}
      invariant rest <= keys && k in keys && k !in rest
      invariant forall other | other in keys && other !in rest :: !Earlier(t[other], t[k])
    {
      var other :| other in rest;
      rest := rest - {other};
      if Earlier(t[other], t[k]) {
        k := other;
      }
    }
  }

  // ----- the table as the repository keeps it, and the code that drives it

  datatype Claim = Claim(key: JobKey, seen: Job, enqueued: bool)

  class JobTable {
    var jobs: Table

    constructor ()
      ensures jobs == map[]
    {
      jobs := map[];
    }

    method ClaimPostprocessJobs(owner: nat, limit: int, now: int, leaseUntil: int) returns (claimed: seq<Claim>)
      modifies this
      ensures |claimed| <= OrDefault(limit, 1)
      ensures Distinct(Keys(claimed))
      ensures forall c | c in claimed :: c.key in old(jobs) && Claimable(old(jobs)[c.key], now) && !c.enqueued
      ensures forall c | c in claimed ::
                var j := old(jobs)[c.key];
                && (j.status == Queued || j.status == Failed) && j.availableAt <= now
                && (j.lease.Leased? ==> j.lease.until <= now)
                && c.seen == j.(status := Running, lease := Leased(owner, if leaseUntil > now then leaseUntil else now + 30_000_000_000))
      ensures jobs.Keys == old(jobs).Keys && forall k | k in jobs && k !in Keys(claimed) :: jobs[k] == old(jobs)[k]
      ensures forall c | c in claimed :: c.key in jobs && c.seen == jobs[c.key]
      ensures jobs == ClaimAll(old(jobs), Keys(claimed), Leased(owner, if leaseUntil > now then leaseUntil else now + DEFAULTS.lease))
      // none that is left behind was to come before one that is claimed
      ensures forall c, k | c in claimed && k in old(jobs) && Claimable(old(jobs)[k], now) && k !in Keys(claimed) ::
                !Earlier(old(jobs)[k], old(jobs)[c.key])
      ensures forall c, k | c in claimed && k in old(jobs) && Claimable(old(jobs)[k], now) && k !in Keys(claimed) ::
                var a, b := old(jobs)[c.key], old(jobs)[k];
                a.availableAt < b.availableAt || (a.availableAt == b.availableAt && a.created <= b.created)
      // when fewer than the limit come back, nothing claimable was left behind
      ensures |claimed| < OrDefault(limit, 1) ==> forall k | k in jobs :: !Claimable(jobs[k], now)
      ensures |claimed| < limit || claimed == [] ==>
                forall k | k in jobs && (jobs[k].status == Queued || jobs[k].status == Failed) ::
                  jobs[k].availableAt > now || (jobs[k].lease.Leased? && jobs[k].lease.until > now)
      ensures limit > 0 ==> |claimed| <= limit
    {
      var most := OrDefault(limit, 1);
      var lease := Leased(owner, if leaseUntil > now then leaseUntil else now + DEFAULTS.lease);
      var candidates := set k | k in jobs && Claimable(jobs[k], now);
      var all, was := candidates, jobs;
      claimed := [];
      ClaimedNothing(jobs, lease);
      hide ClaimAll, Claimable, Distinct, Keys;
      while |claimed| < most && candidates != {}
        invariant |claimed| <= most && candidates <= all
        invariant forall k :: k in all <==> k in old(jobs) && Claimable(old(jobs)[k], now)
        invariant forall c | c in claimed :: c.key in all && c.key !in candidates
        invariant forall k | k in all :: k in candidates || k in Keys(claimed)
        invariant forall k | k in Keys(claimed) :: k in all && k !in candidates
        invariant Distinct(Keys(claimed))
        invariant forall c, k | c in claimed && k in candidates :: !Earlier(old(jobs)[k], old(jobs)[c.key])
        invariant jobs == ClaimAll(old(jobs), Keys(claimed), lease)
        invariant forall c | c in claimed :: c.key in jobs && c.seen == jobs[c.key] && !c.enqueued
        decreases candidates
      {
        var k := Earliest(was, candidates);
        ClaimedRow(jobs, old(jobs), Keys(claimed), lease, k);
        candidates := candidates - {k};
        jobs := jobs[k := jobs[k].(status := Running, lease := lease)];
        ClaimedOneMore(old(jobs), claimed, Claim(k, jobs[k], false), lease);
        claimed := claimed + [Claim(k, jobs[k], false)];
      }
      NothingClaimable(old(jobs), Keys(claimed), lease, now);
    }

    method MarkPostprocessJobSucceeded(k: JobKey) returns (found: bool)
      modifies this
      ensures found == (k in old(jobs)) && jobs == Succeed(old(jobs), k)
      ensures jobs == if found then old(jobs)[k := old(jobs)[k].(status := Succeeded, lease := NoLease)] else old(jobs)
    {
      found := k in jobs;
      if found {
        jobs := jobs[k := jobs[k].(status := Succeeded, lease := NoLease)];
      }
    }

    method MarkPostprocessJobFailed(k: JobKey, nextAvailable: int, attempts: int, status: Status) returns (ok: bool)
      modifies this
      ensures ok == ((status == Failed || status == DeadLetter) && attempts >= 0 && k in old(jobs))
      ensures jobs == if ok then Fail(old(jobs), k, attempts, status, nextAvailable) else old(jobs)
      ensures ok ==> jobs == old(jobs)[k := old(jobs)[k].(status := status, attempts := attempts, availableAt := nextAvailable,
                                                          lease := NoLease)]
    {
      ok := (status == Failed || status == DeadLetter) && attempts >= 0 && k in jobs;
      if ok {
        jobs := jobs[k := jobs[k].(status := status, attempts := attempts, availableAt := nextAvailable, lease := NoLease)];
      }
    }

    /** All requests in one transaction: a blank id or an unsupported type refuses the whole batch. */
    method EnqueuePostprocessJobs(rs: seq<Request>, default: int, now: int) returns (ok: bool)
      modifies this
      ensures ok == forall r | r in rs :: Enqueueable(r)
      ensures ok == forall r | r in rs :: !Blank(r.key.tenant) && !Blank(r.key.memory) && r.key.jobType != Unsupported
      ensures jobs == if ok then EnqueueAll(old(jobs), rs, default, now) else old(jobs)
    {
      hide Blank, OrDefault;
      var staged := jobs;
      for i := 0 to |rs|
        invariant jobs == old(jobs)
        invariant forall r | r in rs[..i] :: Enqueueable(r)
        invariant staged == EnqueueAll(old(jobs), rs[..i], default, now)
      {
        assert rs[i] in rs;
        if Blank(rs[i].key.tenant) || Blank(rs[i].key.memory) {
          return false;
        }
        if rs[i].key.jobType == Unsupported {
          return false;
        }
        staged := staged[rs[i].key := Fresh(staged, rs[i], default, now)];
        assert rs[..i + 1][..i] == rs[..i];
      }
      assert rs[..|rs|] == rs;
      jobs := staged;
      return true;
    }

    /** processPostprocessJob, given whether the execution returned an error. */
    method ProcessPostprocessJob(k: JobKey, seen: Job, executed: bool, now: int, o: WorkerOptions)
      requires Usable(o) && seen.attempts >= 0
      modifies this
      ensures jobs == Finish(old(jobs), k, seen, executed, now, o)
      ensures k !in old(jobs) ==> jobs == old(jobs)
      ensures k in old(jobs) && executed ==> jobs == old(jobs)[k := old(jobs)[k].(status := Succeeded, lease := NoLease)]
      ensures k in old(jobs) && !executed ==>
                var n, most := seen.attempts + 1, if seen.maxAttempts > 0 then seen.maxAttempts else o.maxAttempts;
                var delay := o.retryBase * Pow2(n - 1);
                jobs == old(jobs)[k := old(jobs)[k].(
                  lease := NoLease, attempts := n, status := if n >= most then DeadLetter else Failed,
                  availableAt := if n >= most then now else if delay < o.retryMax then now + delay else now + o.retryMax)]
    {
      if executed {
        var _ := MarkPostprocessJobSucceeded(k);
        return;
      }
      var attempts := seen.attempts + 1;
      var maxAttempts := seen.maxAttempts;
      if maxAttempts <= 0 {
        maxAttempts := o.maxAttempts;
      }
      var status := Failed;
      var delay := RetryDelay(attempts, o.retryBase, o.retryMax);
      var nextAvailable := now + delay;
      if attempts >= maxAttempts {
        status := DeadLetter;
        nextAvailable := now;
      }
      var _ := MarkPostprocessJobFailed(k, nextAvailable, attempts, status);
    }
  }

  function Keys(cs: seq<Claim>): (ks: seq<JobKey>)
    ensures |ks| == |cs| && forall i | 0 <= i < |cs| :: ks[i] == cs[i].key
  {
    seq(|cs|, i requires 0 <= i < |cs| => cs[i].key)
  }
}
