/**
 The recorded index state of one tenant's memories against the memory and vector stores: stores, deletes and
 vector-upsert jobs, one at a time, with every backend call allowed to fail.

 The index table has one row per memory and operation, so an upsert row and a delete row can stand side by side.
 A failed vector call, and a repository delete that reports an error, may or may not have taken effect; a failed mark
 is only logged.
 */
module IndexState {

  datatype Operation = Upsert | Delete
  datatype State = Pending | Indexed | Failed | Tombstoned
  datatype Outcome = Works | Fails(applied: bool)

  /** used: every id any call has mentioned; new memories get none of these. */
  datatype World = World(memories: set<nat>, vectors: set<nat>, upserts: map<nat, State>, deletes: map<nat, State>, used: set<nat>)

  predicate Applies(o: Outcome) {
    o.Works? || o.applied
  }

  // ----- the calls one operation makes, as functions of the world

  function Mark(w: World, ids: set<nat>, op: Operation, state: State, works: bool): World {
    if !works then w
    else match op
      case Upsert => w.(upserts := w.upserts + map id | id in ids :: state)
      case Delete => w.(deletes := w.deletes + map id | id in ids :: state)
  }

  /** A transaction that inserts memories also writes their upsert rows as pending. */
  function Insert(w: World, ids: set<nat>): World {
    Mark(w.(memories := w.memories + ids, used := w.used + ids), ids, Upsert, Pending, true)
  }

  /** A transaction that deletes a memory also writes its delete row as pending; a missing memory undoes it. */
  function Remove(w: World, id: nat): World {
    Mark(w.(memories := w.memories - {id}), {id}, Delete, Pending, true)
  }

  function Put(w: World, ids: set<nat>): World {
    w.(vectors := w.vectors + ids)
  }

  datatype Writes = Batch(works: bool, applied: set<nat>) | Each(outcome: nat -> Outcome)
  datatype StoreFate = StoreFate(inserted: nat, pending: bool, writes: Writes, indexed: bool, failed: bool)
  datatype DeleteFate = DeleteFate(pending: bool, repo: Outcome, vector: Outcome, last: bool)
  datatype JobFate = JobFate(read: bool, embed: bool, pending: bool, vector: Outcome, last: bool)

  function FirstFailure(f: nat -> Outcome, n: nat, from: nat): (k: nat)
    requires from <= n
    ensures from <= k <= n && (forall i | from <= i < k :: f(i) == Works) && (k < n ==> f(k).Fails?)
    decreases n - from
  {
    if from == n || f(from).Fails? then from else FirstFailure(f, n, from + 1)
  }

  function Ids(ids: seq<nat>): set<nat> {
    set id | id in ids
  }

  /** upsertStoredEmbeddings. */
  function UpsertStored(w: World, ids: seq<nat>, f: StoreFate): World {
    if ids == [] then w
    else
      var p := Mark(w, Ids(ids), Upsert, Pending, f.pending);
      match f.writes
      case Batch(works, applied) =>
        if works then Mark(Put(p, Ids(ids)), Ids(ids), Upsert, Indexed, f.indexed)
        else Mark(Put(p, applied * Ids(ids)), Ids(ids), Upsert, Failed, f.failed)
      case Each(outcome) => WriteEach(p, ids, outcome, f)
  }

  /** One by one up to the first failure: the ids before it are marked indexed, the rest failed. */
  function WriteEach(p: World, ids: seq<nat>, outcome: nat -> Outcome, f: StoreFate): World {
    var k := FirstFailure(outcome, |ids|, 0);
    var q := Mark(Put(p, Ids(Reached(ids, outcome, k))), Ids(ids[..k]), Upsert, Indexed, f.indexed);
    if k == |ids| then q else Mark(q, Ids(ids[k..]), Upsert, Failed, f.failed)
  }

  /** The ids whose vectors got written: those before the failing call, and that one if it took effect all the same. */
  function Reached(ids: seq<nat>, outcome: nat -> Outcome, k: nat): seq<nat>
    requires k <= |ids|
  {
    ids[..k] + if k < |ids| && outcome(k).Fails? && outcome(k).applied then [ids[k]] else []
  }

  /** Store: insert the memories, then write and mark their vectors; an incomplete insert ends it there. */
  function StoreMany(w: World, ids: seq<nat>, f: StoreFate): World {
    var n := if f.inserted < |ids| then f.inserted else |ids|;
    var stored := Insert(w, Ids(ids[..n]));
    if n < |ids| then stored else UpsertStored(stored, ids, f)
  }

  /** Delete; the second part says whether it reported success. */
  function DeleteOne(w: World, id: nat, f: DeleteFate): (World, bool) {
    var p := Mark(w.(used := w.used + {id}), {id}, Delete, Pending, f.pending);
    var q := if id in p.memories && Applies(f.repo) then Remove(p, id) else p;
    if f.repo.Fails? || id !in p.memories then (Mark(q, {id}, Delete, Failed, f.last), false)
    else
      var gone := if Applies(f.vector) then q.(vectors := q.vectors - {id}) else q;
      if f.vector.Works? then (Mark(gone, {id}, Delete, Tombstoned, f.last), true)
      else (Mark(gone, {id}, Delete, Failed, f.last), false)
  }

  /** The vector-upsert job of one memory. */
  function VectorJob(w: World, id: nat, f: JobFate): World {
    if !f.read || id !in w.memories then w
    else if !f.embed then Mark(w, {id}, Upsert, Failed, f.last)
    else
      var p := Mark(w, {id}, Upsert, Pending, f.pending);
      var q := if Applies(f.vector) then Put(p, {id}) else p;
      Mark(q, {id}, Upsert, if f.vector.Works? then Indexed else Failed, f.last)
  }

  /** Every write the ids call for works. */
  ghost predicate AllWork(ids: seq<nat>, writes: Writes) {
    ids == [] || match writes
                 case Batch(works, _) => works
                 case Each(outcome) => forall j: nat | j < |ids| :: outcome(j).Works?
  }

  /** The rows of the ids hold the state, when anything is marked, and all others what they held. */
  ghost predicate MarkedAs(was: map<nat, State>, now: map<nat, State>, ids: seq<nat>, marked: bool, state: State) {
    if marked
    then now.Keys == was.Keys + (set id | id in ids) && forall id | id in now :: now[id] == if id in ids then state else was[id]
    else now == was
  }

  lemma MarkedRows(w: World, ids: seq<nat>, op: Operation, state: State, works: bool)
    ensures var r := Mark(w, Ids(ids), op, state, works);
            && MarkedAs(w.upserts, r.upserts, ids, works && op.Upsert?, state)
            && MarkedAs(w.deletes, r.deletes, ids, works && op.Delete?, state)
  {
  }

  // ----- the stores and the code

  class Stores {
    var memories: set<nat>
    var vectors: set<nat>
    var upserts: map<nat, State>
    var deletes: map<nat, State>
    ghost var used: set<nat>

    ghost function View(): World
      reads this
    {
      World(memories, vectors, upserts, deletes, used)
    }

    constructor ()
      ensures View() == World({}, {}, map[], map[], {})
    {
      memories, vectors, upserts, deletes, used := {}, {}, map[], map[], {};
    }

    method MarkIndexState(ids: seq<nat>, op: Operation, state: State, works: bool)
      modifies this`upserts, this`deletes
      ensures View() == Mark(old(View()), Ids(ids), op, state, works)
      ensures MarkedAs(old(upserts), upserts, ids, works && op.Upsert?, state)
      ensures MarkedAs(old(deletes), deletes, ids, works && op.Delete?, state)
    {
      hide MarkedAs;
      MarkedRows(View(), ids, op, state, works);
      if !works {
        return;
      }
      MarkNothing(View(), op, state, true);
      assert Ids(ids[..0]) == {};
      hide Ids, Mark;
      for i := 0 to |ids|
        invariant View() == Mark(old(View()), Ids(ids[..i]), op, state, true)
      {
        IdsOneMore(ids, i);
        MarkOneMore(old(View()), Ids(ids[..i]), ids[i], op, state);
        match op
        case Upsert => upserts := upserts[ids[i] := state];
        case Delete => deletes := deletes[ids[i] := state];
      }
      assert ids[..|ids|] == ids;
    }

    method InsertMemories(ids: seq<nat>)
      modifies this
      ensures View() == Insert(old(View()), Ids(ids))
    {
      memories, used := memories + Ids(ids), used + Ids(ids);
      MarkIndexState(ids, Upsert, Pending, true);
    }

    method UpsertBatch(ids: seq<nat>, works: bool, applied: set<nat>)
      modifies this`vectors
      ensures View() == Put(old(View()), if works then Ids(ids) else applied * Ids(ids))
    {
      vectors := vectors + if works then Ids(ids) else applied * Ids(ids);
    }

    method UpsertVector(id: nat, outcome: Outcome) returns (ok: bool)
      modifies this`vectors
      ensures ok == outcome.Works? && View() == if Applies(outcome) then Put(old(View()), {id}) else old(View())
    {
      ok := outcome.Works?;
      if Applies(outcome) {
        vectors := vectors + {id};
      }
    }

    method UpsertStoredEmbeddings(ids: seq<nat>, f: StoreFate) returns (ok: bool)
      modifies this`vectors, this`upserts, this`deletes
      ensures View() == UpsertStored(old(View()), ids, f)
      ensures ok == AllWork(ids, f.writes)
    {
      if |ids| == 0 {
        return true;
      }
      hide Mark, WriteEach;
      MarkIndexState(ids, Upsert, Pending, f.pending);
      match f.writes
      case Batch(works, applied) =>
        UpsertBatch(ids, works, applied);
        MarkIndexState(ids, Upsert, if works then Indexed else Failed, if works then f.indexed else f.failed);
        ok := works;
      case Each(outcome) =>
        ok := UpsertEach(ids, outcome, f);
    }

    method UpsertEach(ids: seq<nat>, outcome: nat -> Outcome, f: StoreFate) returns (ok: bool)
      modifies this`vectors, this`upserts, this`deletes
      ensures View() == WriteEach(old(View()), ids, outcome, f)
      ensures ok == (FirstFailure(outcome, |ids|, 0) == |ids|)
    {
      hide Mark, Ids;
      NoIds();
      var k := 0;
      while k < |ids|
        invariant k <= |ids| && FirstFailure(outcome, |ids|, 0) == FirstFailure(outcome, |ids|, k)
        invariant View() == Put(old(View()), Ids(ids[..k]))
      {
        ok := UpsertVector(ids[k], outcome(k));
        if !ok {
          IdsOneMore(ids, k);
          assert Reached(ids, outcome, k) == if outcome(k).applied then ids[..k + 1] else ids[..k];
          assert View() == Put(old(View()), Ids(Reached(ids, outcome, k)));
          assert k == 0 ==> ids[..k] == [];
          MarkNothing(View(), Upsert, Indexed, f.indexed);
          if k > 0 {
            MarkIndexState(ids[..k], Upsert, Indexed, f.indexed);
          }
          MarkIndexState(ids[k..], Upsert, Failed, f.failed);
          return;
        }
        IdsOneMore(ids, k);
        k := k + 1;
      }
      assert ids[..k] == ids && Reached(ids, outcome, k) == ids && (k == 0 ==> ids == []);
      MarkNothing(View(), Upsert, Indexed, f.indexed);
      if k > 0 {
        MarkIndexState(ids, Upsert, Indexed, f.indexed);
      }
      ok := true;
    }

    method StoreBatch(ids: seq<nat>, f: StoreFate) returns (ok: bool)
      modifies this
      ensures View() == StoreMany(old(View()), ids, f)
      ensures ok == (f.inserted >= |ids| && AllWork(ids, f.writes))
    {
      var n := if f.inserted < |ids| then f.inserted else |ids|;
      InsertMemories(ids[..n]);
      if n < |ids| {
        return false;
      }
      assert ids[..n] == ids;
      ok := UpsertStoredEmbeddings(ids, f);
    }

    method RemoveMemory(id: nat, outcome: Outcome) returns (ok: bool)
      modifies this`memories, this`upserts, this`deletes
      ensures ok == (outcome.Works? && id in old(memories))
      ensures View() == if id in old(memories) && Applies(outcome) then Remove(old(View()), id) else old(View())
    {
      if id in memories && Applies(outcome) {
        assert Ids([id]) == {id};
        memories := memories - {id};
        MarkIndexState([id], Delete, Pending, true);
        return outcome.Works?;
      }
      return false;
    }

    method DeleteMemory(id: nat, f: DeleteFate) returns (ok: bool)
      modifies this
      ensures (View(), ok) == DeleteOne(old(View()), id, f)
      ensures ok == (id in old(memories) && f.repo.Works? && f.vector.Works?)
      ensures memories == if f.repo.Works? || f.repo.applied then old(memories) - {id} else old(memories)
      ensures vectors == if id in old(memories) && f.repo.Works? && (f.vector.Works? || f.vector.applied)
                         then old(vectors) - {id} else old(vectors)
      ensures upserts == old(upserts) && forall other | other != id :: other in deletes <==> other in old(deletes)
      ensures forall other | other in deletes && other != id :: deletes[other] == old(deletes)[other]
      ensures f.last ==> id in deletes && deletes[id] == if ok then Tombstoned else Failed
    {
      MarkIsUpdate(id);
      hide Mark;
      used := used + {id};
      assert Ids([id]) == {id};
      MarkIndexState([id], Delete, Pending, f.pending);
      var deleted := RemoveMemory(id, f.repo);
      if !deleted {
        MarkIndexState([id], Delete, Failed, f.last);
        return false;
      }
      if Applies(f.vector) {
        vectors := vectors - {id};
      }
      if f.vector.Fails? {
        MarkIndexState([id], Delete, Failed, f.last);
        return false;
      }
      MarkIndexState([id], Delete, Tombstoned, f.last);
      return true;
    }

    method HandleVectorUpsertJob(id: nat, f: JobFate) returns (ok: bool)
      modifies this`vectors, this`upserts, this`deletes
      ensures View() == VectorJob(old(View()), id, f)
      ensures ok == (f.read && (id in memories ==> f.embed && f.vector.Works?))
      ensures f.read && id in memories && f.last ==> id in upserts && upserts[id] == if ok then Indexed else Failed
      ensures vectors == if f.read && id in memories && f.embed && (f.vector.Works? || f.vector.applied)
                         then old(vectors) + {id} else old(vectors)
      ensures !f.read || id !in memories ==> upserts == old(upserts)
      ensures deletes == old(deletes) && forall other | other != id :: other in upserts <==> other in old(upserts)
      ensures forall other | other in upserts && other != id :: upserts[other] == old(upserts)[other]
    {
      if !f.read {
        return false;
      }
      if id !in memories {
        return true;
      }
      assert Ids([id]) == {id};
      if !f.embed {
        MarkIndexState([id], Upsert, Failed, f.last);
        return false;
      }
      MarkIndexState([id], Upsert, Pending, f.pending);
      ok := UpsertVector(id, f.vector);
      MarkIndexState([id], Upsert, if ok then Indexed else Failed, f.last);
    }
  }

  lemma NoIds()
    ensures Ids([]) == {}
  {
  }

  lemma IdsOneMore(ids: seq<nat>, i: nat)
    requires i < |ids|
    ensures Ids(ids[..i + 1]) == Ids(ids[..i]) + {ids[i]}
  {
    assert ids[..i + 1] == ids[..i] + [ids[i]];
  }

  lemma OneMoreRow(rows: map<nat, State>, ids: set<nat>, id: nat, state: State)
    ensures rows + (map x | x in ids + {id} :: state) == (rows + map x | x in ids :: state)[id := state]
  {
  }

  lemma MarkOneMore(w: World, ids: set<nat>, id: nat, op: Operation, state: State)
    ensures var p := Mark(w, ids, op, state, true);
            Mark(w, ids + {id}, op, state, true)
            == match op
               case Upsert => p.(upserts := p.upserts[id := state])
               case Delete => p.(deletes := p.deletes[id := state])
  {
    match op
    case Upsert => OneMoreRow(w.upserts, ids, id, state);
    case Delete => OneMoreRow(w.deletes, ids, id, state);
  }

  lemma MarkNothing(w: World, op: Operation, state: State, works: bool)
    ensures Mark(w, {}, op, state, works) == w
  {
    assert Mark(w, {}, op, state, works).upserts == w.upserts && Mark(w, {}, op, state, works).deletes == w.deletes;
  }

  // ----- what one call leaves

  /** The job's row is indexed if and only if the job reports success, and then the vector is there; or else it is failed. */
  lemma JobIndexesIff(w: World, id: nat, f: JobFate)
    requires f.read && id in w.memories && f.last
    ensures var r := VectorJob(w, id, f);
            && id in r.upserts
            && r.upserts[id] == (if f.embed && f.vector.Works? then Indexed else Failed)
            && (f.embed && f.vector.Works? ==> id in r.vectors)
            && r.vectors == (if f.embed && (f.vector.Works? || f.vector.applied) then w.vectors + {id} else w.vectors)
            && r.memories == w.memories && r.deletes == w.deletes
  {
  }

  /** The write of the i-th id worked: with the whole batch, or with all before it and itself. */
  predicate Written(writes: Writes, i: nat) {
    match writes
    case Batch(works, _) => works
    case Each(outcome) => forall j: nat | j <= i :: outcome(j).Works?
  }

  /** The vector of the i-th id got there: its write worked, or failed only after it had taken effect. */
  predicate Reaches(writes: Writes, ids: seq<nat>, i: nat)
    requires i < |ids|
  {
    match writes
    case Batch(works, applied) => works || ids[i] in applied
    case Each(outcome) => (forall j: nat | j < i :: outcome(j).Works?) && (outcome(i).Works? || outcome(i).applied)
  }

  /**
   With working marks the i-th id is indexed exactly when its own write worked, and failed otherwise; and its vector is new
   exactly when that write took effect.
   */
  ghost predicate IndexedAs(w: World, r: World, ids: seq<nat>, f: StoreFate, i: nat)
    requires i < |ids|
  {
    && (f.indexed && f.failed ==> ids[i] in r.upserts && r.upserts[ids[i]] == if Written(f.writes, i) then Indexed else Failed)
    && (ids[i] in r.vectors <==> ids[i] in w.vectors || Reaches(f.writes, ids, i))
  }

  /** A Store inserts its memories as far as that gets, and nothing more when that falls short. */
  lemma StoreIndexesIff(w: World, ids: seq<nat>, f: StoreFate, i: nat)
    requires i < |ids| && forall i, j | 0 <= i < j < |ids| :: ids[i] != ids[j]
    ensures var r, n := StoreMany(w, ids, f), if f.inserted < |ids| then f.inserted else |ids|;
            && r.memories == w.memories + (set id | id in ids[..n]) && r.deletes == w.deletes
            && (n < |ids| ==> r.vectors == w.vectors && (i < n ==> ids[i] in r.upserts && r.upserts[ids[i]] == Pending))
            && (n == |ids| ==> IndexedAs(w, r, ids, f, i))
  {
    hide UpsertStored, IndexedAs;
    var n := if f.inserted < |ids| then f.inserted else |ids|;
    var stored := Insert(w, Ids(ids[..n]));
    SplitIds(ids, n);
    MarkedRow(w.(memories := w.memories + Ids(ids[..n]), used := w.used + Ids(ids[..n])), ids[..n], Pending, true, ids[i]);
    if n == |ids| {
      UpsertStoredFacts(stored, ids, f);
      UpsertIndexesIff(stored, ids, f, i);
      SameVectorsBefore(w, stored, UpsertStored(stored, ids, f), ids, f, i);
    } else if i < n {
      assert ids[..n][i] == ids[i];
    }
  }

  lemma SameVectorsBefore(w: World, v: World, r: World, ids: seq<nat>, f: StoreFate, i: nat)
    requires i < |ids| && w.vectors == v.vectors && IndexedAs(v, r, ids, f, i)
    ensures IndexedAs(w, r, ids, f, i)
  {
  }

  /** And it touches no other id. */
  lemma StoreLeavesOthers(w: World, ids: seq<nat>, f: StoreFate, id: nat)
    requires id !in ids
    ensures var r := StoreMany(w, ids, f);
            && (id in r.memories <==> id in w.memories) && (id in r.vectors <==> id in w.vectors)
            && (id in r.upserts <==> id in w.upserts) && (id in w.upserts ==> r.upserts[id] == w.upserts[id])
  {
    hide UpsertStored;
    var n := if f.inserted < |ids| then f.inserted else |ids|;
    SplitIds(ids, n);
    MarkedRow(w.(memories := w.memories + Ids(ids[..n]), used := w.used + Ids(ids[..n])), ids[..n], Pending, true, id);
    UpsertStoredFacts(Insert(w, Ids(ids[..n])), ids, f);
  }

  lemma UpsertIndexesIff(w: World, ids: seq<nat>, f: StoreFate, i: nat)
    requires i < |ids| && forall i, j | 0 <= i < j < |ids| :: ids[i] != ids[j]
    ensures IndexedAs(w, UpsertStored(w, ids, f), ids, f, i)
  {
    var p := Mark(w, Ids(ids), Upsert, Pending, f.pending);
    MarkedRow(w, ids, Pending, f.pending, ids[i]);
    match f.writes
    case Batch(works, applied) =>
      PutVector(p, ids, ids[i]);
      MarkedRow(Put(p, Ids(ids)), ids, Indexed, f.indexed, ids[i]);
      MarkedRow(Put(p, applied * Ids(ids)), ids, Failed, f.failed, ids[i]);
    case Each(outcome) =>
      EachIndexesIff(p, ids, outcome, f, i);
      hide WriteEach, Mark, Reaches, Written;
  }

  /** What writing one by one leaves of the i-th id. */
  ghost predicate EachLeaves(p: World, ids: seq<nat>, outcome: nat -> Outcome, f: StoreFate, i: nat)
    requires i < |ids|
  {
    var r, id := WriteEach(p, ids, outcome, f), ids[i];
    && (f.indexed && f.failed ==> id in r.upserts && r.upserts[id] == if Written(Each(outcome), i) then Indexed else Failed)
    && (id in r.vectors <==> id in p.vectors || Reaches(Each(outcome), ids, i))
  }

  lemma EachIndexesIff(p: World, ids: seq<nat>, outcome: nat -> Outcome, f: StoreFate, i: nat)
    requires i < |ids| && forall i, j | 0 <= i < j < |ids| :: ids[i] != ids[j]
    ensures EachLeaves(p, ids, outcome, f, i)
  {
    var k := FirstFailure(outcome, |ids|, 0);
    var put := Put(p, Ids(Reached(ids, outcome, k)));
    var q := Mark(put, Ids(ids[..k]), Upsert, Indexed, f.indexed);
    ReachedIff(ids, outcome, i);
    PutVector(p, Reached(ids, outcome, k), ids[i]);
    MarkedRow(put, ids[..k], Indexed, f.indexed, ids[i]);
    MarkedRow(q, ids[k..], Failed, f.failed, ids[i]);
    assert ids[i] in ids[k..] <==> i >= k by {
      if i >= k {
        assert ids[k..][i - k] == ids[i];
      }
    }
    hide Mark, Reached, Reaches, Ids;
  }

  lemma PutVector(w: World, ids: seq<nat>, id: nat)
    ensures Put(w, Ids(ids)).upserts == w.upserts
    ensures id in Put(w, Ids(ids)).vectors <==> id in w.vectors || id in ids
  {
  }

  lemma MarkedRow(w: World, ids: seq<nat>, state: State, works: bool, id: nat)
    ensures var r := Mark(w, Ids(ids), Upsert, state, works);
            && r.vectors == w.vectors
            && (id in r.upserts <==> id in w.upserts || (works && id in ids))
            && (id in r.upserts ==> r.upserts[id] == if works && id in ids then state else w.upserts[id])
  {
  }

  lemma ReachedIff(ids: seq<nat>, outcome: nat -> Outcome, i: nat)
    requires i < |ids| && forall i, j | 0 <= i < j < |ids| :: ids[i] != ids[j]
    ensures var k := FirstFailure(outcome, |ids|, 0);
            && (ids[i] in Reached(ids, outcome, k) <==> Reaches(Each(outcome), ids, i))
            && (i < k <==> Written(Each(outcome), i)) && (ids[i] in ids[..k] <==> i < k)
  {
    var k := FirstFailure(outcome, |ids|, 0);
    var reached := Reached(ids, outcome, k);
    if i < k {
      assert reached[i] == ids[i];
    } else if i == k && outcome(k).applied {
      assert reached[k] == ids[k];
    }
  }

  // ----- runs

  datatype Call =
    | Store(ids: seq<nat>, storeFate: StoreFate)
    | Drop(id: nat, deleteFate: DeleteFate)
    | Job(id: nat, jobFate: JobFate)

  /** New memories get ids nobody has seen. */
  predicate Fresh(w: World, c: Call) {
    c.Store? ==> Ids(c.ids) !! w.used
  }

  function Do(w: World, c: Call): World {
    match c
    case Store(ids, f) => StoreMany(w, ids, f)
    case Drop(id, f) => DeleteOne(w, id, f).0
    case Job(id, f) => VectorJob(w, id, f)
  }

  const EMPTY := World({}, {}, map[], map[], {})

  function Run(cs: seq<Call>): World
    decreases |cs|
  {
    if cs == [] then EMPTY else Do(Run(cs[..|cs| - 1]), cs[|cs| - 1])
  }

  ghost predicate AllFresh(cs: seq<Call>)
    decreases |cs|
  {
    cs == [] || (AllFresh(cs[..|cs| - 1]) && Fresh(Run(cs[..|cs| - 1]), cs[|cs| - 1]))
  }

  function Rows(w: World, op: Operation): map<nat, State> {
    match op
    case Upsert => w.upserts
    case Delete => w.deletes
  }

  predicate Is(w: World, id: nat, op: Operation, state: State) {
    id in Rows(w, op) && Rows(w, op)[id] == state
  }

  ghost predicate Inv(w: World) {
    && w.memories <= w.used && w.vectors <= w.used && w.upserts.Keys <= w.used && w.deletes.Keys <= w.used
    && (forall id | id in w.upserts :: w.upserts[id] == Indexed && id in w.memories ==> id in w.vectors)
    && (forall id | id in w.deletes :: w.deletes[id] == Tombstoned ==> Gone(w, id))
  }

  predicate Gone(w: World, id: nat) {
    id in w.used && id !in w.memories && id !in w.vectors
  }

  lemma SplitIds(ids: seq<nat>, k: nat)
    requires k <= |ids|
    ensures Ids(ids) == Ids(ids[..k]) + Ids(ids[k..])
    ensures k == |ids| ==> ids[..k] == ids
  {
    assert ids == ids[..k] + ids[k..];
  }

  /** Writing vectors touches only the given ids, marks as indexed only written ones and, marks working, settles them all. */
  lemma UpsertStoredFacts(w: World, ids: seq<nat>, f: StoreFate)
    ensures var r := UpsertStored(w, ids, f);
            && r.memories == w.memories && r.used == w.used && r.deletes == w.deletes
            && w.vectors <= r.vectors <= w.vectors + Ids(ids)
            && w.upserts.Keys <= r.upserts.Keys <= w.upserts.Keys + Ids(ids)
            && (forall id | id in w.upserts && id !in Ids(ids) :: r.upserts[id] == w.upserts[id])
            && (forall id | id in Ids(ids) && id in r.upserts ::
                  || (id in w.upserts && r.upserts[id] == w.upserts[id])
                  || r.upserts[id] == Pending || r.upserts[id] == Failed || (r.upserts[id] == Indexed && id in r.vectors))
            && (f.indexed && f.failed ==>
                  forall id | id in Ids(ids) :: id in r.upserts && (r.upserts[id] == Indexed || r.upserts[id] == Failed))
  {
    hide WriteEach;
    if ids != [] && f.writes.Each? {
      EachFacts(Mark(w, Ids(ids), Upsert, Pending, f.pending), ids, f.writes.outcome, f);
    }
  }

  lemma EachFacts(p: World, ids: seq<nat>, outcome: nat -> Outcome, f: StoreFate)
    ensures var r := WriteEach(p, ids, outcome, f);
            && r.memories == p.memories && r.used == p.used && r.deletes == p.deletes
            && p.vectors <= r.vectors <= p.vectors + Ids(ids)
            && p.upserts.Keys <= r.upserts.Keys <= p.upserts.Keys + Ids(ids)
            && (forall id | id in p.upserts && id !in Ids(ids) :: r.upserts[id] == p.upserts[id])
            && (forall id | id in Ids(ids) && id in r.upserts ::
                  || (id in p.upserts && r.upserts[id] == p.upserts[id])
                  || r.upserts[id] == Failed || (r.upserts[id] == Indexed && id in r.vectors))
            && (f.indexed && f.failed ==>
                  forall id | id in Ids(ids) :: id in r.upserts && (r.upserts[id] == Indexed || r.upserts[id] == Failed))
  {
    var k := FirstFailure(outcome, |ids|, 0);
    SplitIds(ids, k);
    assert Ids(ids[..k]) <= Ids(Reached(ids, outcome, k)) <= Ids(ids);
  }

  /** The call is a Delete of this id, and takes it out of the memory store. */
  predicate Removes(w: World, c: Call, id: nat) {
    c.Drop? && c.id == id && id in w.memories && Applies(c.deleteFate.repo)
  }

  /** It got as far as the vector store, and the call there took effect. */
  predicate RemovesVector(c: Call)
    requires c.Drop?
  {
    c.deleteFate.repo.Works? && Applies(c.deleteFate.vector)
  }

  /** A Store touches only its own ids, writes only vectors of memories it inserted and marks as indexed only written ones. */
  lemma StoreFacts(w: World, ids: seq<nat>, f: StoreFate)
    ensures var r := StoreMany(w, ids, f);
            && r.deletes == w.deletes && w.used <= r.used <= w.used + Ids(ids)
            && w.memories <= r.memories <= (w.memories + Ids(ids)) * (w.memories + r.used)
            && w.vectors <= r.vectors <= w.vectors + (Ids(ids) * r.memories)
            && w.upserts.Keys <= r.upserts.Keys <= w.upserts.Keys + (Ids(ids) * r.used)
            && (forall id | id in w.upserts && id !in Ids(ids) :: r.upserts[id] == w.upserts[id])
            && (forall id | id in r.upserts && id in Ids(ids) && r.upserts[id] == Indexed ::
                  id in r.vectors || (id in w.upserts && w.upserts[id] == Indexed))
  {
    hide UpsertStored;
    var n := if f.inserted < |ids| then f.inserted else |ids|;
    SplitIds(ids, n);
    UpsertStoredFacts(Insert(w, Ids(ids[..n])), ids, f);
  }

  /** A Delete touches its own id only, each store exactly when it went through there, and tombstones only after both. */
  lemma DeleteFacts(w: World, id: nat, f: DeleteFate)
    ensures var r, c := DeleteOne(w, id, f).0, Drop(id, f);
            && r.used == w.used + {id} && r.upserts == w.upserts
            && r.memories == (if Removes(w, c, id) then w.memories - {id} else w.memories)
            && r.vectors == (if Removes(w, c, id) && RemovesVector(c) then w.vectors - {id} else w.vectors)
            && w.deletes.Keys <= r.deletes.Keys <= w.deletes.Keys + {id}
            && (forall x | x in w.deletes && x != id :: r.deletes[x] == w.deletes[x])
            && (id in r.deletes && r.deletes[id] == Tombstoned ==>
                  (id in w.deletes && w.deletes[id] == Tombstoned) || (Removes(w, c, id) && RemovesVector(c)))
    ensures DeleteOne(w, id, f).1 <==> id in w.memories && f.repo.Works? && f.vector.Works?
  {
    hide Mark;
    MarkIsUpdate(id);
  }

  lemma MarkIsUpdate(id: nat)
    ensures forall w: World, state: State, works: bool ::
              Mark(w, {id}, Delete, state, works) == if works then w.(deletes := w.deletes[id := state]) else w
  {
    forall w: World, state: State, works: bool
      ensures Mark(w, {id}, Delete, state, works) == if works then w.(deletes := w.deletes[id := state]) else w
    {
      if works {
        var ids := {id};
        assert w.deletes + (map x | x in ids :: state) == w.deletes[id := state];
      }
    }
  }

  lemma StoreKeepsInv(w: World, ids: seq<nat>, f: StoreFate)
    requires Inv(w) && Ids(ids) !! w.used
    ensures Inv(StoreMany(w, ids, f))
  {
    hide StoreMany;
    StoreFacts(w, ids, f);
  }

  lemma DeleteKeepsInv(w: World, id: nat, f: DeleteFate)
    requires Inv(w)
    ensures Inv(DeleteOne(w, id, f).0)
  {
    hide DeleteOne;
    DeleteFacts(w, id, f);
  }

  lemma JobKeepsInv(w: World, id: nat, f: JobFate)
    requires Inv(w)
    ensures Inv(VectorJob(w, id, f))
  {
  }

  lemma CallKeepsInv(w: World, c: Call)
    requires Inv(w) && Fresh(w, c)
    ensures Inv(Do(w, c))
  {
    hide StoreMany, DeleteOne, VectorJob;
    match c
    case Store(ids, f) => StoreKeepsInv(w, ids, f);
    case Drop(id, f) => DeleteKeepsInv(w, id, f);
    case Job(id, f) => JobKeepsInv(w, id, f);
  }

  /**
   In every run, whatever fails: a memory that is there and recorded as indexed has its vector, and a memory recorded as
   tombstoned is in neither store.
   */
  lemma {:induction false} EveryRunKeepsInv(cs: seq<Call>)
    requires AllFresh(cs)
    ensures Inv(Run(cs))
    decreases |cs|
  {
    if cs != [] {
      EveryRunKeepsInv(cs[..|cs| - 1]);
      CallKeepsInv(Run(cs[..|cs| - 1]), cs[|cs| - 1]);
    }
  }

  /** Once gone from both stores an id stays gone, whatever is called after. */
  lemma GoneForGood(w: World, c: Call, id: nat)
    requires Gone(w, id) && Fresh(w, c)
    ensures Gone(Do(w, c), id)
  {
    hide StoreMany, DeleteOne;
    if c.Store? {
      StoreFacts(w, c.ids, c.storeFate);
    } else if c.Drop? {
      DeleteFacts(w, c.id, c.deleteFate);
    }
  }

  lemma {:induction false} TombstonedForGood(cs: seq<Call>, n: nat, id: nat)
    requires AllFresh(cs) && n <= |cs| && AllFresh(cs[..n]) && Is(Run(cs[..n]), id, Delete, Tombstoned)
    ensures Gone(Run(cs), id)
    decreases |cs|
  {
    if n == |cs| {
      assert cs[..n] == cs;
      EveryRunKeepsInv(cs);
    } else {
      assert cs[..|cs| - 1][..n] == cs[..n];
      TombstonedForGood(cs[..|cs| - 1], n, id);
      GoneForGood(Run(cs[..|cs| - 1]), cs[|cs| - 1], id);
    }
  }

  /** The last mark of a call is what it leaves: with that mark working none of its ids is left pending. */
  lemma NothingLeftPending(w: World, c: Call, id: nat)
    requires match c
             case Store(ids, f) => f.inserted >= |ids| && f.indexed && f.failed && id in ids
             case Drop(i, f) => f.last && id == i
             case Job(i, f) => f.last && f.read && i in w.memories && id == i
    ensures !Is(Do(w, c), id, if c.Drop? then Delete else Upsert, Pending)
    ensures !c.Drop? ==> Is(Do(w, c), id, Upsert, Indexed) || Is(Do(w, c), id, Upsert, Failed)
    ensures c.Drop? ==> (Is(Do(w, c), id, Delete, Tombstoned) <==> DeleteOne(w, c.id, c.deleteFate).1)
  {
    hide UpsertStored;
    if c.Store? {
      SplitIds(c.ids, |c.ids|);
      UpsertStoredFacts(Insert(w, Ids(c.ids)), c.ids, c.storeFate);
    }
  }

  // ----- what the upsert row alone does and does not say

  /** Some call among these took the id out of both stores. */
  ghost predicate Erased(cs: seq<Call>, id: nat)
    decreases |cs|
  {
    cs != [] && (Erased(cs[..|cs| - 1], id)
                 || (Removes(Run(cs[..|cs| - 1]), cs[|cs| - 1], id) && RemovesVector(cs[|cs| - 1])))
  }

  /** Some call among these took the id out of the memory store only, and its vector was there. */
  ghost predicate Orphaned(cs: seq<Call>, id: nat)
    decreases |cs|
  {
    cs != [] && (Orphaned(cs[..|cs| - 1], id)
                 || (Removes(Run(cs[..|cs| - 1]), cs[|cs| - 1], id) && !RemovesVector(cs[|cs| - 1])
                     && id in Run(cs[..|cs| - 1]).vectors))
  }

  ghost predicate Exact(w: World, erased: bool, id: nat) {
    && (erased ==> Gone(w, id))
    && (!erased && Is(w, id, Upsert, Indexed) ==> id in w.vectors)
  }

  lemma CallKeepsExact(w: World, c: Call, erased: bool, id: nat)
    requires Inv(w) && Fresh(w, c) && Exact(w, erased, id)
    ensures Exact(Do(w, c), erased || (Removes(w, c, id) && RemovesVector(c)), id)
  {
    hide StoreMany, DeleteOne;
    if erased {
      GoneForGood(w, c, id);
    } else if c.Store? {
      StoreFacts(w, c.ids, c.storeFate);
    } else if c.Drop? {
      DeleteFacts(w, c.id, c.deleteFate);
    }
  }

  /**
   For an id whose upsert row says indexed the vector is present exactly when no Delete of that id went through in both
   stores, whether or not it said so.
   */
  lemma {:induction false} IndexedMeansPresentIff(cs: seq<Call>, id: nat)
    requires AllFresh(cs)
    ensures Is(Run(cs), id, Upsert, Indexed) ==> (id in Run(cs).vectors <==> !Erased(cs, id))
    ensures Exact(Run(cs), Erased(cs, id), id)
    decreases |cs|
  {
    if cs != [] {
      IndexedMeansPresentIff(cs[..|cs| - 1], id);
      EveryRunKeepsInv(cs[..|cs| - 1]);
      CallKeepsExact(Run(cs[..|cs| - 1]), cs[|cs| - 1], Erased(cs[..|cs| - 1], id), id);
    }
  }

  const SMOOTH := StoreFate(1, true, Batch(true, {}), true, true)

  /** Stored and deleted without a single failure, and the upsert row still says indexed. */
  lemma StaleIndexedRow()
    ensures var w := Run([Store([0], SMOOTH), Drop(0, DeleteFate(true, Works, Works, true))]);
            Is(w, 0, Upsert, Indexed) && Is(w, 0, Delete, Tombstoned) && Gone(w, 0)
  {
    var cs := [Store([0], SMOOTH), Drop(0, DeleteFate(true, Works, Works, true))];
    assert cs[..1] == [Store([0], SMOOTH)] && [Store([0], SMOOTH)][..0] == [];
    assert Ids([0]) == {0} && [0][..1] == [0];
    assert Run(cs[..1]) == StoreMany(EMPTY, [0], SMOOTH);
  }

  predicate Orphan(w: World, id: nat) {
    id !in w.memories && id in w.vectors
  }

  /** Stored smoothly, then deleted with a failing vector call: the memory is gone, its vector and its upsert row are not. */
  lemma OrphanArises()
    ensures var w := Run([Store([0], SMOOTH), Drop(0, DeleteFate(true, Works, Fails(false), true))]);
            Orphan(w, 0) && Is(w, 0, Upsert, Indexed) && Is(w, 0, Delete, Failed)
  {
    var cs := [Store([0], SMOOTH), Drop(0, DeleteFate(true, Works, Fails(false), true))];
    assert cs[..1] == [Store([0], SMOOTH)] && [Store([0], SMOOTH)][..0] == [];
    assert Ids([0]) == {0} && [0][..1] == [0];
    assert Run(cs[..1]) == StoreMany(EMPTY, [0], SMOOTH);
  }

  /** A call leaves a vector without its memory exactly when it found one or took away the memory alone. */
  lemma CallOrphansIff(w: World, c: Call, id: nat)
    requires Inv(w) && Fresh(w, c)
    ensures Orphan(Do(w, c), id) <==> Orphan(w, id) || (Removes(w, c, id) && !RemovesVector(c) && id in w.vectors)
  {
    hide StoreMany, DeleteOne;
    if c.Store? {
      StoreFacts(w, c.ids, c.storeFate);
    } else if c.Drop? {
      DeleteFacts(w, c.id, c.deleteFate);
    }
  }

  /** So at the end of a run the vectors without a memory are those some Delete left behind; none is ever cleared. */
  lemma {:induction false} OrphansAreLeftIff(cs: seq<Call>, id: nat)
    requires AllFresh(cs)
    ensures Orphan(Run(cs), id) <==> Orphaned(cs, id)
    decreases |cs|
  {
    if cs != [] {
      OrphansAreLeftIff(cs[..|cs| - 1], id);
      EveryRunKeepsInv(cs[..|cs| - 1]);
      CallOrphansIff(Run(cs[..|cs| - 1]), cs[|cs| - 1], id);
    }
  }

  /** A vector that outlived its memory is out of reach: no later call, and no Delete of that id, removes it. */
  lemma OrphanStays(w: World, c: Call, id: nat)
    requires id in w.used && Orphan(w, id) && Fresh(w, c)
    ensures Orphan(Do(w, c), id)
    ensures c.Drop? && c.id == id ==> !DeleteOne(w, id, c.deleteFate).1
  {
    hide StoreMany, DeleteOne;
    if c.Store? {
      StoreFacts(w, c.ids, c.storeFate);
    } else if c.Drop? {
      DeleteFacts(w, c.id, c.deleteFate);
    }
  }
}
