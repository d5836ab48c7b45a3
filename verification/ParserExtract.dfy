/** The parser-extract job: each parsed fact is matched with a stored memory or stored as a new one. */
module ParserExtract {
  import opened Optional
  import opened Text
  import opened ParsedFacts
  import E = EntityFacts

  datatype Applied = Dropped | Matched(id: nat) | Created(id: nat)

  function KeyOf(t: Turn, i: nat, c: Setup): string
    requires i < |t.facts|
  {
    c.rules.factKey(t.source, i, t.facts[i])
  }

  function NewMemory(t: Turn, i: nat, c: Setup): Memory
    requires i < |t.facts|
  {
    Memory(t.tenant, c.rules.normalize(t.facts[i].content), KeyOf(t, i, c), false)
  }

  /** applyParsedFactMetadataOnly for the i-th fact of a turn. */
  function Decide(s: Store, rows: seq<E.Row>, t: Turn, i: nat, c: Setup): Applied
    requires i < |t.facts|
  {
    if !Storable(c.rules, t.facts[i]) then Dropped
    else
      var byKey := FindByKey(s, t.tenant, KeyOf(t, i, c));
      if byKey.Some? then Matched(byKey.value)
      else
        var byTuple := FindByTuple(s, rows, t.tenant, t.facts[i], c);
        if byTuple.Some? then Matched(byTuple.value) else Created(s.nextId)
  }

  function ApplyOne(s: Store, rows: seq<E.Row>, t: Turn, i: nat, c: Setup): Store
    requires i < |t.facts|
  {
    if Decide(s, rows, t, i, c).Created? then s.Insert(NewMemory(t, i, c)) else s
  }

  /** The store after the first n facts of a turn. */
  function Apply(s: Store, rows: seq<E.Row>, t: Turn, n: nat, c: Setup): Store
    requires n <= |t.facts|
  {
    if n == 0 then s else ApplyOne(Apply(s, rows, t, n - 1, c), rows, t, n - 1, c)
  }

  // ----- the job

  class Repository {
    var store: Store
    var rows: seq<E.Row>

    constructor ()
      ensures store == Store(map[], 0) && rows == []
    {
      store, rows := Store(map[], 0), [];
    }

    method FindByCanonicalKey(tenant: string, key: string) returns (r: Option<nat>)
      ensures r == FindByKey(store, tenant, key)
    {
      if Blank(key) {
        return None;
      }
      var id := 0;
      while id < store.nextId
        invariant id <= store.nextId
        invariant FirstWithKey(store, tenant, key, 0) == FirstWithKey(store, tenant, key, id)
      {
        if HasKey(store, id, tenant, key) {
          return Some(id);
        }
        id := id + 1;
      }
      return None;
    }

    method ApplyParsedFact(t: Turn, i: nat, c: Setup) returns (r: Applied)
      requires i < |t.facts|
      modifies this`store
      ensures r == Decide(old(store), rows, t, i, c)
      ensures store == ApplyOne(old(store), rows, t, i, c)
      ensures r.Created? ==> r.id == old(store.nextId) && store.nextId == r.id + 1
      ensures !r.Created? ==> store == old(store)
      ensures r.Dropped? <==> c.rules.normalize(t.facts[i].content) == "" || !c.rules.informative(c.rules.normalize(t.facts[i].content))
      ensures r.Matched? ==>
                || FindByTuple(store, rows, t.tenant, t.facts[i], c) == Some(r.id)
                || (r.id in store.memories && store.memories[r.id].tenant == t.tenant
                    && store.memories[r.id].canonicalKey == c.rules.factKey(t.source, i, t.facts[i]))
      ensures r.Created? ==>
                && FindByTuple(old(store), rows, t.tenant, t.facts[i], c).None?
                && store == Store(old(store).memories[r.id := Memory(t.tenant, c.rules.normalize(t.facts[i].content),
                                                                     c.rules.factKey(t.source, i, t.facts[i]), false)], r.id + 1)
      ensures r.Created? && old(store).Valid() ==>
                || Blank(c.rules.factKey(t.source, i, t.facts[i]))
                || forall id | id in old(store).memories && old(store).memories[id].tenant == t.tenant ::
                     old(store).memories[id].canonicalKey != c.rules.factKey(t.source, i, t.facts[i])
    {
      var content := c.rules.normalize(t.facts[i].content);
      if content == "" || !c.rules.informative(content) {
        return Dropped;
      }
      var key := c.rules.factKey(t.source, i, t.facts[i]);
      var exact := FindByCanonicalKey(t.tenant, key);
      if exact.Some? {
        return Matched(exact.value);
      }
      exact := FindByTuple(store, rows, t.tenant, t.facts[i], c);
      if exact.Some? {
        return Matched(exact.value);
      }
      r := Created(store.nextId);
      assert store.Valid() && !Blank(key) ==> forall id | id in store.memories :: !HasKey(store, id, t.tenant, key);
      store := Store(store.memories[store.nextId := Memory(t.tenant, content, key, false)], store.nextId + 1);
    }

    /** One turn of the fact loop: `seen` and `enqueue` gain the memory if this fact created it. */
    method ApplyAndCollect(t: Turn, i: nat, c: Setup, seen: set<nat>, enqueue: seq<nat>) returns (seen': set<nat>, enqueue': seq<nat>)
      requires i < |t.facts| && forall id | id in seen :: id < store.nextId
      modifies this`store
      ensures store == ApplyOne(old(store), rows, t, i, c) && old(store.nextId) <= store.nextId
      ensures enqueue' == enqueue + IdsFrom(old(store.nextId), store.nextId)
      ensures forall id | id in seen' :: id < store.nextId
    {
      hide Decide;
      seen', enqueue' := seen, enqueue;
      var r := ApplyParsedFact(t, i, c);
      if r.Created? && r.id !in seen {
        seen' := seen + {r.id};
        enqueue' := enqueue + [r.id];
      }
    }

    /**
     The fact loop of handleParserExtractPostprocessJob; it errs after `steps` facts. The memories to enqueue vector
     jobs for are exactly the ones this execution created, each once, in order.
     */
    method ExtractFacts(t: Turn, c: Setup, steps: nat)
        returns (ok: bool, enqueue: seq<nat>)
      modifies this`store
      ensures ok == (steps >= |t.facts|)
      ensures store == Apply(old(store), rows, t, if ok then |t.facts| else steps, c)
      ensures old(store.nextId) <= store.nextId && enqueue == IdsFrom(old(store.nextId), store.nextId)
    {
      hide Decide;
      enqueue := [];
      var seen: set<nat> := {};
      for i := 0 to |t.facts|
        invariant i <= steps
        invariant store == Apply(old(store), rows, t, i, c) && old(store.nextId) <= store.nextId
        invariant enqueue == IdsFrom(old(store.nextId), store.nextId)
        invariant forall id | id in seen :: id < store.nextId
      {
        if i == steps {
          return false, enqueue;
        }
        seen, enqueue := ApplyAndCollect(t, i, c, seen, enqueue);
      }
      ok := true;
    }
  }

  function IdsFrom(from: nat, to: nat): (ids: seq<nat>)
    requires from <= to
    ensures |ids| == to - from && forall j | 0 <= j < |ids| :: ids[j] == from + j
  {
    seq(to - from, j requires 0 <= j => from + j)
  }

  // ----- failing and running again

  /** `later` has every memory of `s`, unchanged. */
  ghost predicate Grown(s: Store, later: Store) {
    s.nextId <= later.nextId && forall id | id in s.memories :: id in later.memories && later.memories[id] == s.memories[id]
  }

  lemma {:induction false} ApplyGrows(s: Store, rows: seq<E.Row>, t: Turn, m: nat, n: nat, c: Setup)
    requires s.Valid() && m <= n <= |t.facts|
    ensures Apply(s, rows, t, m, c).Valid() && Apply(s, rows, t, n, c).Valid()
    ensures Grown(Apply(s, rows, t, m, c), Apply(s, rows, t, n, c))
    decreases n
  {
    if n > 0 {
      ApplyGrows(s, rows, t, if m == n then n - 1 else m, n - 1, c);
    }
  }

  lemma MatchesStay(s: Store, later: Store, rows: seq<E.Row>, t: Turn, i: nat, c: Setup)
    requires i < |t.facts| && s.Valid() && later.Valid() && Grown(s, later)
    requires !Decide(s, rows, t, i, c).Created?
    ensures !Decide(later, rows, t, i, c).Created?
  {
    if Storable(c.rules, t.facts[i]) {
      var byKey := FindByKey(s, t.tenant, KeyOf(t, i, c));
      if byKey.Some? {
        assert HasKey(later, byKey.value, t.tenant, KeyOf(t, i, c));
      } else {
        var tuple := TupleOf(c.rules, t.facts[i]).value;
        var listed := List(rows, t.tenant, tuple, LIST_LIMIT);
        var row :| row in listed && Hits(s, row, t.tenant, tuple, c);
        assert Hits(later, row, t.tenant, tuple, c);
      }
    }
  }

  lemma KeyedIsNotCreated(s: Store, rows: seq<E.Row>, t: Turn, i: nat, c: Setup, id: nat)
    requires i < |t.facts| && s.Valid() && HasKey(s, id, t.tenant, KeyOf(t, i, c)) && !Blank(KeyOf(t, i, c))
    ensures !Decide(s, rows, t, i, c).Created?
  {
  }

  lemma CreatedIsFound(s: Store, later: Store, rows: seq<E.Row>, t: Turn, i: nat, c: Setup)
    requires i < |t.facts| && s.Valid() && later.Valid() && KeysNotBlank(c)
    requires Grown(ApplyOne(s, rows, t, i, c), later)
    ensures !Decide(later, rows, t, i, c).Created?
  {
    hide Decide;
    if Decide(s, rows, t, i, c).Created? {
      assert HasKey(later, s.nextId, t.tenant, KeyOf(t, i, c));
      KeyedIsNotCreated(later, rows, t, i, c, s.nextId);
    } else {
      MatchesStay(s, later, rows, t, i, c);
    }
  }

  lemma GrownTransitive(a: Store, b: Store, d: Store)
    requires Grown(a, b) && Grown(b, d)
    ensures Grown(a, d)
  {
  }

  /** Applied to a store that already holds what the first n facts made, the n facts add nothing. */
  lemma {:induction false} ReplayAddsNothing(s: Store, held: Store, rows: seq<E.Row>, t: Turn, n: nat, c: Setup)
    requires s.Valid() && held.Valid() && KeysNotBlank(c) && n <= |t.facts|
    requires Grown(Apply(s, rows, t, n, c), held)
    ensures Apply(held, rows, t, n, c) == held
    decreases n
  {
    hide Decide, Grown, NewMemory;
    if n > 0 {
      var p := Apply(s, rows, t, n - 1, c);
      ApplyGrows(s, rows, t, n - 1, n, c);
      CreatedIsFound(p, held, rows, t, n - 1, c);
      GrownTransitive(p, Apply(s, rows, t, n, c), held);
      ReplayAddsNothing(s, held, rows, t, n - 1, c);
    }
  }

  /**
   Two executions of the same parse, the first breaking off after k facts and the second after n: together they leave
   what one execution of the longer of the two leaves, memory for memory and id for id.
   */
  lemma {:induction false} RerunRejoins(s: Store, rows: seq<E.Row>, t: Turn, k: nat, n: nat, c: Setup)
    requires s.Valid() && KeysNotBlank(c) && k <= |t.facts| && n <= |t.facts|
    ensures Apply(Apply(s, rows, t, k, c), rows, t, n, c) == Apply(s, rows, t, if k <= n then n else k, c)
    decreases n
  {
    if n <= k {
      ApplyGrows(s, rows, t, n, k, c);
      ReplayAddsNothing(s, Apply(s, rows, t, k, c), rows, t, n, c);
    } else {
      RerunRejoins(s, rows, t, k, n - 1, c);
    }
  }

  predicate Within(ks: seq<nat>, n: nat) {
    forall i | 0 <= i < |ks| :: ks[i] <= n
  }

  /** The store after attempts that broke off after so many facts each. */
  function Attempts(s: Store, rows: seq<E.Row>, t: Turn, ks: seq<nat>, c: Setup): Store
    requires Within(ks, |t.facts|)
    decreases |ks|
  {
    if ks == [] then s
    else Apply(Attempts(s, rows, t, ks[..|ks| - 1], c), rows, t, ks[|ks| - 1], c)
  }

  /** However often the job broke off among its facts, the run that gets through leaves what one clean run leaves. */
  lemma {:induction false} RetriesEqualOneCleanRun(s: Store, rows: seq<E.Row>, t: Turn, ks: seq<nat>, c: Setup)
    requires s.Valid() && KeysNotBlank(c) && Within(ks, |t.facts|)
    ensures Apply(Attempts(s, rows, t, ks, c), rows, t, |t.facts|, c)
            == Apply(s, rows, t, |t.facts|, c)
  {
    var m := AttemptsReach(s, rows, t, ks, c);
    RerunRejoins(s, rows, t, m, |t.facts|, c);
  }

  lemma {:induction false} AttemptsReach(s: Store, rows: seq<E.Row>, t: Turn, ks: seq<nat>, c: Setup)
      returns (m: nat)
    requires s.Valid() && KeysNotBlank(c) && Within(ks, |t.facts|)
    ensures m <= |t.facts| && Attempts(s, rows, t, ks, c) == Apply(s, rows, t, m, c)
    decreases |ks|
  {
    if ks == [] {
      m := 0;
    } else {
      m := AttemptsReach(s, rows, t, ks[..|ks| - 1], c);
      var k := ks[|ks| - 1];
      RerunRejoins(s, rows, t, m, k, c);
      m := if m <= k then k else m;
    }
  }

  // ----- what a clean run leaves

  lemma FoundInTheEnd(s: Store, rows: seq<E.Row>, t: Turn, i: nat, c: Setup)
    requires s.Valid() && KeysNotBlank(c) && i < |t.facts| && Storable(c.rules, t.facts[i])
    ensures !Decide(Apply(s, rows, t, |t.facts|, c), rows, t, i, c).Created?
  {
    hide Decide;
    ApplyGrows(s, rows, t, i, |t.facts|, c);
    ApplyGrows(s, rows, t, i + 1, |t.facts|, c);
    CreatedIsFound(Apply(s, rows, t, i, c), Apply(s, rows, t, |t.facts|, c), rows, t, i, c);
  }

  /** After a clean run every storable fact of the turn has a memory of its tenant under its key, or one its tuple finds. */
  lemma EveryFactIsFound(s: Store, rows: seq<E.Row>, t: Turn, i: nat, c: Setup)
    requires s.Valid() && KeysNotBlank(c) && i < |t.facts| && c.rules.normalize(t.facts[i].content) != ""
    requires c.rules.informative(c.rules.normalize(t.facts[i].content))
    ensures var end := Apply(s, rows, t, |t.facts|, c);
            || FindByTuple(end, rows, t.tenant, t.facts[i], c).Some?
            || exists id :: && id in end.memories && end.memories[id].tenant == t.tenant
                            && end.memories[id].canonicalKey == c.rules.factKey(t.source, i, t.facts[i])
  {
    FoundInTheEnd(s, rows, t, i, c);
    var end := Apply(s, rows, t, |t.facts|, c);
    hide Apply, FindByTuple;
    var byKey := FindByKey(end, t.tenant, KeyOf(t, i, c));
    assert byKey.Some? ==> HasKey(end, byKey.value, t.tenant, KeyOf(t, i, c));
  }

  /** The memory of an id is fact i of the turn. */
  ghost predicate IsFact(m: Memory, t: Turn, i: nat, c: Setup) {
    && i < |t.facts| && m == Memory(t.tenant, c.rules.normalize(t.facts[i].content), c.rules.factKey(t.source, i, t.facts[i]), false)
    && m.content != "" && c.rules.informative(m.content)
  }

  /** And everything it adds is a fact of the turn, stored with its normalised text, its own key and its turn's tenant. */
  lemma {:induction false} AddedAreFacts(s: Store, rows: seq<E.Row>, t: Turn, n: nat, c: Setup, id: nat)
    requires s.Valid() && n <= |t.facts| && id in Apply(s, rows, t, n, c).memories
    ensures var end := Apply(s, rows, t, n, c);
            if id in s.memories then end.memories[id] == s.memories[id] else exists i :: 0 <= i < n && IsFact(end.memories[id], t, i, c)
    decreases n
  {
    if n > 0 {
      var p := Apply(s, rows, t, n - 1, c);
      ApplyGrows(s, rows, t, 0, n - 1, c);
      if id in p.memories {
        AddedAreFacts(s, rows, t, n - 1, c, id);
      } else {
        assert Decide(p, rows, t, n - 1, c).Created? && id == p.nextId;
        assert IsFact(ApplyOne(p, rows, t, n - 1, c).memories[id], t, n - 1, c);
      }
    }
  }

  // ----- failing after the facts: the entity table may have changed

  /** Every storable fact still finds a memory, by its key or by its tuple. */
  ghost predicate StillFound(s: Store, rows: seq<E.Row>, t: Turn, n: nat, c: Setup)
    requires n <= |t.facts|
  {
    forall i | 0 <= i < n ::
      Storable(c.rules, t.facts[i]) ==>
        FindByKey(s, t.tenant, KeyOf(t, i, c)).Some? || FindByTuple(s, rows, t.tenant, t.facts[i], c).Some?
  }

  /** A run over any entity table adds nothing exactly when every storable fact is found beforehand. */
  lemma {:induction false} RunAddsNothingIff(s: Store, rows: seq<E.Row>, t: Turn, n: nat, c: Setup)
    requires s.Valid() && n <= |t.facts|
    ensures Apply(s, rows, t, n, c) == s <==> StillFound(s, rows, t, n, c)
    ensures s.nextId <= Apply(s, rows, t, n, c).nextId
    ensures Apply(s, rows, t, n, c) == s <==> s.nextId == Apply(s, rows, t, n, c).nextId
    decreases n
  {
    if n > 0 {
      RunAddsNothingIff(s, rows, t, n - 1, c);
    }
  }

  /** In the first attempt fact i was matched by its tuple alone. */
  ghost predicate MatchedByTuple(s: Store, rows: seq<E.Row>, t: Turn, i: nat, c: Setup)
    requires i < |t.facts|
  {
    var p := Apply(s, rows, t, i, c);
    && Storable(c.rules, t.facts[i]) && FindByKey(p, t.tenant, KeyOf(t, i, c)).None?
    && FindByTuple(p, rows, t.tenant, t.facts[i], c).Some?
  }

  /** Those facts still find a memory, by a tuple that is still there or under a key a later fact brought. */
  ghost predicate TuplesStillFound(s: Store, rows: seq<E.Row>, changed: seq<E.Row>, t: Turn, c: Setup) {
    var clean := Apply(s, rows, t, |t.facts|, c);
    forall i | 0 <= i < |t.facts| && MatchedByTuple(s, rows, t, i, c) ::
      FindByTuple(clean, changed, t.tenant, t.facts[i], c).Some? || FindByKey(clean, t.tenant, KeyOf(t, i, c)).Some?
  }

  /** Any other storable fact has a memory under its own key from then on. */
  lemma OthersKeepTheirKey(s: Store, rows: seq<E.Row>, t: Turn, i: nat, c: Setup)
    requires s.Valid() && KeysNotBlank(c) && i < |t.facts| && Storable(c.rules, t.facts[i]) && !MatchedByTuple(s, rows, t, i, c)
    ensures FindByKey(Apply(s, rows, t, |t.facts|, c), t.tenant, KeyOf(t, i, c)).Some?
  {
    var p, clean := Apply(s, rows, t, i, c), Apply(s, rows, t, |t.facts|, c);
    ApplyGrows(s, rows, t, i, |t.facts|, c);
    ApplyGrows(s, rows, t, i + 1, |t.facts|, c);
    var byKey := FindByKey(p, t.tenant, KeyOf(t, i, c));
    assert HasKey(clean, if byKey.Some? then byKey.value else p.nextId, t.tenant, KeyOf(t, i, c));
  }

  /**
   When the first attempt got through all its facts and failed later, leaving the entity table as `changed`, running
   again ends with the clean run's memories exactly when each storable fact is found in what that attempt left: with
   keys that are never blank, as the hashes are, exactly when those matched by their tuple alone are.
   */
  lemma LateRetryEqualsCleanRunIff(s: Store, rows: seq<E.Row>, changed: seq<E.Row>, t: Turn, c: Setup)
    requires s.Valid()
    ensures var clean := Apply(s, rows, t, |t.facts|, c);
            && (Apply(clean, changed, t, |t.facts|, c) == clean <==> StillFound(clean, changed, t, |t.facts|, c))
            && (KeysNotBlank(c) ==>
                  (Apply(clean, changed, t, |t.facts|, c) == clean <==> TuplesStillFound(s, rows, changed, t, c)))
  {
    ApplyGrows(s, rows, t, 0, |t.facts|, c);
    RunAddsNothingIff(Apply(s, rows, t, |t.facts|, c), changed, t, |t.facts|, c);
    if KeysNotBlank(c) {
      hide Apply, FindByKey, FindByTuple, KeysNotBlank, Storable;
      forall i | 0 <= i < |t.facts| && Storable(c.rules, t.facts[i]) && !MatchedByTuple(s, rows, t, i, c)
        ensures FindByKey(Apply(s, rows, t, |t.facts|, c), t.tenant, KeyOf(t, i, c)).Some?
      {
        OthersKeepTheirKey(s, rows, t, i, c);
      }
    }
  }

  // ----- the whole history after the facts

  datatype Attempt = Attempt(rows: seq<E.Row>, turn: Turn, steps: nat)

  function Reached(a: Attempt): nat {
    if a.steps <= |a.turn.facts| then a.steps else |a.turn.facts|
  }

  function RunAttempts(s: Store, attempts: seq<Attempt>, c: Setup): Store
    decreases |attempts|
  {
    if attempts == [] then s
    else
      var a := attempts[|attempts| - 1];
      Apply(RunAttempts(s, attempts[..|attempts| - 1], c), a.rows, a.turn, Reached(a), c)
  }

  /** Attempts of any turns over any entity tables add nothing exactly when each finds what it gets to. */
  lemma {:induction false} AttemptsAddNothingIff(s: Store, attempts: seq<Attempt>, c: Setup)
    requires s.Valid()
    ensures var r := RunAttempts(s, attempts, c);
            && r.Valid() && s.nextId <= r.nextId && (r == s <==> r.nextId == s.nextId)
            && (r == s <==> forall a | a in attempts :: StillFound(s, a.rows, a.turn, Reached(a), c))
    decreases |attempts|
  {
    hide StillFound, Apply;
    if attempts != [] {
      var before, a := attempts[..|attempts| - 1], attempts[|attempts| - 1];
      AttemptsAddNothingIff(s, before, c);
      var p := RunAttempts(s, before, c);
      ApplyGrows(p, a.rows, a.turn, 0, Reached(a), c);
      RunAddsNothingIff(p, a.rows, a.turn, Reached(a), c);
      assert attempts == before + [a];
    }
  }

  /**
   A job's whole history: attempts that broke off among the facts, one that got through them, and any number that came after
   it over whatever entity tables: the memories are those of one clean run exactly when each later attempt still finds every
   storable fact it gets to.
   */
  lemma LateRetriesEqualCleanRunIff(s: Store, rows: seq<E.Row>, t: Turn, ks: seq<nat>, later: seq<Attempt>, c: Setup)
    requires s.Valid() && KeysNotBlank(c) && Within(ks, |t.facts|)
    ensures var clean := Apply(s, rows, t, |t.facts|, c);
            RunAttempts(Apply(Attempts(s, rows, t, ks, c), rows, t, |t.facts|, c), later, c) == clean
            <==> forall a | a in later :: StillFound(clean, a.rows, a.turn, Reached(a), c)
  {
    RetriesEqualOneCleanRun(s, rows, t, ks, c);
    ApplyGrows(s, rows, t, 0, |t.facts|, c);
    AttemptsAddNothingIff(Apply(s, rows, t, |t.facts|, c), later, c);
  }

  // ----- the turn's own entity facts

  /** buildEntityFactRecord. */
  function Record(m: Memory, id: nat, f: ParsedFact, r: Rules): (e: E.Fact) {
    var relation := r.relationOf(f.relation);
    E.Fact(m.tenant, r.entityOf(f.entity), relation, r.recordValue(relation, f.value, f.content), id)
  }

  predicate Complete(e: E.Fact) {
    e.entity != "" && e.relation != "" && e.value != ""
  }

  /** What the first n facts hand to storeEntityFacts: a record for each that has a memory and a complete triple. */
  function EntityFactsOf(s: Store, rows: seq<E.Row>, t: Turn, n: nat, c: Setup): seq<E.Fact>
    requires n <= |t.facts|
  {
    if n == 0 then []
    else
      var p := Apply(s, rows, t, n - 1, c);
      EntityFactsOf(s, rows, t, n - 1, c) + HandedBy(p, rows, t, n - 1, c)
  }

  function Recorded(m: Memory, id: nat, f: ParsedFact, r: Rules): seq<E.Fact> {
    if Complete(Record(m, id, f, r)) then [Record(m, id, f, r)] else []
  }

  /** The record is fact i's, normalised, complete and bound to a memory. */
  ghost predicate IsRecord(e: E.Fact, store: Store, t: Turn, i: nat, r: Rules) {
    && i < |t.facts|
    && var f := t.facts[i];
       && e.entity == r.entityOf(f.entity) && e.relation == r.relationOf(f.relation)
       && e.value == r.recordValue(e.relation, f.value, f.content)
       && e.entity != "" && e.relation != "" && e.value != ""
       && e.memory in store.memories && e.tenant == store.memories[e.memory].tenant
  }

  lemma EarlierStay(facts: seq<E.Fact>, store: Store, later: Store, t: Turn, n: nat, c: Setup)
    requires Grown(store, later)
    ensures forall e, i | e in facts && 0 <= i < n && IsRecord(e, store, t, i, c.rules) :: IsRecord(e, later, t, i, c.rules)
  {
  }

  /** The triple of fact i is complete. */
  predicate HasTriple(t: Turn, i: nat, r: Rules)
    requires i < |t.facts|
  {
    var f := t.facts[i];
    r.entityOf(f.entity) != "" && r.relationOf(f.relation) != "" && r.recordValue(r.relationOf(f.relation), f.value, f.content) != ""
  }

  /** What fact i alone hands over. */
  function HandedBy(s: Store, rows: seq<E.Row>, t: Turn, i: nat, c: Setup): seq<E.Fact>
    requires i < |t.facts|
  {
    match Decide(s, rows, t, i, c)
    case Dropped => []
    case Matched(id) => if id in s.memories then Recorded(s.memories[id], id, t.facts[i], c.rules) else []
    case Created(id) => Recorded(NewMemory(t, i, c), id, t.facts[i], c.rules)
  }

  lemma HandedByIff(s: Store, rows: seq<E.Row>, t: Turn, i: nat, c: Setup)
    requires s.Valid() && i < |t.facts|
    ensures var end := ApplyOne(s, rows, t, i, c);
            && (forall e | e in HandedBy(s, rows, t, i, c) :: Storable(c.rules, t.facts[i]) && IsRecord(e, end, t, i, c.rules))
            && (Storable(c.rules, t.facts[i]) && HasTriple(t, i, c.rules) ==> |HandedBy(s, rows, t, i, c)| == 1)
  {
  }

  /** Each is the record of a storable fact among the first n, and each of those with a complete triple has its record. */
  ghost predicate HandsOver(facts: seq<E.Fact>, store: Store, t: Turn, n: nat, c: Setup)
    requires n <= |t.facts|
  {
    && (forall e | e in facts :: exists i :: 0 <= i < n && Storable(c.rules, t.facts[i]) && IsRecord(e, store, t, i, c.rules))
    && (forall i | 0 <= i < n && Storable(c.rules, t.facts[i]) && HasTriple(t, i, c.rules) ::
          exists e :: e in facts && IsRecord(e, store, t, i, c.rules))
  }

  lemma OneMoreHandsOver(earlier: seq<E.Fact>, own: seq<E.Fact>, p: Store, end: Store, t: Turn, n: nat, c: Setup)
    requires n < |t.facts| && HandsOver(earlier, p, t, n, c) && Grown(p, end)
    requires forall e | e in own :: Storable(c.rules, t.facts[n]) && IsRecord(e, end, t, n, c.rules)
    requires Storable(c.rules, t.facts[n]) && HasTriple(t, n, c.rules) ==> |own| == 1
    ensures HandsOver(earlier + own, end, t, n + 1, c)
  {
    EarlierStay(earlier, p, end, t, n, c);
    hide Storable, IsRecord, HasTriple, Grown;
    forall e | e in earlier + own
      ensures exists i :: 0 <= i < n + 1 && Storable(c.rules, t.facts[i]) && IsRecord(e, end, t, i, c.rules)
    {
      if e in own {
        assert Storable(c.rules, t.facts[n]) && IsRecord(e, end, t, n, c.rules);
      } else {
        var i :| 0 <= i < n && Storable(c.rules, t.facts[i]) && IsRecord(e, p, t, i, c.rules);
      }
    }
    forall i | 0 <= i < n + 1 && Storable(c.rules, t.facts[i]) && HasTriple(t, i, c.rules)
      ensures exists e :: e in earlier + own && IsRecord(e, end, t, i, c.rules)
    {
      if i == n {
        assert own[0] in own && IsRecord(own[0], end, t, i, c.rules);
      } else {
        var e :| e in earlier && IsRecord(e, p, t, i, c.rules);
        assert e in earlier + own;
      }
    }
  }

  /**
   The entity facts of a turn are one record for each of its storable facts with a complete triple, in the tenant of a memory that
   is in the store.
   */
  lemma {:induction false} HandedOverIff(s: Store, rows: seq<E.Row>, t: Turn, n: nat, c: Setup)
    requires s.Valid() && n <= |t.facts|
    ensures HandsOver(EntityFactsOf(s, rows, t, n, c), Apply(s, rows, t, n, c), t, n, c)
    decreases n
  {
    hide Storable, IsRecord, HasTriple, HandedBy, ApplyOne, Grown, HandsOver;
    if n > 0 {
      HandedOverIff(s, rows, t, n - 1, c);
      var p, end := Apply(s, rows, t, n - 1, c), Apply(s, rows, t, n, c);
      ApplyGrows(s, rows, t, n - 1, n, c);
      HandedByIff(p, rows, t, n - 1, c);
      OneMoreHandsOver(EntityFactsOf(s, rows, t, n - 1, c), HandedBy(p, rows, t, n - 1, c), p, end, t, n - 1, c);
    } else {
      NothingHandsOver(Apply(s, rows, t, 0, c), t, c);
    }
  }

  lemma NothingHandsOver(s: Store, t: Turn, c: Setup)
    ensures HandsOver([], s, t, 0, c)
  {
  }

  lemma {:induction false} ListHoldsSlot(rows: seq<E.Row>, tenant: string, t: Tuple, limit: nat, row: E.Row)
    requires SlotRows(rows, tenant, t) <= limit && row in rows
    requires row.fact.tenant == tenant && row.fact.entity == t.entity && row.fact.relation == t.relation
    ensures row in List(rows, tenant, t, limit)
  {
    var f := rows[0].fact;
    if rows[0] != row {
      assert row in rows[1..];
      var listed := f.tenant == tenant && f.entity == t.entity && f.relation == t.relation;
      ListHoldsSlot(rows[1..], tenant, t, if listed then limit - 1 else limit, row);
    } else if row in rows[1..] {
      ListHoldsSlot(rows[1..], tenant, t, limit - 1, row);
    }
  }

  /** The slot of fact i is never closed, and its rows afterwards all fit into one listing. */
  ghost predicate SlotStaysOpen(changed: seq<E.Row>, t: Turn, i: nat, config: E.Config, c: Setup)
    requires i < |t.facts|
  {
    var tuple := TupleOf(c.rules, t.facts[i]);
    tuple.Some? ==>
      && (!config.invalidates || !config.singleton(tuple.value.relation))
      && SlotRows(changed, t.tenant, tuple.value) <= LIST_LIMIT
  }

  lemma OpenTupleStaysFound(s: Store, rows: seq<E.Row>, t: Turn, i: nat, unique: seq<E.Fact>, config: E.Config,
                            ran: seq<E.Op>, calls: nat, c: Setup)
    requires s.Valid() && i < |t.facts| && MatchedByTuple(s, rows, t, i, c)
    requires E.BrokeOff(ran, E.Calls(unique, config), calls) && SlotStaysOpen(E.Exec(rows, ran), t, i, config, c)
    ensures FindByTuple(Apply(s, rows, t, |t.facts|, c), E.Exec(rows, ran), t.tenant, t.facts[i], c).Some?
  {
    var p, clean, changed := Apply(s, rows, t, i, c), Apply(s, rows, t, |t.facts|, c), E.Exec(rows, ran);
    var tuple := TupleOf(c.rules, t.facts[i]).value;
    ApplyGrows(s, rows, t, i, |t.facts|, c);
    ListedAreOfSlot(rows, t.tenant, tuple, LIST_LIMIT);
    var row :| row in List(rows, t.tenant, tuple, LIST_LIMIT) && Hits(p, row, t.tenant, tuple, c);
    E.OtherRelationsStayOpen(rows, unique, config, ran, calls, row);
    ListHoldsSlot(changed, t.tenant, tuple, LIST_LIMIT, row);
    assert Hits(clean, row, t.tenant, tuple, c);
  }

  /**
   After its own facts, however many of the table calls got through: a retry ends with the clean run's memories if each slot of
   the turn is of a relation that is not a singleton and has no more rows than one listing shows.
   */
  lemma OpenSlotsRetryCleanly(s: Store, rows: seq<E.Row>, t: Turn, config: E.Config, ran: seq<E.Op>, calls: nat,
                              idText: nat -> string, c: Setup)
    requires s.Valid() && KeysNotBlank(c)
    requires E.BrokeOff(ran, E.Calls(E.Unique(EntityFactsOf(s, rows, t, |t.facts|, c), idText), config), calls)
    requires forall i | 0 <= i < |t.facts| :: SlotStaysOpen(E.Exec(rows, ran), t, i, config, c)
    ensures var clean := Apply(s, rows, t, |t.facts|, c); Apply(clean, E.Exec(rows, ran), t, |t.facts|, c) == clean
  {
    var changed, unique := E.Exec(rows, ran), E.Unique(EntityFactsOf(s, rows, t, |t.facts|, c), idText);
    LateRetryEqualsCleanRunIff(s, rows, changed, t, c);
    hide Apply, FindByTuple, FindByKey, MatchedByTuple, SlotStaysOpen;
    forall i | 0 <= i < |t.facts| && MatchedByTuple(s, rows, t, i, c)
      ensures FindByTuple(Apply(s, rows, t, |t.facts|, c), changed, t.tenant, t.facts[i], c).Some?
    {
      OpenTupleStaysFound(s, rows, t, i, unique, config, ran, calls, c);
    }
  }

  // ----- the vector jobs

  /**
   Only the attempt that gets through enqueues, and only what it created itself: so every memory the job created has its vector
   job if and only if no attempt that broke off before, among the facts or after them, had created any.
   */
  lemma EveryCreatedIsEnqueuedIff(s: Store, broken: seq<Attempt>, rows: seq<E.Row>, t: Turn, c: Setup)
    requires s.Valid()
    ensures var last := RunAttempts(s, broken, c);
            var end := Apply(last, rows, t, |t.facts|, c);
            && s.nextId <= last.nextId <= end.nextId
            && (IdsFrom(last.nextId, end.nextId) == IdsFrom(s.nextId, end.nextId)
                <==> forall a | a in broken :: StillFound(s, a.rows, a.turn, Reached(a), c))
  {
    hide StillFound, Apply;
    AttemptsAddNothingIff(s, broken, c);
    var last := RunAttempts(s, broken, c);
    RunAddsNothingIff(last, rows, t, |t.facts|, c);
    var end := Apply(last, rows, t, |t.facts|, c);
    assert |IdsFrom(last.nextId, end.nextId)| == end.nextId - last.nextId;
    assert |IdsFrom(s.nextId, end.nextId)| == end.nextId - s.nextId;
  }

  // ----- one memory per canonical key

  ghost predicate OnePerKey(s: Store, tenant: string) {
    forall id, other | id in s.memories && other in s.memories ::
      s.memories[id].tenant == tenant && s.memories[other].tenant == tenant
      && s.memories[id].canonicalKey == s.memories[other].canonicalKey && !Blank(s.memories[id].canonicalKey)
      ==> id == other
  }

  lemma InsertKeepsOnePerKey(s: Store, tenant: string, m: Memory)
    requires s.Valid() && OnePerKey(s, tenant)
    requires Blank(m.canonicalKey) || forall id :: !HasKey(s, id, m.tenant, m.canonicalKey)
    ensures s.Insert(m).Valid() && OnePerKey(s.Insert(m), tenant)
  {
    forall id | id in s.memories && s.memories[id].tenant == m.tenant
      ensures s.memories[id].canonicalKey == m.canonicalKey ==> Blank(m.canonicalKey)
    {
      assert HasKey(s, id, m.tenant, s.memories[id].canonicalKey);
    }
  }

  lemma CreatedKeyIsNew(s: Store, rows: seq<E.Row>, t: Turn, i: nat, c: Setup)
    requires i < |t.facts| && s.Valid() && Decide(s, rows, t, i, c).Created?
    ensures Blank(KeyOf(t, i, c)) || forall id :: !HasKey(s, id, t.tenant, KeyOf(t, i, c))
  {
  }

  lemma {:induction false} ApplyKeepsOnePerKey(s: Store, tenant: string, rows: seq<E.Row>, t: Turn, n: nat, c: Setup)
    requires s.Valid() && OnePerKey(s, tenant) && n <= |t.facts|
    ensures Apply(s, rows, t, n, c).Valid() && OnePerKey(Apply(s, rows, t, n, c), tenant)
    decreases n
  {
    hide Decide;
    if n > 0 {
      ApplyKeepsOnePerKey(s, tenant, rows, t, n - 1, c);
      var p := Apply(s, rows, t, n - 1, c);
      if Decide(p, rows, t, n - 1, c).Created? {
        CreatedKeyIsNew(p, rows, t, n - 1, c);
        InsertKeepsOnePerKey(p, tenant, NewMemory(t, n - 1, c));
      }
    }
  }

  /**
   No sequence of executions, of any jobs of a tenant, over any entity tables and breaking off anywhere, makes a second
   memory for a canonical key.
   */
  lemma {:induction false} AttemptsKeepOnePerKey(s: Store, tenant: string, attempts: seq<Attempt>, c: Setup)
    requires s.Valid() && OnePerKey(s, tenant)
    ensures RunAttempts(s, attempts, c).Valid() && OnePerKey(RunAttempts(s, attempts, c), tenant)
    decreases |attempts|
  {
    if attempts != [] {
      AttemptsKeepOnePerKey(s, tenant, attempts[..|attempts| - 1], c);
      var a := attempts[|attempts| - 1];
      ApplyKeepsOnePerKey(RunAttempts(s, attempts[..|attempts| - 1], c), tenant, a.rows, a.turn, Reached(a), c);
    }
  }

  // ----- a late failure that does add a memory

  lemma NothingActiveNothingFound(s: Store, rows: seq<E.Row>, t: Turn, i: nat, c: Setup)
    requires i < |t.facts| && c.activeOnly && TupleOf(c.rules, t.facts[i]).Some?
    requires var tuple := TupleOf(c.rules, t.facts[i]).value;
             forall row | row in rows && row.active ::
               !(row.fact.tenant == t.tenant && row.fact.entity == tuple.entity && row.fact.relation == tuple.relation)
    ensures FindByTuple(s, rows, t.tenant, t.facts[i], c).None?
  {
    ListedAreOfSlot(rows, t.tenant, TupleOf(c.rules, t.facts[i]).value, LIST_LIMIT);
  }

  /** The first of two facts was matched by its tuple only, and afterwards nothing of its slot is active any more. */
  lemma ClosedMatchIsStoredAnew(s: Store, rows: seq<E.Row>, changed: seq<E.Row>, t: Turn, c: Setup)
    requires s.Valid() && |t.facts| == 2 && c.activeOnly && !Blank(KeyOf(t, 0, c)) && KeyOf(t, 0, c) != KeyOf(t, 1, c)
    requires Storable(c.rules, t.facts[0]) && TupleOf(c.rules, t.facts[0]).Some?
    requires FindByKey(s, t.tenant, KeyOf(t, 0, c)).None? && FindByTuple(s, rows, t.tenant, t.facts[0], c).Some?
    requires var tuple := TupleOf(c.rules, t.facts[0]).value;
             forall row | row in changed && row.active ::
               !(row.fact.tenant == t.tenant && row.fact.entity == tuple.entity && row.fact.relation == tuple.relation)
    ensures var clean := Apply(s, rows, t, 2, c); Apply(clean, changed, t, 2, c) != clean
  {
    var clean := Apply(s, rows, t, 2, c);
    assert Apply(s, rows, t, 1, c) == s;
    ApplyGrows(s, rows, t, 0, 2, c);
    RunAddsNothingIff(clean, changed, t, 2, c);
    NothingActiveNothingFound(clean, changed, t, 0, c);
    assert clean == s || clean == s.Insert(NewMemory(t, 1, c));
    forall id
      ensures !HasKey(clean, id, t.tenant, KeyOf(t, 0, c))
    {
      assert !HasKey(s, id, t.tenant, KeyOf(t, 0, c));
    }
    assert !StillFound(clean, changed, t, 2, c);
  }

  const KEYED := Setup(Rules(x => x, _ => true, x => x, (_, i, _) => if i == 0 then "a" else "b", x => x, x => x, x => x, x => x,
                             (_, v, _) => v),
                       true, true, _ => 0)
  const MOVES := Turn("t", "", [ParsedFact("in Paris", "", "user", "place", "Paris"), ParsedFact("in Rome", "", "user", "place", "Rome")])
  const PARIS := E.Fact("t", "user", "place", "Paris", 0)
  const ROME := E.Fact("t", "user", "place", "Rome", 1)
  const LIVES := Store(map[0 := Memory("t", "lives in Paris", "c", false)], 1)
  const KNOWN := [E.Row(PARIS, true)]

  lemma FirstFactIsMatched()
    ensures FindByTuple(LIVES, KNOWN, "t", MOVES.facts[0], KEYED).Some?
  {
    var tuple := Tuple("user", "place", "Paris");
    assert List(KNOWN, "t", tuple, LIST_LIMIT) == [KNOWN[0]] by { assert KNOWN[1..] == []; }
    assert Hits(LIVES, KNOWN[0], "t", tuple, KEYED);
    assert TupleOf(KEYED.rules, MOVES.facts[0]) == Some(tuple);
  }

  lemma KeysOfMoves()
    ensures KEYED.rules.factKey("", 0, MOVES.facts[0]) == "a" && KEYED.rules.factKey("", 1, MOVES.facts[1]) == "b"
    ensures KeyOf(MOVES, 0, KEYED) == "a" && KeyOf(MOVES, 1, KEYED) == "b"
  {
  }

  lemma MovesAreStorable()
    ensures !Blank(KeyOf(MOVES, 0, KEYED)) && KeyOf(MOVES, 0, KEYED) == "a" && KeyOf(MOVES, 0, KEYED) != KeyOf(MOVES, 1, KEYED)
    ensures Storable(KEYED.rules, MOVES.facts[0]) && TupleOf(KEYED.rules, MOVES.facts[0]) == Some(Tuple("user", "place", "Paris"))
  {
    KeysOfMoves();
    TrimmedIsFixed("a");
    assert "a"[0] != "b"[0];
  }

  lemma FirstKeyIsNew()
    ensures FindByKey(LIVES, "t", "a").None?
  {
    assert LIVES.memories[0].canonicalKey == "c";
    assert "c"[0] != "a"[0];
  }

  function Changed(single: string -> bool): seq<E.Row> {
    E.Exec(KNOWN, E.Calls([PARIS, ROME], E.Config(true, true, single)))
  }

  lemma BatchClosesBoth(single: string -> bool)
    requires single("place")
    ensures forall row | row in Changed(single) && row.active :: !E.SameSlot(row.fact, PARIS)
  {
    var config := E.Config(true, true, single);
    var changed := Changed(single);
    assert [PARIS, ROME][0] == PARIS && [PARIS, ROME][1] == ROME;
    forall row | row in changed && row.active
      ensures !E.SameSlot(row.fact, PARIS)
    {
      E.BatchKeepsAgreedValue(KNOWN, [PARIS, ROME], config, PARIS, row.fact.value);
      assert E.SameSlot(row.fact, PARIS) ==> row.fact.value in E.ActiveValues(changed, PARIS);
    }
  }

  /**
   The turn's own two facts, stored in one batch, close the row its first fact was matched by; if the attempt then fails
   (enqueueing is still to come), the retry stores that fact as one more memory.
   */
  lemma LateRetryMayAddMemory(single: string -> bool)
    requires single("place")
    ensures EntityFactsOf(LIVES, KNOWN, MOVES, 2, KEYED) == [PARIS, ROME]
    ensures var clean := Apply(LIVES, KNOWN, MOVES, 2, KEYED); Apply(clean, Changed(single), MOVES, 2, KEYED) != clean
  {
    MovesHandOver();
    hide Apply, FindByTuple, FindByKey, Changed, KeyOf, Blank, Storable, TupleOf;
    FirstFactIsMatched();
    MovesAreStorable();
    FirstKeyIsNew();
    BatchClosesBoth(single);
    ClosedMatchIsStoredAnew(LIVES, KNOWN, Changed(single), MOVES, KEYED);
  }

  /** The second fact has no tuple in the table and no key in the store: the first attempt stores it. */
  lemma SecondFactIsCreated()
    ensures Apply(LIVES, KNOWN, MOVES, 1, KEYED) == LIVES && Decide(LIVES, KNOWN, MOVES, 1, KEYED) == Created(1)
    ensures Decide(LIVES, KNOWN, MOVES, 0, KEYED) == Matched(0)
    ensures Apply(LIVES, KNOWN, MOVES, 2, KEYED) == LIVES.Insert(NewMemory(MOVES, 1, KEYED))
  {
    FirstFactIsMatched();
    MovesAreStorable();
    FirstKeyIsNew();
    KeysOfMoves();
    assert "c"[0] != "b"[0] && "Rome"[0] != "Paris"[0];
    assert LIVES.memories[0].canonicalKey == "c";
    assert FindByKey(LIVES, "t", "b").None?;
    forall row | row in KNOWN
      ensures !Hits(LIVES, row, "t", Tuple("user", "place", "Rome"), KEYED)
    {
      assert row == KNOWN[0];
    }
    ListedAreOfSlot(KNOWN, "t", Tuple("user", "place", "Rome"), LIST_LIMIT);
    assert FindByTuple(LIVES, KNOWN, "t", MOVES.facts[1], KEYED).None?;
    assert Apply(LIVES, KNOWN, MOVES, 0, KEYED) == LIVES;
  }

  /** The facts of the example are the turn's own. */
  lemma MovesHandOver()
    ensures EntityFactsOf(LIVES, KNOWN, MOVES, 2, KEYED) == [PARIS, ROME]
  {
    SecondFactIsCreated();
    assert Apply(LIVES, KNOWN, MOVES, 0, KEYED) == LIVES;
    hide Decide, Apply;
    assert EntityFactsOf(LIVES, KNOWN, MOVES, 0, KEYED) == [];
    assert Record(LIVES.memories[0], 0, MOVES.facts[0], KEYED.rules) == PARIS;
    assert EntityFactsOf(LIVES, KNOWN, MOVES, 1, KEYED) == [PARIS];
    assert Record(NewMemory(MOVES, 1, KEYED), 1, MOVES.facts[1], KEYED.rules) == ROME;
  }

  /** The attempt stores the second fact and breaks off before enqueueing; the retry finds it, so it creates and enqueues nothing. */
  lemma CreatedMayLackItsJob()
    ensures var last := RunAttempts(LIVES, [Attempt(KNOWN, MOVES, 2)], KEYED);
            var end := Apply(last, KNOWN, MOVES, 2, KEYED);
            LIVES.nextId == 1 && 1 in end.memories && last.nextId == end.nextId == 2
  {
    SecondFactIsCreated();
    var one := [Attempt(KNOWN, MOVES, 2)];
    assert one[..0] == [];
    var last := RunAttempts(LIVES, one, KEYED);
    assert last == Apply(RunAttempts(LIVES, [], KEYED), KNOWN, MOVES, 2, KEYED);
    KeysOfMovesNotBlank();
    RerunRejoins(LIVES, KNOWN, MOVES, 2, 2, KEYED);
  }

  lemma KeysOfMovesNotBlank()
    ensures KeysNotBlank(KEYED)
  {
    TrimmedIsFixed("a");
    TrimmedIsFixed("b");
  }

  lemma {:induction false} ListedAreOfSlot(rows: seq<E.Row>, tenant: string, tuple: Tuple, limit: nat)
    ensures forall row | row in List(rows, tenant, tuple, limit) ::
              row in rows && row.fact.tenant == tenant && row.fact.entity == tuple.entity && row.fact.relation == tuple.relation
    decreases |rows|
  {
    if rows != [] && limit > 0 {
      ListedAreOfSlot(rows[1..], tenant, tuple, limit - 1);
      ListedAreOfSlot(rows[1..], tenant, tuple, limit);
    }
  }
}
