/** embedSearchQueries: a batch of queries embedded through the cache, any mix of hits and misses. */
module EmbedQueries {
  import opened Text
  import opened MruList
  import opened QueryCache
  import opened RecentKeys

  /** batch and single say whether the batch call and the one-by-one calls work; either returns the same vectors. */
  datatype Embedder = Embedder(embed: string -> seq<real>, batch: bool, single: bool)

  ghost predicate Answers(e: Embedder, queries: seq<string>) {
    queries == [] || ((e.batch || e.single) && forall q | q in queries :: e.embed(q) != [])
  }

  ghost predicate Done(a: array?<real>, v: seq<real>)
    reads a
  {
    a != null && a[..] == v
  }

  lemma SomeAnswered(e: Embedder, queries: seq<string>, pending: seq<string>, idx: seq<nat>)
    requires Misses(queries, pending, idx)
    ensures Answers(e, queries) ==> Answers(e, pending)
  {
    assert pending != [] ==> queries[idx[0]] in queries;
  }

  method EmbedContents(e: Embedder, contents: seq<string>) returns (ok: bool, out: seq<array<real>>)
    ensures ok == Answers(e, contents)
    ensures ok ==> |out| == |contents| && forall i | 0 <= i < |out| :: fresh(out[i]) && Done(out[i], e.embed(contents[i]))
  {
    out := [];
    if |contents| == 0 {
      return true, [];
    }
    if !e.batch && !e.single {
      return false, [];
    }
    for i := 0 to |contents|
      invariant |out| == i && forall j | 0 <= j < i :: fresh(out[j]) && out[j][..] == e.embed(contents[j]) && e.embed(contents[j]) != []
    {
      var v := e.embed(contents[i]);
      if v == [] {
        return false, [];
      }
      var a := new real[|v|](k requires 0 <= k < |v| => v[k]);
      assert a[..] == v;
      out := out + [a];
    }
    ok := true;
  }

  /** Every listed value is what the embedder gives for its key. */
  ghost predicate Truthful(l: seq<Pair>, ofKey: string -> seq<real>) {
    forall p | p in l :: p.value == ofKey(p.key)
  }

  lemma CallsKeepTruth(l: seq<Pair>, op: Op, capacity: nat, ofKey: string -> seq<real>)
    requires Truthful(l, ofKey) && (op.Set? ==> op.value == ofKey(op.key))
    ensures Truthful(Do(l, op, capacity), ofKey)
  {
    hide Accepts, Blank, Has, ValueOf, Without;
    var k := op.key;
    forall p | p in Do(l, op, capacity)
      ensures p in l || (op.Set? && p == Pair(k, op.value))
    {
    }
  }

  /** The cache's objects; there are none when no cache is configured. */
  ghost function Repr(c: Cache?): set<object>
    reads c
  {
    if c == null then {} else c.repr
  }

  /** The cache lists exactly l, and every listed value is its key's embedding; without a cache nothing is listed. */
  ghost predicate Holds(c: Cache?, l: seq<Pair>, ofKey: string -> seq<real>)
    reads c, Repr(c)
  {
    if c == null then l == [] else c.Valid() && c.Contents() == l && Truthful(l, ofKey)
  }

  function Capacity(c: Cache?): nat {
    if c == null then 0 else c.capacity
  }

  function Keys(queries: seq<string>, norm: string -> string): seq<string>
    decreases |queries|
  {
    if queries == [] then [] else Keys(queries[..|queries| - 1], norm) + [norm(queries[|queries| - 1])]
  }

  predicate Hit(l: seq<Pair>, key: string) {
    !Blank(key) && Has(l, key)
  }

  /** The list after looking up some keys, in order. */
  function LookedUp(l: seq<Pair>, keys: seq<string>, capacity: nat): seq<Pair>
    decreases |keys|
  {
    if keys == [] then l else Do(LookedUp(l, keys[..|keys| - 1], capacity), MruList.Get(keys[|keys| - 1]), capacity)
  }

  /** The keys among them that were not found. */
  function Missed(l: seq<Pair>, keys: seq<string>, capacity: nat): seq<string>
    decreases |keys|
  {
    if keys == [] then []
    else
      var before, key := keys[..|keys| - 1], keys[|keys| - 1];
      Missed(l, before, capacity) + if Hit(LookedUp(l, before, capacity), key) then [] else [key]
  }

  /** The list after storing the embeddings of some keys, in order. */
  function StoredAll(l: seq<Pair>, keys: seq<string>, ofKey: string -> seq<real>, capacity: nat): seq<Pair>
    decreases |keys|
  {
    if keys == [] then l
    else
      var key := keys[|keys| - 1];
      Do(StoredAll(l, keys[..|keys| - 1], ofKey, capacity), MruList.Set(key, ofKey(key)), capacity)
  }

  /** From list l, looking up the queries leads to list r and misses these. */
  ghost predicate AfterLookUps(l: seq<Pair>, r: seq<Pair>, queries: seq<string>, missed: seq<string>, norm: string -> string,
                               capacity: nat) {
    && r == LookedUp(l, Keys(queries, norm), capacity)
    && Keys(missed, norm) == Missed(l, Keys(queries, norm), capacity)
  }

  /** From list l, storing the embeddings of the queries leads to list r. */
  ghost predicate AfterStores(l: seq<Pair>, r: seq<Pair>, queries: seq<string>, norm: string -> string,
                              ofKey: string -> seq<real>, capacity: nat) {
    r == StoredAll(l, Keys(queries, norm), ofKey, capacity)
  }

  lemma OneMoreKey(queries: seq<string>, query: string, norm: string -> string)
    ensures Keys(queries + [query], norm) == Keys(queries, norm) + [norm(query)]
  {
    assert (queries + [query])[..|queries|] == queries;
  }

  lemma LookedUpNext(l: seq<Pair>, r: seq<Pair>, queries: seq<string>, i: nat, missed: seq<string>, norm: string -> string, capacity: nat)
    requires i < |queries| && AfterLookUps(l, r, queries[..i], missed, norm, capacity)
    ensures var key := norm(queries[i]);
            AfterLookUps(l, Do(r, MruList.Get(key), capacity), queries[..i + 1],
                         if Hit(r, key) then missed else missed + [queries[i]], norm, capacity)
  {
    hide Do, Hit;
    var keys, key := Keys(queries[..i], norm), norm(queries[i]);
    assert queries[..i + 1] == queries[..i] + [queries[i]];
    OneMoreKey(queries[..i], queries[i], norm);
    OneMoreKey(missed, queries[i], norm);
    assert (keys + [key])[..|keys|] == keys;
  }

  lemma StoredNext(l: seq<Pair>, r: seq<Pair>, queries: seq<string>, i: nat, norm: string -> string, ofKey: string -> seq<real>,
                   capacity: nat)
    requires i < |queries| && AfterStores(l, r, queries[..i], norm, ofKey, capacity)
    ensures var key := norm(queries[i]);
            AfterStores(l, Do(r, MruList.Set(key, ofKey(key)), capacity), queries[..i + 1], norm, ofKey, capacity)
  {
    hide Do;
    var keys, key := Keys(queries[..i], norm), norm(queries[i]);
    assert queries[..i + 1] == queries[..i] + [queries[i]];
    OneMoreKey(queries[..i], queries[i], norm);
    assert (keys + [key])[..|keys|] == keys;
  }

  lemma NothingYet(l: seq<Pair>, queries: seq<string>, norm: string -> string, ofKey: string -> seq<real>, capacity: nat)
    ensures AfterLookUps(l, l, queries[..0], [], norm, capacity)
    ensures AfterStores(l, l, queries[..0], norm, ofKey, capacity)
  {
  }

  /** What embedding some queries through a cache makes of its list. */
  function AfterEmbedding(l: seq<Pair>, queries: seq<string>, norm: string -> string, ofKey: string -> seq<real>, capacity: nat, ok: bool)
      : seq<Pair> {
    var keys := Keys(queries, norm);
    var found := LookedUp(l, keys, capacity);
    if ok then StoredAll(found, Missed(l, keys, capacity), ofKey, capacity) else found
  }

  lemma NothingAsked(l: seq<Pair>, queries: seq<string>, norm: string -> string, ofKey: string -> seq<real>, capacity: nat)
    requires queries == []
    ensures AfterEmbedding(l, queries, norm, ofKey, capacity, true) == l
  {
  }

  lemma BothSteps(l: seq<Pair>, m: seq<Pair>, r: seq<Pair>, queries: seq<string>, missed: seq<string>, norm: string -> string,
                  ofKey: string -> seq<real>, capacity: nat, ok: bool)
    requires AfterLookUps(l, m, queries, missed, norm, capacity)
    requires if ok then AfterStores(m, r, missed, norm, ofKey, capacity) else r == m
    ensures r == AfterEmbedding(l, queries, norm, ofKey, capacity, ok)
  {
  }

  /** The keys that are not blank, each once. */
  function KeySet(keys: seq<string>): set<string> {
    set k | k in keys && !Blank(k)
  }

  lemma {:induction false} LookedUpFronts(l: seq<Pair>, keys: seq<string>, capacity: nat, bound: set<string>) returns (front: seq<Pair>)
    requires KeySet(keys) <= bound && |bound| <= capacity
    ensures Fronts(LookedUp(l, keys, capacity), front) && KeysOf(front) <= bound
    ensures forall k | k in keys && !Blank(k) :: k in KeysOf(front) || k in Missed(l, keys, capacity)
    ensures forall k | k in Missed(l, keys, capacity) :: k in keys
    decreases |keys|
  {
    hide Do, KeysOf, Blank, Has;
    if keys == [] {
      front := [];
      NoKeys();
    } else {
      var before, key := keys[..|keys| - 1], keys[|keys| - 1];
      assert keys == before + [key];
      front := LookedUpFronts(l, before, capacity, bound);
      var found := LookedUp(l, before, capacity);
      if Hit(found, key) {
        front := UseJoinsFront(found, front, MruList.Get(key), capacity, bound);
      } else {
        UnusedDoesNothing(found, MruList.Get(key), capacity);
      }
    }
  }

  lemma NoKeys()
    ensures KeysOf([]) == {} && forall l :: Fronts(l, [])
  {
  }

  lemma {:induction false} StoredFronts(l: seq<Pair>, had: seq<Pair>, keys: seq<string>, ofKey: string -> seq<real>, capacity: nat,
                                        bound: set<string>) returns (front: seq<Pair>)
    requires Fronts(l, had) && KeysOf(had) <= bound && KeySet(keys) <= bound && |bound| <= capacity
    requires forall k | k in keys && !Blank(k) :: ofKey(k) != []
    ensures Fronts(StoredAll(l, keys, ofKey, capacity), front) && KeysOf(had) <= KeysOf(front) <= bound
    ensures forall k | k in keys && !Blank(k) :: k in KeysOf(front)
    decreases |keys|
  {
    hide Do, KeysOf, Blank, Has;
    if keys == [] {
      front := had;
    } else {
      var before, key := keys[..|keys| - 1], keys[|keys| - 1];
      assert keys == before + [key];
      front := StoredFronts(l, had, before, ofKey, capacity, bound);
      var op := MruList.Set(key, ofKey(key));
      if Blank(key) {
        UnusedDoesNothing(StoredAll(l, before, ofKey, capacity), op, capacity);
      } else {
        front := UseJoinsFront(StoredAll(l, before, ofKey, capacity), front, op, capacity, bound);
      }
    }
  }

  /** With room for the different keys among them, every query is found afterwards, whatever the cache held before. */
  lemma EveryQueryHits(l: seq<Pair>, queries: seq<string>, norm: string -> string, ofKey: string -> seq<real>, capacity: nat)
    requires |KeySet(Keys(queries, norm))| <= capacity
    requires forall k | k in Missed(l, Keys(queries, norm), capacity) && !Blank(k) :: ofKey(k) != []
    ensures forall q | q in queries && !Blank(norm(q)) :: Has(AfterEmbedding(l, queries, norm, ofKey, capacity, true), norm(q))
  {
    var keys := Keys(queries, norm);
    var bound := KeySet(keys);
    hide Blank, Has, Missed, LookedUp, StoredAll, KeysOf;
    var had := LookedUpFronts(l, keys, capacity, bound);
    var front := StoredFronts(LookedUp(l, keys, capacity), had, Missed(l, keys, capacity), ofKey, capacity, bound);
    var r := AfterEmbedding(l, queries, norm, ofKey, capacity, true);
    forall q | q in queries && !Blank(norm(q))
      ensures Has(r, norm(q))
    {
      KeyOfQuery(queries, norm, q);
      FrontIsFound(r, front, norm(q));
    }
  }

  lemma {:induction false} KeyOfQuery(queries: seq<string>, norm: string -> string, q: string)
    requires q in queries
    ensures norm(q) in Keys(queries, norm)
    decreases |queries|
  {
    var n := |queries| - 1;
    assert queries == queries[..n] + [queries[n]];
    if q in queries[..n] {
      KeyOfQuery(queries[..n], norm, q);
    }
  }

  lemma FrontIsFound(l: seq<Pair>, front: seq<Pair>, k: string)
    requires Fronts(l, front) && k in KeysOf(front)
    ensures Has(l, k)
  {
    var p :| p in front && p.key == k;
    assert p in l;
  }

  /** A blank key leaves the list alone, and so does every call when there is no room at all. */
  lemma NothingHeld(op: Op)
    ensures Blank(op.key) ==> forall l, capacity :: Do(l, op, capacity) == l
    ensures Do([], op, 0) == []
  {
  }

  lemma CacheIsInRepr(c: Cache?, l: seq<Pair>, ofKey: string -> seq<real>)
    requires Holds(c, l, ofKey)
    ensures c == null || c in Repr(c)
  {
  }

  lemma HeldValue(l: seq<Pair>, key: string, ofKey: string -> seq<real>)
    requires Truthful(l, ofKey)
    ensures Has(l, key) ==> ValueOf(l, key) == ofKey(key)
  {
  }

  method GetCached(c: Cache?, norm: string -> string, query: string, ghost l: seq<Pair>, ghost ofKey: string -> seq<real>)
      returns (ok: bool, r: array?<real>)
    requires Holds(c, l, ofKey)
    modifies c
    ensures Holds(c, Do(l, MruList.Get(norm(query)), Capacity(c)), ofKey) && Repr(c) == old(Repr(c))
    ensures ok == Hit(l, norm(query))
    ensures ok ==> fresh(r) && Done(r, ofKey(norm(query)))
  {
    var key := norm(query);
    NothingHeld(MruList.Get(key));
    if c == null {
      return false, null;
    }
    if key == "" {
      return false, null;
    }
    CallsKeepTruth(l, MruList.Get(key), c.capacity, ofKey);
    HeldValue(l, key, ofKey);
    hide Do, MovedFirst, ContentsOf, Linked, Truthful, Has, ValueOf, Accepts;
    ok, r := c.Get(key);
  }

  method SetCached(c: Cache?, norm: string -> string, query: string, a: array<real>, ghost l: seq<Pair>, ghost ofKey: string -> seq<real>)
    requires Holds(c, l, ofKey) && a[..] == ofKey(norm(query))
    modifies Repr(c)
    ensures Holds(c, Do(l, MruList.Set(norm(query), ofKey(norm(query))), Capacity(c)), ofKey)
    ensures fresh(Repr(c) - old(Repr(c)))
  {
    var key := norm(query);
    NothingHeld(MruList.Set(key, ofKey(key)));
    if c == null {
      return;
    }
    if key == "" {
      return;
    }
    hide Truthful, Do, Linked, ContentsOf, Accepts;
    CallsKeepTruth(l, MruList.Set(key, a[..]), c.capacity, ofKey);
    c.Set(key, a);
  }

  predicate Misses(queries: seq<string>, missed: seq<string>, idx: seq<nat>) {
    |missed| == |idx| && forall m | 0 <= m < |idx| :: idx[m] < |queries| && missed[m] == queries[idx[m]]
  }

  /** Each slot is filled with its query's embedding or listed as missed. */
  ghost predicate FilledOrMissed(out: seq<array?<real>>, queries: seq<string>, missed: seq<string>, idx: seq<nat>,
                                 norm: string -> string, ofKey: string -> seq<real>)
    reads out
  {
    && Misses(queries, missed, idx) && |out| == |queries|
    && (forall j | 0 <= j < |queries| :: j in idx || Done(out[j], ofKey(norm(queries[j]))))
  }

  lemma MissedAreListed(out: seq<array?<real>>, queries: seq<string>, missed: seq<string>, idx: seq<nat>,
                        norm: string -> string, ofKey: string -> seq<real>)
    requires FilledOrMissed(out, queries, missed, idx, norm, ofKey)
    ensures Misses(queries, missed, idx)
  {
  }

  /**
   With an embedder that depends on a query only through its normalised key, every query gets exactly its own embedding,
   in order, and no result shares an array with the cache. The cache goes on holding each key's embedding: every query is
   looked up in order and then, if embedding worked, the missed ones are stored in order.
   */
  method EmbedSearchQueries(c: Cache?, queries: seq<string>, norm: string -> string, e: Embedder,
                            ghost l: seq<Pair>, ghost ofKey: string -> seq<real>)
      returns (ok: bool, out: seq<array?<real>>)
    requires forall q :: e.embed(q) == ofKey(norm(q))
    requires Holds(c, l, ofKey)
    modifies Repr(c)
    ensures Holds(c, AfterEmbedding(l, queries, norm, ofKey, Capacity(c), ok), ofKey)
    ensures Answers(e, queries) ==> ok
    // only what the cache does not have is asked for
    ensures ok <==> KeysAnswered(e, Missed(l, Keys(queries, norm), Capacity(c)), ofKey)
    ensures AllListed(l, queries, norm) ==> ok
    ensures ok ==> |out| == |queries| && forall i | 0 <= i < |out| :: Done(out[i], e.embed(queries[i]))
    ensures ok ==> forall i | 0 <= i < |out| && out[i] != null :: fresh(out[i]) && out[i] !in Repr(c)
    // with room for their different keys, every query with a key is a hit from now on
    ensures ok && c != null && |KeySet(Keys(queries, norm))| <= c.capacity ==> AllFound(c.Contents(), queries, norm, e)
  {
    CacheIsInRepr(c, l, ofKey);
    hide Holds, Answers, Done, AfterLookUps, AfterStores, AfterEmbedding, Misses, FilledOrMissed, AllListed, AllFound, KeysAnswered,
         Missed, Keys, KeySet;
    if |queries| == 0 {
      NothingToAnswer(e, l, norm, ofKey, Capacity(c));
      NothingAsked(l, queries, norm, ofKey, Capacity(c));
      return true, [];
    }
    var found, pendingQueries, pendingIdx;
    ghost var between, r;
    found, pendingQueries, pendingIdx, between := LookUp(c, queries, norm, l, ofKey);
    MissedAreListed(found, queries, pendingQueries, pendingIdx, norm, ofKey);
    SomeAnswered(e, queries, pendingQueries, pendingIdx);
    forall j | 0 <= j < |found| && found[j] != null
      ensures found[j] !in Repr(c)
    {
      assert fresh(found[j]);
    }
    AllAreHits(e, l, queries, norm, ofKey, Capacity(c));
    MissedAreAnsweredIff(e, l, between, queries, pendingQueries, norm, ofKey, Capacity(c));
    ok, out, r := EmbedMissed(c, queries, found, pendingQueries, pendingIdx, norm, e, between, ofKey);
    BothSteps(l, between, r, queries, pendingQueries, norm, ofKey, Capacity(c), ok);
    if ok {
      if c != null && |KeySet(Keys(queries, norm))| <= c.capacity {
        AllAreFound(c, r, l, queries, norm, e, ofKey);
      }
      forall i | 0 <= i < |out| && out[i] != null
        ensures fresh(out[i])
      {
        assert out[i] == found[i] ==> fresh(found[i]);
      }
    }
  }

  /** Every query has a key the list holds. */
  predicate AllListed(l: seq<Pair>, queries: seq<string>, norm: string -> string) {
    forall q | q in queries :: !Blank(norm(q)) && Has(l, norm(q))
  }

  /** Every query that has a key is found, with its embedding. */
  ghost predicate AllFound(l: seq<Pair>, queries: seq<string>, norm: string -> string, e: Embedder) {
    forall q | q in queries && !Blank(norm(q)) :: Has(l, norm(q)) && ValueOf(l, norm(q)) == e.embed(q)
  }

  ghost predicate KeysAnswered(e: Embedder, keys: seq<string>, ofKey: string -> seq<real>) {
    keys == [] || ((e.batch || e.single) && forall k | k in keys :: ofKey(k) != [])
  }

  lemma AllAreHits(e: Embedder, l: seq<Pair>, queries: seq<string>, norm: string -> string, ofKey: string -> seq<real>, capacity: nat)
    ensures AllListed(l, queries, norm) ==> KeysAnswered(e, Missed(l, Keys(queries, norm), capacity), ofKey)
  {
    hide Has, Blank;
    if AllListed(l, queries, norm) {
      forall k | k in Keys(queries, norm)
        ensures !Blank(k) && Has(l, k)
      {
        var q := QueryOfKey(queries, norm, k);
      }
      NoneMissed(l, Keys(queries, norm), capacity);
    }
  }

  lemma {:induction false} NoneMissed(l: seq<Pair>, keys: seq<string>, capacity: nat)
    requires forall k | k in keys :: !Blank(k) && Has(l, k)
    ensures Missed(l, keys, capacity) == [] && forall k | Has(l, k) :: Has(LookedUp(l, keys, capacity), k)
    decreases |keys|
  {
    hide Has, Blank, Do;
    if keys != [] {
      var before, key := keys[..|keys| - 1], keys[|keys| - 1];
      assert keys == before + [key];
      NoneMissed(l, before, capacity);
      forall k | Has(l, k)
        ensures Has(LookedUp(l, keys, capacity), k)
      {
        LookUpKeeps(LookedUp(l, before, capacity), key, k, capacity);
      }
    }
  }

  lemma LookUpKeeps(l: seq<Pair>, key: string, k: string, capacity: nat)
    requires Has(l, k)
    ensures Has(Do(l, MruList.Get(key), capacity), k)
  {
    var p :| p in l && p.key == k;
    var r := Do(l, MruList.Get(key), capacity);
    assert k == key || p in r;
    if r != l && k == key {
      assert r[0] in r && r[0].key == k;
    }
  }

  lemma NothingToAnswer(e: Embedder, l: seq<Pair>, norm: string -> string, ofKey: string -> seq<real>, capacity: nat)
    ensures KeysAnswered(e, Missed(l, Keys([], norm), capacity), ofKey) && forall r :: AllFound(r, [], norm, e)
  {
  }

  lemma MissedAreAnsweredIff(e: Embedder, l: seq<Pair>, m: seq<Pair>, queries: seq<string>, missed: seq<string>,
                             norm: string -> string, ofKey: string -> seq<real>, capacity: nat)
    requires AfterLookUps(l, m, queries, missed, norm, capacity) && forall q :: e.embed(q) == ofKey(norm(q))
    ensures Answers(e, missed) <==> KeysAnswered(e, Missed(l, Keys(queries, norm), capacity), ofKey)
  {
    forall k | k in Keys(missed, norm)
      ensures exists q | q in missed :: norm(q) == k
    {
      var q := QueryOfKey(missed, norm, k);
    }
    forall q | q in missed
      ensures norm(q) in Keys(missed, norm)
    {
      KeyOfQuery(missed, norm, q);
    }
    if missed != [] {
      assert missed[0] in missed;
    }
  }

  lemma {:induction false} QueryOfKey(queries: seq<string>, norm: string -> string, k: string) returns (q: string)
    requires k in Keys(queries, norm)
    ensures q in queries && norm(q) == k
    decreases |queries|
  {
    var n := |queries| - 1;
    if norm(queries[n]) == k {
      q := queries[n];
    } else {
      q := QueryOfKey(queries[..n], norm, k);
    }
  }

  lemma AllAreFound(c: Cache, r: seq<Pair>, l: seq<Pair>, queries: seq<string>, norm: string -> string, e: Embedder,
                    ofKey: string -> seq<real>)
    requires Holds(c, r, ofKey) && r == AfterEmbedding(l, queries, norm, ofKey, c.capacity, true)
    requires |KeySet(Keys(queries, norm))| <= c.capacity && forall q :: e.embed(q) == ofKey(norm(q))
    requires KeysAnswered(e, Missed(l, Keys(queries, norm), c.capacity), ofKey)
    ensures AllFound(c.Contents(), queries, norm, e)
  {
    EveryQueryHits(l, queries, norm, ofKey, c.capacity);
  }

  /** Embeds the missed queries and puts the vectors in their slots; when the embedder fails, nothing is kept. */
  method EmbedMissed(c: Cache?, queries: seq<string>, found: seq<array?<real>>, pendingQueries: seq<string>, pendingIdx: seq<nat>,
                     norm: string -> string, e: Embedder, ghost l: seq<Pair>, ghost ofKey: string -> seq<real>)
      returns (ok: bool, out: seq<array?<real>>, ghost r: seq<Pair>)
    requires forall q :: e.embed(q) == ofKey(norm(q))
    requires Holds(c, l, ofKey) && FilledOrMissed(found, queries, pendingQueries, pendingIdx, norm, ofKey)
    requires forall j | 0 <= j < |found| && found[j] != null :: found[j] !in Repr(c)
    modifies Repr(c)
    ensures Holds(c, r, ofKey) && ok == Answers(e, pendingQueries)
    ensures if ok then AfterStores(l, r, pendingQueries, norm, ofKey, Capacity(c)) else r == l
    ensures ok ==> |out| == |queries| && forall j | 0 <= j < |out| :: Done(out[j], ofKey(norm(queries[j])))
    ensures ok ==> |found| == |out| && forall j | 0 <= j < |out| && out[j] != null ::
                     (out[j] == found[j] || fresh(out[j])) && out[j] !in Repr(c)
  {
    hide Holds, Answers, Done, AfterStores;
    var embeddings;
    ok, embeddings := EmbedContents(e, pendingQueries);
    if !ok {
      return false, [], l;
    }
    out, r := FillIn(c, queries, found, pendingQueries, pendingIdx, embeddings, norm, l, ofKey);
  }

  /** The hits in their slots, and the missed queries with the slots they belong to. */
  method LookUp(c: Cache?, queries: seq<string>, norm: string -> string, ghost l: seq<Pair>, ghost ofKey: string -> seq<real>)
      returns (out: seq<array?<real>>, pendingQueries: seq<string>, pendingIdx: seq<nat>, ghost r: seq<Pair>)
    requires Holds(c, l, ofKey)
    modifies c
    ensures Holds(c, r, ofKey) && Repr(c) == old(Repr(c))
    ensures AfterLookUps(l, r, queries, pendingQueries, norm, Capacity(c))
    ensures FilledOrMissed(out, queries, pendingQueries, pendingIdx, norm, ofKey)
    ensures forall j | 0 <= j < |out| && out[j] != null :: fresh(out[j])
  {
    hide Holds, Done, Do, Hit, Repr, AfterLookUps;
    out := seq(|queries|, _ => null);
    pendingQueries, pendingIdx, r := [], [], l;
    NothingYet(l, queries, norm, ofKey, Capacity(c));
    for i := 0 to |queries|
      invariant AfterLookUps(l, r, queries[..i], pendingQueries, norm, Capacity(c))
      invariant Holds(c, r, ofKey) && Repr(c) == old(Repr(c))
      invariant |out| == |queries| && |pendingQueries| == |pendingIdx|
      invariant forall m | 0 <= m < |pendingIdx| :: pendingIdx[m] < i && pendingQueries[m] == queries[pendingIdx[m]]
      invariant forall j | 0 <= j < i :: j in pendingIdx || Done(out[j], ofKey(norm(queries[j])))
      invariant forall j | 0 <= j < |out| && out[j] != null :: fresh(out[j])
    {
      LookedUpNext(l, r, queries, i, pendingQueries, norm, Capacity(c));
      var hit, a := GetCached(c, norm, queries[i], r, ofKey);
      r := Do(r, MruList.Get(norm(queries[i])), Capacity(c));
      if hit {
        out := out[i := a];
      } else {
        pendingQueries, pendingIdx := pendingQueries + [queries[i]], pendingIdx + [i];
      }
    }
    assert queries[..|queries|] == queries;
  }

  method Fill(c: Cache?, norm: string -> string, query: string, a: array<real>, ghost l: seq<Pair>, ghost ofKey: string -> seq<real>)
      returns (copy: array<real>)
    requires Holds(c, l, ofKey) && a !in Repr(c) && Done(a, ofKey(norm(query)))
    modifies Repr(c)
    ensures Holds(c, Do(l, MruList.Set(norm(query), ofKey(norm(query))), Capacity(c)), ofKey)
    ensures fresh(Repr(c) - old(Repr(c)))
    ensures fresh(copy) && copy !in Repr(c) && Done(copy, ofKey(norm(query)))
  {
    hide Holds, Do;
    copy := CloneEmbedding(a);
    SetCached(c, norm, query, a, l, ofKey);
  }

  /** Puts a copy of each missed query's embedding in its slot, and stores the embedding in the cache. */
  method FillIn(c: Cache?, queries: seq<string>, found: seq<array?<real>>, pendingQueries: seq<string>, pendingIdx: seq<nat>,
                embeddings: seq<array<real>>, norm: string -> string, ghost l: seq<Pair>, ghost ofKey: string -> seq<real>)
      returns (out: seq<array?<real>>, ghost r: seq<Pair>)
    requires Holds(c, l, ofKey)
    requires |found| == |queries| && |pendingQueries| == |pendingIdx| == |embeddings|
    requires forall m | 0 <= m < |pendingIdx| :: pendingIdx[m] < |queries| && pendingQueries[m] == queries[pendingIdx[m]]
    requires forall m | 0 <= m < |embeddings| :: embeddings[m] !in Repr(c) && Done(embeddings[m], ofKey(norm(pendingQueries[m])))
    requires forall j | 0 <= j < |queries| :: j in pendingIdx || Done(found[j], ofKey(norm(queries[j])))
    requires forall j | 0 <= j < |found| && found[j] != null :: found[j] !in Repr(c)
    modifies Repr(c)
    ensures Holds(c, r, ofKey) && AfterStores(l, r, pendingQueries, norm, ofKey, Capacity(c))
    ensures |out| == |queries| && forall j | 0 <= j < |out| :: Done(out[j], ofKey(norm(queries[j])))
    ensures forall j | 0 <= j < |out| && out[j] != null :: (out[j] == found[j] || fresh(out[j])) && out[j] !in Repr(c)
  {
    hide Holds, Done, Do, AfterStores;
    out, r := found, l;
    NothingYet(l, pendingQueries, norm, ofKey, Capacity(c));
    for m := 0 to |embeddings|
      invariant AfterStores(l, r, pendingQueries[..m], norm, ofKey, Capacity(c))
      invariant Holds(c, r, ofKey) && fresh(Repr(c) - old(Repr(c)))
      invariant |out| == |queries|
      invariant forall j | 0 <= j < |out| :: j in pendingIdx[m..] || Done(out[j], ofKey(norm(queries[j])))
      invariant forall j | 0 <= j < |out| && out[j] != null :: (out[j] == found[j] || fresh(out[j])) && out[j] !in Repr(c)
      invariant forall k | 0 <= k < |embeddings| :: embeddings[k] !in Repr(c) && Done(embeddings[k], ofKey(norm(pendingQueries[k])))
    {
      assert pendingIdx[m..] == [pendingIdx[m]] + pendingIdx[m + 1..];
      StoredNext(l, r, pendingQueries, m, norm, ofKey, Capacity(c));
      var copy := Fill(c, norm, pendingQueries[m], embeddings[m], r, ofKey);
      ghost var key := norm(pendingQueries[m]);
      r := Do(r, MruList.Set(key, ofKey(key)), Capacity(c));
      out := out[pendingIdx[m] := copy];
    }
    assert pendingQueries[..|pendingQueries|] == pendingQueries;
  }
}
