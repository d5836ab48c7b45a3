/** The plain most-recently-used list the query-embedding cache stands for, cut to a capacity, and its history. */
module MruList {
  import opened Text

  datatype Pair = Pair(key: string, value: seq<real>)
  datatype Op = Get(key: string) | Set(key: string, value: seq<real>)

  predicate Has(l: seq<Pair>, k: string) {
    exists p | p in l :: p.key == k
  }

  function ValueOf(l: seq<Pair>, k: string): (v: seq<real>)
    requires Has(l, k)
    ensures Pair(k, v) in l
  {
    if l[0].key == k then
      assert l[0] == Pair(k, l[0].value);
      l[0].value
    else
      ValueOf(l[1..], k)
  }

  function Without(l: seq<Pair>, k: string): (r: seq<Pair>)
    ensures forall p :: p in r <==> p in l && p.key != k
    ensures !Has(l, k) ==> r == l
  {
    if l == [] then []
    else if l[0].key == k then Without(l[1..], k)
    else
      assert !Has(l, k) ==> !Has(l[1..], k);
      [l[0]] + Without(l[1..], k)
  }

  function Cut(l: seq<Pair>, capacity: nat): seq<Pair> {
    if |l| > capacity then l[..capacity] else l
  }

  predicate Accepts(k: string, v: seq<real>) {
    !Blank(k) && v != []
  }

  /** One call on the list: a hit or an accepted set moves its key to the front. */
  function Do(l: seq<Pair>, op: Op, capacity: nat): seq<Pair> {
    match op
    case Get(k) => if !Blank(k) && Has(l, k) then [Pair(k, ValueOf(l, k))] + Without(l, k) else l
    case Set(k, v) => if Accepts(k, v) then Cut([Pair(k, v)] + Without(l, k), capacity) else l
  }

  /**
   Setting something under a key that is not blank puts it in front of the others, of which the last goes when there is no
   room; setting anything else is nothing.
   */
  ghost predicate PutFirst(was: seq<Pair>, now: seq<Pair>, k: string, v: seq<real>, capacity: nat)
    requires capacity > 0
  {
    if Blank(k) || v == [] then now == was
    else
      var others := Without(was, k);
      now == [Pair(k, v)] + if |others| < capacity then others else others[..capacity - 1]
  }

  lemma SetIsFirst(l: seq<Pair>, k: string, v: seq<real>, capacity: nat)
    requires capacity > 0
    ensures var r := Do(l, Set(k, v), capacity);
            PutFirst(l, r, k, v, capacity) && (!Blank(k) && v != [] ==> Has(r, k) && ValueOf(r, k) == v)
  {
    hide Without;
    var r := Do(l, Set(k, v), capacity);
    assert !Blank(k) && v != [] ==> r[0] == Pair(k, v) && r[0] in r;
  }

  /** Its key has moved to the front, and nothing else has changed. */
  ghost predicate MovedFirst(was: seq<Pair>, now: seq<Pair>, k: string) {
    Has(was, k) && now == [Pair(k, ValueOf(was, k))] + Without(was, k)
  }

  // ----- histories

  function Run(ops: seq<Op>, capacity: nat): seq<Pair>
    decreases |ops|
  {
    if ops == [] then [] else Do(Run(ops[..|ops| - 1], capacity), ops[|ops| - 1], capacity)
  }

  /** The call hits or sets k. */
  predicate Uses(l: seq<Pair>, op: Op, k: string) {
    match op
    case Get(key) => key == k && !Blank(k) && Has(l, k)
    case Set(key, v) => key == k && !Blank(k) && v != []
  }

  /** The number of the last call that hit or set k, or -1. */
  function LastUse(ops: seq<Op>, k: string, capacity: nat): (n: int)
    ensures -1 <= n < |ops|
    decreases |ops|
  {
    if ops == [] then -1
    else if Uses(Run(ops[..|ops| - 1], capacity), ops[|ops| - 1], k) then |ops| - 1
    else LastUse(ops[..|ops| - 1], k, capacity)
  }

  /** The value k was last set to, or nothing. */
  function LastSet(ops: seq<Op>, k: string): seq<real>
    decreases |ops|
  {
    if ops == [] then []
    else
      var op := ops[|ops| - 1];
      if op.Set? && op.key == k && !Blank(k) && op.value != [] then op.value else LastSet(ops[..|ops| - 1], k)
  }

  /** A history as functions of a key: when it was last used, and what it was last set to. */
  datatype History = History(use: string -> int, last: string -> seq<real>)

  function HistoryOf(ops: seq<Op>, capacity: nat): History {
    History(k => LastUse(ops, k, capacity), k => LastSet(ops, k))
  }

  ghost predicate NewestFirst(l: seq<Pair>, h: History) {
    l == [] || ((forall p | p in l[1..] :: h.use(l[0].key) > h.use(p.key)) && NewestFirst(l[1..], h))
  }

  ghost predicate LastValues(l: seq<Pair>, h: History) {
    forall p | p in l :: Accepts(p.key, p.value) && p.value == h.last(p.key) && h.use(p.key) >= 0
  }

  /** Every key that was ever used and is not listed was used before all that are, and there is no room left. */
  ghost predicate OldestLeft(l: seq<Pair>, h: History, capacity: nat) {
    forall k | h.use(k) >= 0 && !Has(l, k) :: |l| == capacity && forall p | p in l :: h.use(p.key) > h.use(k)
  }

  /** The list holds exactly the most recently used keys, as many as fit, newest first, with the values last set. */
  ghost predicate MostRecent(l: seq<Pair>, h: History, capacity: nat) {
    |l| <= capacity && NewestFirst(l, h) && LastValues(l, h) && OldestLeft(l, h, capacity)
  }

  // ----- newest-first lists

  lemma {:induction false} WithoutStaysOrdered(l: seq<Pair>, k: string, h: History)
    requires NewestFirst(l, h)
    ensures NewestFirst(Without(l, k), h) && |Without(l, k)| == |l| - if Has(l, k) then 1 else 0
  {
    if l != [] {
      WithoutStaysOrdered(l[1..], k, h);
      assert Has(l, k) <==> l[0].key == k || Has(l[1..], k);
      if l[0].key == k {
        assert !Has(l[1..], k);
      } else {
        assert Without(l, k)[1..] == Without(l[1..], k);
      }
    }
  }

  lemma {:induction false} OrderDependsOnKeys(l: seq<Pair>, h: History, h': History)
    requires NewestFirst(l, h) && forall p | p in l :: h'.use(p.key) == h.use(p.key)
    ensures NewestFirst(l, h')
  {
    if l != [] {
      OrderDependsOnKeys(l[1..], h, h');
    }
  }

  lemma {:induction false} LastIsOldest(l: seq<Pair>, h: History)
    requires l != [] && NewestFirst(l, h)
    ensures NewestFirst(l[..|l| - 1], h)
    ensures forall p | p in l[..|l| - 1] :: h.use(p.key) > h.use(l[|l| - 1].key)
  {
    if |l| > 1 {
      LastIsOldest(l[1..], h);
      assert l[..|l| - 1] == [l[0]] + l[1..][..|l| - 2];
      assert l[..|l| - 1][1..] == l[1..][..|l| - 2];
      assert l[1..][|l| - 2] == l[|l| - 1];
    }
  }

  lemma {:induction false} ValueIsThere(l: seq<Pair>, p: Pair, h: History)
    requires NewestFirst(l, h) && p in l
    ensures ValueOf(l, p.key) == p.value
  {
    if l[0] != p {
      ValueIsThere(l[1..], p, h);
    }
  }

  // ----- one call

  /** Key k was just used as call n, and its value is now v; the rest of the history is unchanged. */
  ghost predicate Now(h: History, h': History, k: string, v: seq<real>, n: int) {
    && n >= 0 && h'.use(k) == n && h'.last(k) == v
    && (forall key :: h.use(key) < n)
    && (forall key | key != k :: h'.use(key) == h.use(key) && h'.last(key) == h.last(key))
  }

  lemma FrontStep(l: seq<Pair>, k: string, v: seq<real>, h: History, h': History, n: int)
    requires NewestFirst(l, h) && LastValues(l, h) && Accepts(k, v) && Now(h, h', k, v, n)
    ensures NewestFirst([Pair(k, v)] + Without(l, k), h') && LastValues([Pair(k, v)] + Without(l, k), h')
  {
    hide Accepts;
    var w := Without(l, k);
    var r := [Pair(k, v)] + w;
    WithoutStaysOrdered(l, k, h);
    OrderDependsOnKeys(w, h, h');
    assert r[1..] == w;
  }

  /** Bringing a listed key to the front. */
  lemma RefreshedStep(l: seq<Pair>, k: string, v: seq<real>, h: History, h': History, n: int, capacity: nat)
    requires MostRecent(l, h, capacity) && Has(l, k) && Accepts(k, v) && Now(h, h', k, v, n)
    ensures MostRecent([Pair(k, v)] + Without(l, k), h', capacity)
  {
    hide Accepts;
    var r := [Pair(k, v)] + Without(l, k);
    FrontStep(l, k, v, h, h', n);
    WithoutStaysOrdered(l, k, h);
    assert Pair(k, v) in r;
    forall key | h'.use(key) >= 0 && !Has(r, key)
      ensures key != k && !Has(l, key)
    {
      assert key != k;
      assert forall p | p in l && p.key == key :: p in r;
    }
  }

  /** Putting a new key at the front, and dropping the last one of a full list. */
  lemma InsertedStep(l: seq<Pair>, k: string, v: seq<real>, h: History, h': History, n: int, capacity: nat)
    requires capacity > 0 && MostRecent(l, h, capacity) && !Has(l, k) && Accepts(k, v) && Now(h, h', k, v, n)
    ensures MostRecent(Cut([Pair(k, v)] + Without(l, k), capacity), h', capacity)
  {
    hide Accepts;
    hide NewestFirst;
    var r := [Pair(k, v)] + l;
    FrontStep(l, k, v, h, h', n);
    assert Without(l, k) == l;
    if |l| < capacity {
      StillOldestLeft(l, k, v, h, h', n, capacity);
    } else {
      LastIsOldest(r, h');
      assert r[..capacity] == r[..|r| - 1];
      OldestDropped(l, k, v, h, h', n, capacity);
    }
  }

  /** Only the key that is dropped joins those left out, and it is older than all that stay. */
  lemma OldestDropped(l: seq<Pair>, k: string, v: seq<real>, h: History, h': History, n: int, capacity: nat)
    requires |l| == capacity > 0 && OldestLeft(l, h, capacity) && !Has(l, k) && Now(h, h', k, v, n)
    requires var r := [Pair(k, v)] + l; forall p | p in r[..capacity] :: h'.use(p.key) > h'.use(r[capacity].key)
    ensures OldestLeft(([Pair(k, v)] + l)[..capacity], h', capacity)
  {
    var r := [Pair(k, v)] + l;
    var kept, victim := r[..capacity], r[capacity];
    assert r == kept + [victim] && kept[0] == Pair(k, v);
    forall key | h'.use(key) >= 0 && !Has(kept, key)
      ensures forall p | p in kept :: h'.use(p.key) > h'.use(key)
    {
      if key != victim.key {
        assert key != k;
        assert forall p | p in l :: p in [Pair(k, v)] + l;
        assert forall p | p in kept + [victim] :: p in kept || p == victim;
        assert !Has(l, key);
        assert forall p | p in kept :: p == kept[0] || p in l;
      }
    }
  }

  lemma StillOldestLeft(l: seq<Pair>, k: string, v: seq<real>, h: History, h': History, n: int, capacity: nat)
    requires |l| < capacity && OldestLeft(l, h, capacity) && Now(h, h', k, v, n)
    ensures OldestLeft([Pair(k, v)] + l, h', capacity)
  {
    var r := [Pair(k, v)] + l;
    forall key | h'.use(key) >= 0
      ensures Has(r, key)
    {
      assert r[0] == Pair(k, v);
      if key != k {
        assert Has(l, key);
        var p :| p in l && p.key == key;
        assert p in r;
      }
    }
  }

  // ----- every history

  lemma UseAfter(ops: seq<Op>, op: Op, k: string, capacity: nat)
    ensures LastUse(ops + [op], k, capacity)
            == if Uses(Run(ops, capacity), op, k) then |ops| else LastUse(ops, k, capacity)
    ensures LastSet(ops + [op], k) == if op.Set? && op.key == k && !Blank(k) && op.value != [] then op.value else LastSet(ops, k)
  {
    assert (ops + [op])[..|ops|] == ops;
  }

  lemma UnusedStep(l: seq<Pair>, h: History, h': History, capacity: nat)
    requires MostRecent(l, h, capacity) && forall k :: h'.use(k) == h.use(k) && h'.last(k) == h.last(k)
    ensures MostRecent(l, h', capacity)
  {
    OrderDependsOnKeys(l, h, h');
  }

  lemma UnusedDoesNothing(l: seq<Pair>, op: Op, capacity: nat)
    requires !Uses(l, op, op.key)
    ensures Do(l, op, capacity) == l
  {
  }

  lemma NothingUsed(capacity: nat)
    ensures MostRecent([], HistoryOf([], capacity), capacity)
  {
  }

  /** What call op does to the history. */
  lemma HistoryAfter(ops: seq<Op>, op: Op, capacity: nat)
    ensures var h, h', l := HistoryOf(ops, capacity), HistoryOf(ops + [op], capacity), Run(ops, capacity);
            if Uses(l, op, op.key)
            then Now(h, h', op.key, if op.Set? then op.value else h.last(op.key), |ops|)
            else forall k :: h'.use(k) == h.use(k) && h'.last(k) == h.last(k)
  {
    forall k { UseAfter(ops, op, k, capacity); }
  }

  lemma UsedStep(l: seq<Pair>, op: Op, h: History, h': History, n: int, capacity: nat)
    requires capacity > 0 && MostRecent(l, h, capacity) && Uses(l, op, op.key)
    requires Now(h, h', op.key, if op.Set? then op.value else h.last(op.key), n)
    ensures MostRecent(Do(l, op, capacity), h', capacity)
  {
    var k := op.key;
    if Has(l, k) {
      var p :| p in l && p.key == k;
      ValueIsThere(l, p, h);
      WithoutStaysOrdered(l, k, h);
      RefreshedStep(l, k, if op.Set? then op.value else h.last(k), h, h', n, capacity);
    } else {
      InsertedStep(l, k, op.value, h, h', n, capacity);
    }
  }

  /**
   After any sequence of gets and sets the list is exactly the most recently used keys, as many as fit: so the key a full
   list gives up is the one least recently hit or set, and a value found is always the last one set.
   */
  lemma {:induction false} EveryRunIsMostRecent(ops: seq<Op>, capacity: nat)
    requires capacity > 0
    ensures MostRecent(Run(ops, capacity), HistoryOf(ops, capacity), capacity)
    decreases |ops|
  {
    hide HistoryOf, MostRecent, Now, Uses, Do;
    if ops == [] {
      NothingUsed(capacity);
    } else {
      var before := ops[..|ops| - 1];
      var op := ops[|ops| - 1];
      EveryRunIsMostRecent(before, capacity);
      assert ops == before + [op];
      HistoryAfter(before, op, capacity);
      var l := Run(before, capacity);
      if Uses(l, op, op.key) {
        UsedStep(l, op, HistoryOf(before, capacity), HistoryOf(ops, capacity), |before|, capacity);
      } else {
        UnusedDoesNothing(l, op, capacity);
        UnusedStep(l, HistoryOf(before, capacity), HistoryOf(ops, capacity), capacity);
      }
    }
  }
}
