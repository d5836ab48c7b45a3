/** The keys a most-recently-used list was last used with, as a front part of it. */
module RecentKeys {
  import opened Text
  import opened MruList

  function KeysOf(l: seq<Pair>): set<string> {
    set p | p in l :: p.key
  }

  predicate OneEach(l: seq<Pair>) {
    l == [] || (!Has(l[1..], l[0].key) && OneEach(l[1..]))
  }

  lemma KeyIffHas(l: seq<Pair>, k: string)
    ensures k in KeysOf(l) <==> Has(l, k)
  {
  }

  lemma {:induction false} OneEachCounts(l: seq<Pair>)
    requires OneEach(l)
    ensures |l| == |KeysOf(l)|
  {
    if l != [] {
      OneEachCounts(l[1..]);
      KeyIffHas(l[1..], l[0].key);
      assert l == [l[0]] + l[1..];
      assert KeysOf(l) == KeysOf(l[1..]) + {l[0].key};
    }
  }

  lemma {:induction false} WithoutKeys(l: seq<Pair>, k: string)
    ensures KeysOf(Without(l, k)) == KeysOf(l) - {k}
    ensures OneEach(l) ==> OneEach(Without(l, k))
  {
    if l != [] {
      WithoutKeys(l[1..], k);
      if l[0].key != k {
        assert Without(l, k)[1..] == Without(l[1..], k);
      }
    }
  }

  lemma {:induction false} WithoutOfConcat(a: seq<Pair>, b: seq<Pair>, k: string)
    ensures Without(a + b, k) == Without(a, k) + Without(b, k)
  {
    hide Has, Without;
    if a == [] {
      WithoutOfNothing(k);
      assert a + b == b;
    } else {
      var rest := a[1..];
      WithoutOfConcat(rest, b, k);
      WithoutOfCons(a[0], rest, k);
      WithoutOfCons(a[0], rest + b, k);
      HeadAndRest(a, b);
      Regroup([a[0]], Without(rest, k), Without(b, k));
    }
  }

  lemma HeadAndRest<T>(a: seq<T>, b: seq<T>)
    requires a != []
    ensures a == [a[0]] + a[1..] && a + b == [a[0]] + (a[1..] + b)
  {
  }

  lemma Regroup<T>(a: seq<T>, b: seq<T>, c: seq<T>)
    ensures a + (b + c) == (a + b) + c
  {
  }

  lemma WithoutOfNothing(k: string)
    ensures Without([], k) == []
  {
  }

  lemma WithoutOfCons(p: Pair, l: seq<Pair>, k: string)
    ensures Without([p] + l, k) == if p.key == k then Without(l, k) else [p] + Without(l, k)
  {
    assert ([p] + l)[1..] == l;
  }

  /** The list begins with this part, which has one entry for each of its keys. */
  ghost predicate Fronts(l: seq<Pair>, front: seq<Pair>) {
    front <= l && OneEach(front)
  }

  /** A hit, or a set that counts, adds its key to the front part; as long as that fits nothing of it goes. */
  lemma UseJoinsFront(l: seq<Pair>, front: seq<Pair>, op: Op, capacity: nat, bound: set<string>) returns (next: seq<Pair>)
    requires Fronts(l, front) && KeysOf(front) <= bound && |bound| <= capacity && op.key in bound && Uses(l, op, op.key)
    ensures Fronts(Do(l, op, capacity), next) && KeysOf(next) == KeysOf(front) + {op.key}
  {
    hide Do, Uses, Without, OneEach, KeysOf, Has, Cut;
    var first := UsedList(l, op, capacity);
    var k, rest := op.key, l[|front|..];
    next := [first] + Without(front, k);
    JoinedKeys(front, first);
    OneEachCounts(next);
    Subset(KeysOf(next), bound);
    SplitWithout(l, front, k);
    PrefixSurvivesCut(first, Without(l, k), Without(front, k), Without(rest, k), capacity);
  }

  lemma UsedList(l: seq<Pair>, op: Op, capacity: nat) returns (first: Pair)
    requires Uses(l, op, op.key)
    ensures first.key == op.key
    ensures Do(l, op, capacity) == [first] + Without(l, op.key) || Do(l, op, capacity) == Cut([first] + Without(l, op.key), capacity)
  {
    first := Pair(op.key, if op.Get? then ValueOf(l, op.key) else op.value);
  }

  lemma SplitWithout(l: seq<Pair>, front: seq<Pair>, k: string)
    requires front <= l
    ensures Without(l, k) == Without(front, k) + Without(l[|front|..], k)
  {
    hide Without;
    assert l == front + l[|front|..];
    WithoutOfConcat(front, l[|front|..], k);
  }

  lemma PrefixSurvivesCut(first: Pair, all: seq<Pair>, kept: seq<Pair>, rest: seq<Pair>, capacity: nat)
    requires all == kept + rest && |kept| + 1 <= capacity
    ensures [first] + kept <= [first] + all && [first] + kept <= Cut([first] + all, capacity)
  {
    assert [first] + all == ([first] + kept) + rest;
  }

  lemma JoinedKeys(front: seq<Pair>, first: Pair)
    requires OneEach(front)
    ensures var next := [first] + Without(front, first.key); OneEach(next) && KeysOf(next) == KeysOf(front) + {first.key}
  {
    var next := [first] + Without(front, first.key);
    WithoutKeys(front, first.key);
    KeyIffHas(Without(front, first.key), first.key);
    hide Without, Has;
    assert next[1..] == Without(front, first.key);
    assert KeysOf(next) == {first.key} + KeysOf(Without(front, first.key));
  }

  lemma Subset(a: set<string>, b: set<string>)
    requires a <= b
    ensures |a| <= |b|
  {
    if a != {} {
      var x :| x in a;
      Subset(a - {x}, b - {x});
    }
  }
}
