/** The query-embedding cache, a list and a map of shared entries, and the batch embed that uses it. */
module QueryCache {
  import opened Text
  import opened MruList

  class Entry {
    const key: string
    var embedding: array<real>
    ghost var value: seq<real>        // what the array holds; no array is written to once an entry has it

    constructor (key: string, embedding: array<real>)
      ensures this.key == key && this.embedding == embedding && value == embedding[..]
    {
      this.key, this.embedding, value := key, embedding, embedding[..];
    }
  }

  method CloneEmbedding(a: array<real>) returns (r: array<real>)
    ensures fresh(r) && r[..] == a[..]
  {
    r := new real[a.Length](i requires 0 <= i < a.Length reads a => a[i]);
    assert r[..] == a[..];
  }

  // ----- lists of entries

  ghost function PairOf(e: Entry): Pair
    reads e
  {
    Pair(e.key, e.value)
  }

  ghost function ContentsOf(ll: seq<Entry>): (l: seq<Pair>)
    reads ll
    ensures |l| == |ll|
  {
    if ll == [] then [] else [PairOf(ll[0])] + ContentsOf(ll[1..])
  }

  lemma {:induction false} ContentsMembers(ll: seq<Entry>)
    ensures forall e | e in ll :: PairOf(e) in ContentsOf(ll)
    ensures forall p | p in ContentsOf(ll) :: exists e | e in ll :: p == PairOf(e)
  {
    if ll != [] {
      ContentsMembers(ll[1..]);
      assert ContentsOf(ll)[1..] == ContentsOf(ll[1..]);
    }
  }

  twostate lemma {:induction false} SameContents(ll: seq<Entry>)
    requires forall e | e in ll :: old(allocated(e)) && e.value == old(e.value)
    ensures ContentsOf(ll) == old(ContentsOf(ll))
  {
    if ll != [] {
      SameContents(ll[1..]);
    }
  }

  lemma ContentsOfCons(e: Entry, ll: seq<Entry>)
    ensures ContentsOf([e] + ll) == [PairOf(e)] + ContentsOf(ll)
    ensures Listed(ll) && e !in ll ==> Listed([e] + ll)
  {
    assert ([e] + ll)[1..] == ll;
  }

  predicate Listed(ll: seq<Entry>) {
    ll == [] || (ll[0] !in ll[1..] && Listed(ll[1..]))
  }

  /** The list without an entry (container/list's Remove). */
  function Unlink(ll: seq<Entry>, e: Entry): (r: seq<Entry>)
    ensures forall x | x in r :: x in ll && x != e
    ensures forall x | x in ll :: x == e || x in r
  {
    if ll == [] then [] else if ll[0] == e then Unlink(ll[1..], e) else [ll[0]] + Unlink(ll[1..], e)
  }

  lemma {:induction false} UnlinkedContents(ll: seq<Entry>, e: Entry)
    requires Listed(ll) && forall x | x in ll && x.key == e.key :: x == e
    ensures Listed(Unlink(ll, e)) && |Unlink(ll, e)| == |ll| - if e in ll then 1 else 0
    ensures ContentsOf(Unlink(ll, e)) == Without(ContentsOf(ll), e.key)
  {
    ContentsMembers(ll);
    if ll != [] {
      UnlinkedContents(ll[1..], e);
      assert ContentsOf(ll)[1..] == ContentsOf(ll[1..]);
      if ll[0] != e {
        assert Unlink(ll, e)[1..] == Unlink(ll[1..], e);
      }
    }
  }

  lemma {:induction false} ContentsValue(ll: seq<Entry>, e: Entry)
    requires e in ll && forall x | x in ll && x.key == e.key :: x == e
    ensures Has(ContentsOf(ll), e.key) && ValueOf(ContentsOf(ll), e.key) == e.value
  {
    ContentsMembers(ll);
    assert ContentsOf(ll)[1..] == ContentsOf(ll[1..]);
    if ll[0] != e {
      ContentsValue(ll[1..], e);
    }
  }

  // ----- the cache

  ghost predicate Linked(ll: seq<Entry>, byKey: map<string, Entry>) {
    && Listed(ll) && |byKey| == |ll|
    && (forall e | e in ll :: e.key in byKey && byKey[e.key] == e)
    && (forall k | k in byKey :: byKey[k] in ll && byKey[k].key == k)
  }

  class Cache {
    const capacity: nat
    var ll: seq<Entry>                // front first
    var byKey: map<string, Entry>
    ghost var repr: set<object>       // the cache, its entries and their arrays

    /** List and map hold the same entries, one for each key, and no more than fit. */
    ghost predicate Valid()
      reads this, repr
    {
      && this in repr
      && (forall e | e in ll :: e in repr && e.embedding in repr && e.embedding[..] == e.value && Accepts(e.key, e.value))
      && Linked(ll, byKey) && |ll| <= capacity && capacity > 0
    }

    /** What the cache holds, most recently used first. */
    ghost function Contents(): (l: seq<Pair>)
      reads this, ll
    {
      ContentsOf(ll)
    }

    constructor (capacity: nat)
      requires capacity > 0
      ensures Valid() && Contents() == [] && fresh(repr) && this.capacity == capacity
    {
      this.capacity, ll, byKey, repr := capacity, [], map[], {this};
    }

    lemma KeysFound(key: string)
      requires Valid()
      ensures Has(Contents(), key) <==> key in byKey
      ensures key in byKey ==> ValueOf(Contents(), key) == byKey[key].value
    {
      ContentsMembers(ll);
      if key in byKey {
        ContentsValue(ll, byKey[key]);
      }
    }

    /** A found embedding is a copy; finding it makes its key the most recently used. */
    method Get(key: string) returns (ok: bool, r: array?<real>)
      requires Valid()
      modifies this`ll
      ensures Valid() && Contents() == Do(old(Contents()), MruList.Get(key), capacity)
      ensures ok == (!Blank(key) && Has(old(Contents()), key))
      ensures ok ==> r != null && fresh(r) && r[..] == ValueOf(old(Contents()), key)
      ensures if ok then MovedFirst(old(Contents()), Contents(), key) else Contents() == old(Contents())
    {
      hide Accepts, Blank, ContentsOf, Linked, Unlink, Without, ValueOf;
      KeysFound(key);
      if Blank(key) || key !in byKey {
        return false, null;
      }
      LinkedEntry(ll, byKey, key);
      var e := byKey[key];
      LinkedMoved(ll, byKey, e);
      var rest := Unlink(ll, e);
      ll := [e] + rest;
      r := CloneEmbedding(e.embedding);
      ok := true;
      ContentsOfCons(e, rest);
      SameContents(rest);
    }

    /** A copy is stored under the key, at the front; when that makes one too many, the last entry goes. */
    method Set(key: string, embedding: array<real>)
      requires Valid()
      modifies repr
      ensures Valid() && Contents() == Do(old(Contents()), MruList.Set(key, old(embedding[..])), capacity)
      ensures fresh(repr - old(repr))
      ensures PutFirst(old(Contents()), Contents(), key, old(embedding[..]), capacity)
    {
      hide Blank, ContentsOf, Listed, Without, ValueOf, Cut, PutFirst, Has;
      SetIsFirst(Contents(), key, embedding[..], capacity);
      if Blank(key) || embedding.Length == 0 {
        return;
      }
      KeysFound(key);
      var copy := CloneEmbedding(embedding);
      SameContents(ll);
      ghost var l := Contents();
      if key in byKey {
        Refresh(byKey[key], copy);
        RefreshedFits(l, key, copy[..], |ll|, capacity);
      } else {
        Insert(key, copy);
      }
    }

    method Refresh(e: Entry, copy: array<real>)
      requires Valid() && e in ll && Accepts(e.key, copy[..])
      modifies this`ll, this`repr, e
      ensures Valid() && Contents() == [Pair(e.key, copy[..])] + Without(old(Contents()), e.key)
      ensures repr == old(repr) + {copy}
    {
      hide Accepts, ContentsOf, Linked, Unlink, Without;
      LinkedMoved(ll, byKey, e);
      var rest := Unlink(ll, e);
      e.embedding, e.value := copy, copy[..];
      repr := repr + {copy};
      ll := [e] + rest;
      ContentsOfCons(e, rest);
      SameContents(rest);
    }

    method Insert(key: string, copy: array<real>)
      requires Valid() && key !in byKey && Accepts(key, copy[..])
      modifies this
      ensures Valid() && Contents() == Cut([Pair(key, copy[..])] + old(Contents()), capacity)
      ensures repr >= old(repr) && forall o | o in repr :: o in old(repr) || o == copy || fresh(o)
    {
      hide Accepts, ContentsOf, Listed, Linked, Cut;
      var e := new Entry(key, copy);
      LinkedWithFirst(ll, byKey, e);
      ll := [e] + ll;
      byKey := byKey[key := e];
      repr := repr + {e, copy};
      Evict();
      SameContents(old(ll));
      CutEntries(e, old(ll), ll, capacity);
    }

    method Evict()
      requires Linked(ll, byKey) && capacity > 0
      modifies this`ll, this`byKey
      ensures Linked(ll, byKey) && ll == if |old(ll)| > capacity then old(ll)[..capacity] else old(ll)
    {
      hide Linked, Listed;
      LinkedSize(ll, byKey);
      while |byKey| > capacity
        invariant Linked(ll, byKey) && |byKey| == |ll| <= |old(ll)|
        invariant ll == old(ll)[..|ll|] && (|ll| >= capacity || ll == old(ll))
      {
        LinkedWithoutLast(ll, byKey);
        assert ll[..|ll| - 1] == old(ll)[..|ll| - 1];
        var back := ll[|ll| - 1];
        byKey := byKey - {back.key};
        ll := ll[..|ll| - 1];
        LinkedSize(ll, byKey);
      }
    }
  }

  lemma CutEntries(e: Entry, rest: seq<Entry>, ll: seq<Entry>, capacity: nat)
    requires capacity > 0 && Listed(rest) && e !in rest
    requires ll == if |rest| + 1 > capacity then ([e] + rest)[..capacity] else [e] + rest
    ensures |ll| <= capacity && ContentsOf(ll) == Cut([PairOf(e)] + ContentsOf(rest), capacity)
    ensures forall x | x in ll :: x == e || x in rest
  {
    hide Listed, ContentsOf;
    ContentsOfCons(e, rest);
    PrefixContents([e] + rest, |ll|);
    assert [e] + rest == ([e] + rest)[..|rest| + 1];
  }

  lemma LinkedSize(ll: seq<Entry>, byKey: map<string, Entry>)
    requires Linked(ll, byKey)
    ensures |byKey| == |ll|
  {
  }

  lemma MapSizes<T>(m: map<string, T>, k: string, v: T)
    ensures k in m ==> |m - {k}| == |m| - 1
    ensures k !in m ==> |m[k := v]| == |m| + 1
  {
    assert (m - {k}).Keys == m.Keys - {k};
    assert m[k := v].Keys == m.Keys + {k};
  }

  /** Taking the last entry off list and map keeps them linked. */
  lemma LinkedWithoutLast(ll: seq<Entry>, byKey: map<string, Entry>)
    requires Linked(ll, byKey) && ll != []
    ensures Linked(ll[..|ll| - 1], byKey - {ll[|ll| - 1].key})
  {
    hide Listed, ContentsOf;
    var back := ll[|ll| - 1];
    var rest := ll[..|ll| - 1];
    PrefixContents(ll, |ll| - 1);
    MapSizes(byKey, back.key, back);
    assert ll == rest + [back];
    assert back !in rest;
    assert forall x :: x in ll <==> x in rest || x == back;
    assert forall x | x in rest :: x.key != back.key;
  }

  lemma LinkedWithFirst(ll: seq<Entry>, byKey: map<string, Entry>, e: Entry)
    requires Linked(ll, byKey) && e.key !in byKey
    ensures Linked([e] + ll, byKey[e.key := e]) && e !in ll && Listed(ll)
  {
    hide Listed, ContentsOf;
    assert e !in ll;
    ContentsOfCons(e, ll);
    MapSizes(byKey, e.key, e);
  }

  lemma LinkedEntry(ll: seq<Entry>, byKey: map<string, Entry>, k: string)
    requires Linked(ll, byKey) && k in byKey
    ensures byKey[k] in ll && byKey[k].key == k
  {
  }

  /** Moving an entry to the front keeps list and map linked. */
  lemma LinkedMoved(ll: seq<Entry>, byKey: map<string, Entry>, e: Entry)
    requires Linked(ll, byKey) && e in ll
    ensures Linked([e] + Unlink(ll, e), byKey) && |[e] + Unlink(ll, e)| == |ll|
    ensures ContentsOf(Unlink(ll, e)) == Without(ContentsOf(ll), e.key)
  {
    hide Listed, ContentsOf, Unlink, Without;
    UnlinkedContents(ll, e);
    ContentsOfCons(e, Unlink(ll, e));
  }

  lemma RefreshedFits(l: seq<Pair>, k: string, v: seq<real>, n: nat, capacity: nat)
    requires n <= capacity && |[Pair(k, v)] + Without(l, k)| == n
    ensures Cut([Pair(k, v)] + Without(l, k), capacity) == [Pair(k, v)] + Without(l, k)
  {
  }

  lemma {:induction false} PrefixContents(ll: seq<Entry>, n: nat)
    requires n <= |ll| && Listed(ll)
    ensures Listed(ll[..n]) && ContentsOf(ll[..n]) == ContentsOf(ll)[..n]
    ensures forall i | n <= i < |ll| :: ll[i] !in ll[..n]
  {
    if n > 0 {
      PrefixContents(ll[1..], n - 1);
      assert ll[..n][1..] == ll[1..][..n - 1];
      forall i | n <= i < |ll|
        ensures ll[i] !in ll[..n]
      {
        assert ll[1..][i - 1] == ll[i];
      }
    }
  }
}
