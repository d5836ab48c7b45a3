/** Sums over lists without repeats. */
module Sums {

  predicate Distinct<T(==)>(ts: seq<T>) {
    ts == [] || (ts[0] !in ts[1..] && Distinct(ts[1..]))
  }

  lemma {:induction false} DistinctPlaces<T>(ts: seq<T>)
    ensures Distinct(ts) <==> forall i, j | 0 <= i < j < |ts| :: ts[i] != ts[j]
  {
    if ts != [] {
      var rest := ts[1..];
      DistinctPlaces(rest);
      assert forall i | 0 <= i < |rest| :: rest[i] == ts[i + 1];
      if Distinct(ts) {
        forall i, j | 0 <= i < j < |ts|
          ensures ts[i] != ts[j]
        {
          assert rest[j - 1] == ts[j] && (i > 0 ==> rest[i - 1] == ts[i]);
        }
      }
    }
  }

  lemma {:induction false} DistinctAppend<T>(ts: seq<T>, t: T)
    requires Distinct(ts) && t !in ts
    ensures Distinct(ts + [t])
  {
    if ts != [] {
      DistinctAppend(ts[1..], t);
      assert (ts + [t])[1..] == ts[1..] + [t];
    }
  }

  function SumOver<T>(ts: seq<T>, f: T -> nat): nat {
    if ts == [] then 0 else f(ts[0]) + SumOver(ts[1..], f)
  }

  lemma {:induction false} SumsAdd<T>(ts: seq<T>, f: T -> nat, g: T -> nat, h: T -> nat)
    requires forall t | t in ts :: f(t) == g(t) + h(t)
    ensures SumOver(ts, f) == SumOver(ts, g) + SumOver(ts, h)
  {
    if ts != [] {
      SumsAdd(ts[1..], f, g, h);
    }
  }

  lemma {:induction false} NothingSums<T>(ts: seq<T>, f: T -> nat)
    requires forall t | t in ts :: f(t) == 0
    ensures SumOver(ts, f) == 0
  {
    if ts != [] {
      NothingSums(ts[1..], f);
    }
  }

  function OneOnly<T(==)>(one: T, n: nat): T -> nat {
    t => if t == one then n else 0
  }

  /** What goes to one of the listed keys is the sum. */
  lemma {:induction false} OneSums<T>(ts: seq<T>, one: T, n: nat)
    requires Distinct(ts)
    ensures SumOver(ts, OneOnly(one, n)) == if one in ts then n else 0
  {
    if ts != [] {
      OneSums(ts[1..], one, n);
    }
  }
}
