/** compute_group_rank_metrics: how well a returned list meets groups of expected ids, each group met by any of its ids. */
module RankMetrics {
  import opened Scoring

  // ----- groups met

  function GroupsOf(id: string, groups: seq<set<string>>): set<nat> {
    set g: nat | g < |groups| && id in groups[g]
  }

  /** The groups the first n ids meet. */
  function Met(top: seq<string>, groups: seq<set<string>>, n: nat): set<nat>
    requires n <= |top|
  {
    if n == 0 then {} else Met(top, groups, n - 1) + GroupsOf(top[n - 1], groups)
  }

  /** The id at position i meets a group none before it does. */
  predicate MeetsNew(top: seq<string>, groups: seq<set<string>>, i: nat)
    requires i < |top|
  {
    !(GroupsOf(top[i], groups) <= Met(top, groups, i))
  }

  function Relevance(top: seq<string>, groups: seq<set<string>>): seq<bool> {
    seq(|top|, i requires 0 <= i < |top| => MeetsNew(top, groups, i))
  }

  function Trues(rels: seq<bool>): nat
    decreases |rels|
  {
    if rels == [] then 0 else Trues(rels[..|rels| - 1]) + if rels[|rels| - 1] then 1 else 0
  }

  /** The numbers of n groups. */
  function AllGroups(n: nat): (r: set<nat>)
    ensures |r| == n && forall g: nat :: g in r <==> g < n
  {
    if n == 0 then {} else AllGroups(n - 1) + {n - 1}
  }

  /** Each relevant position meets at least one group more, and there are only so many. */
  lemma {:induction false} MetGrows(top: seq<string>, groups: seq<set<string>>, n: nat)
    requires n <= |top|
    ensures Trues(Relevance(top, groups)[..n]) <= |Met(top, groups, n)| <= |groups|
    ensures Met(top, groups, n) <= AllGroups(|groups|)
  {
    if n > 0 {
      MetGrows(top, groups, n - 1);
      var rels := Relevance(top, groups)[..n];
      assert rels[..n - 1] == Relevance(top, groups)[..n - 1];
      var before, after := Met(top, groups, n - 1), Met(top, groups, n);
      if rels[n - 1] {
        var g :| g in GroupsOf(top[n - 1], groups) && g !in before;
        Smaller(before + {g}, after);
      } else {
        assert after == before;
      }
    }
    Smaller(Met(top, groups, n), AllGroups(|groups|));
  }

  lemma Smaller(a: set<nat>, b: set<nat>)
    requires a <= b
    ensures |a| <= |b|
  {
    assert b == a + (b - a);
  }

  lemma {:induction false} MetSoFar(top: seq<string>, longer: seq<string>, groups: seq<set<string>>, n: nat)
    requires top <= longer && n <= |top|
    ensures Met(top, groups, n) == Met(longer, groups, n)
  {
    if n > 0 {
      MetSoFar(top, longer, groups, n - 1);
    }
  }

  lemma {:induction false} MoreMeetMore(top: seq<string>, groups: seq<set<string>>, m: nat, n: nat)
    requires m <= n <= |top|
    ensures Met(top, groups, m) <= Met(top, groups, n)
    decreases n
  {
    if m < n {
      MoreMeetMore(top, groups, m, n - 1);
    }
  }

  /** Something is met if and only if some position is relevant. */
  lemma {:induction false} MetIff(top: seq<string>, groups: seq<set<string>>, n: nat)
    requires n <= |top|
    ensures Met(top, groups, n) == {} <==> forall i | 0 <= i < n :: !MeetsNew(top, groups, i)
  {
    if n > 0 {
      MetIff(top, groups, n - 1);
      var before, own := Met(top, groups, n - 1), GroupsOf(top[n - 1], groups);
      assert before <= before + own && own <= before + own;
      assert before == {} && own <= before ==> before + own == {};
      assert MeetsNew(top, groups, n - 1) <==> !(own <= before);
    }
  }

  /** A group is met exactly when one of its ids is among the first n. */
  lemma {:induction false} MetMeans(top: seq<string>, groups: seq<set<string>>, n: nat, g: nat)
    requires n <= |top|
    ensures g in Met(top, groups, n) <==> g < |groups| && exists i | 0 <= i < n :: top[i] in groups[g]
  {
    if n > 0 {
      MetMeans(top, groups, n - 1, g);
    }
  }

  /** A position counts exactly when it is the first to hold an id of some group. */
  lemma CountsIff(top: seq<string>, groups: seq<set<string>>, i: nat)
    requires i < |top|
    ensures Relevance(top, groups)[i]
            <==> exists g: nat | g < |groups| :: top[i] in groups[g] && forall j | 0 <= j < i :: top[j] !in groups[g]
  {
    hide Met;
    forall g: nat | g < |groups|
      ensures g in Met(top, groups, i) <==> exists j | 0 <= j < i :: top[j] in groups[g]
    {
      MetMeans(top, groups, i, g);
    }
    if !(GroupsOf(top[i], groups) <= Met(top, groups, i)) {
      var g :| g in GroupsOf(top[i], groups) && g !in Met(top, groups, i);
    }
  }

  // ----- discounted gain

  /** Any positive, strictly decreasing gain; the code's is 1 / log2(i + 2). */
  ghost predicate Decreasing(gain: nat -> real) {
    (forall i :: gain(i) > 0.0) && forall i, j | i < j :: gain(i) > gain(j)
  }

  function Dcg(rels: seq<bool>, gain: nat -> real): real
    decreases |rels|
  {
    if rels == [] then 0.0 else Dcg(rels[..|rels| - 1], gain) + if rels[|rels| - 1] then gain(|rels| - 1) else 0.0
  }

  function Ideal(n: nat, gain: nat -> real): real {
    if n == 0 then 0.0 else Ideal(n - 1, gain) + gain(n - 1)
  }

  /** One more relevant position adds exactly its own gain. */
  lemma {:induction false} OneMoreGains(rels: seq<bool>, i: nat, gain: nat -> real)
    requires i < |rels| && !rels[i]
    ensures Dcg(rels[i := true], gain) == Dcg(rels, gain) + gain(i)
    decreases |rels|
  {
    var n := |rels| - 1;
    if i < n {
      OneMoreGains(rels[..n], i, gain);
      assert rels[i := true][..n] == rels[..n][i := true];
    } else {
      assert rels[i := true][..n] == rels[..n];
    }
  }

  lemma {:induction false} NoneGainNothing(rels: seq<bool>, gain: nat -> real)
    requires forall i | 0 <= i < |rels| :: !rels[i]
    ensures Dcg(rels, gain) == 0.0
    decreases |rels|
  {
    if rels != [] {
      NoneGainNothing(rels[..|rels| - 1], gain);
    }
  }

  lemma MoreIsMore(x: real, y: real, most: real)
    requires most > 0.0 && x > y
    ensures x / most > y / most
  {
    var a, b := x / most, y / most;
    assert a * most == x && b * most == y;
    assert (b - a) * most == y - x;
    NotAbove(b - a, most);
  }

  /** Of two lists alike but for one hit, the one that has it earlier has the greater share of the ideal gain. */
  lemma EarlierHitWins(earlier: seq<bool>, later: seq<bool>, i: nat, j: nat, gain: nat -> real, ideal: real)
    requires Decreasing(gain) && ideal > 0.0 && i < j < |earlier| == |later|
    requires earlier[i] && !earlier[j] && !later[i] && later[j]
    requires forall k | 0 <= k < |later| && k != i && k != j :: earlier[k] == later[k]
    ensures Dcg(earlier, gain) / ideal > Dcg(later, gain) / ideal
  {
    var neither := later[j := false];
    OneMoreGains(neither, i, gain);
    OneMoreGains(neither, j, gain);
    assert neither[i := true] == earlier && neither[j := true] == later;
    assert gain(i) > gain(j);
    hide Dcg, Decreasing;
    MoreIsMore(Dcg(earlier, gain), Dcg(later, gain), ideal);
  }

  predicate AllTrue(rels: seq<bool>, n: nat) {
    n <= |rels| && forall i | 0 <= i < n :: rels[i]
  }

  /** With t relevant positions the gain is at most the ideal for t, and is that only when they come first. */
  lemma {:induction false} DcgAtMost(rels: seq<bool>, gain: nat -> real)
    requires Decreasing(gain)
    ensures Trues(rels) <= |rels| && 0.0 <= Dcg(rels, gain) <= Ideal(Trues(rels), gain)
    ensures Dcg(rels, gain) == Ideal(Trues(rels), gain) <==> AllTrue(rels, Trues(rels))
    decreases |rels|
  {
    if rels != [] {
      var n := |rels| - 1;
      var before := rels[..n];
      DcgAtMost(before, gain);
      assert gain(n) > 0.0;
      assert forall i | 0 <= i < n :: before[i] == rels[i];
      if rels[n] && Trues(before) < n {
        assert gain(Trues(before)) > gain(n);
        FullPrefix(rels, Trues(rels));
      }
    }
  }

  /** A prefix that is all relevant, and a relevant position after it, make more than the prefix. */
  lemma {:induction false} FullPrefix(rels: seq<bool>, t: nat)
    requires t <= |rels|
    ensures AllTrue(rels, t) ==> Trues(rels) >= t
    ensures AllTrue(rels, t) && t < |rels| && rels[|rels| - 1] ==> Trues(rels) > t
    decreases |rels|
  {
    if t < |rels| {
      FullPrefix(rels[..|rels| - 1], t);
    } else if rels != [] {
      FullPrefix(rels[..|rels| - 1], t - 1);
    }
  }

  lemma {:induction false} IdealGrows(m: nat, n: nat, gain: nat -> real)
    requires Decreasing(gain) && m <= n
    ensures Ideal(m, gain) <= Ideal(n, gain) && (m < n ==> Ideal(m, gain) < Ideal(n, gain))
    ensures n > 0 ==> Ideal(n, gain) > 0.0
    decreases n
  {
    if m < n {
      IdealGrows(m, n - 1, gain);
      assert gain(n - 1) > 0.0;
    } else if n > 0 {
      IdealGrows(n - 1, n - 1, gain);
      assert gain(n - 1) > 0.0;
    }
  }

  // ----- the metrics

  datatype Metrics = Metrics(top1: nat, hitAtK: nat, hits: nat, recall: real, mrr: real, ndcg: real)

  // Python's slice returned_ids[:k]
  function Top(returned: seq<string>, k: int): (top: seq<string>)
    ensures top <= returned && (k >= 0 ==> |top| == if k < |returned| then k else |returned|)
    ensures k < 0 ==> |top| == if -k <= |returned| then |returned| + k else 0
  {
    if k >= |returned| then returned else if k >= 0 then returned[..k] else if -k <= |returned| then returned[..|returned| + k] else []
  }

  function Least(a: nat, k: int): nat {
    if k <= 0 then 0 else if a < k then a else k
  }

  /** The nested loops: the groups met, and which positions met a new one. */
  method Match(top: seq<string>, groups: seq<set<string>>) returns (matched: set<nat>, rels: seq<bool>)
    ensures matched == Met(top, groups, |top|) && rels == Relevance(top, groups)
  {
    matched, rels := {}, [];
    for i := 0 to |top|
      invariant matched == Met(top, groups, i) && |rels| == i
      invariant forall j | 0 <= j < i :: rels[j] == MeetsNew(top, groups, j)
    {
      var before, matchedNow := matched, false;
      for g := 0 to |groups|
        invariant forall h: nat :: h in matched <==> h in before || (h < g && top[i] in groups[h])
        invariant matchedNow <==> matched != before
      {
        if g in matched {
          continue;
        }
        if top[i] in groups[g] {
          matched := matched + {g};
          matchedNow := true;
        }
      }
      assert matched == before + GroupsOf(top[i], groups);
      rels := rels + [matchedNow];
    }
  }

  method DcgBinary(rels: seq<bool>, gain: nat -> real) returns (score: real)
    ensures score == Dcg(rels, gain)
  {
    score := 0.0;
    for i := 0 to |rels|
      invariant score == Dcg(rels[..i], gain)
    {
      assert rels[..i + 1][..i] == rels[..i];
      if rels[i] {
        score := score + gain(i);
      }
    }
    assert rels[..|rels|] == rels;
  }

  lemma {:induction false} OnesAreIdeal(n: nat, gain: nat -> real)
    ensures Dcg(seq(n, _ => true), gain) == Ideal(n, gain)
  {
    if n > 0 {
      OnesAreIdeal(n - 1, gain);
      assert seq(n, _ => true)[..n - 1] == seq(n - 1, _ => true);
    }
  }

  /** One over the first relevant position, or zero when there is none. */
  ghost predicate IsMrr(rels: seq<bool>, mrr: real) {
    || (mrr == 0.0 && forall i | 0 <= i < |rels| :: !rels[i])
    || exists first | 0 <= first < |rels| :: IsFirst(rels, first) && mrr == 1.0 / (first + 1) as real
  }

  predicate IsFirst(rels: seq<bool>, first: nat) {
    first < |rels| && rels[first] && forall i | 0 <= i < first :: !rels[i]
  }

  method Mrr(rels: seq<bool>) returns (mrr: real)
    ensures IsMrr(rels, mrr) && 0.0 <= mrr <= 1.0
    ensures mrr > 0.0 <==> exists i | 0 <= i < |rels| :: rels[i]
  {
    var first := 0;
    while first < |rels| && !rels[first]
      invariant first <= |rels| && forall i | 0 <= i < first :: !rels[i]
    {
      first := first + 1;
    }
    if first == |rels| {
      return 0.0;
    }
    assert IsFirst(rels, first);
    mrr := 1.0 / (first + 1) as real;
    Share(1.0, (first + 1) as real);
    assert mrr * (first + 1) as real == 1.0;
  }

  method Ndcg(rels: seq<bool>, relevant: nat, k: int, gain: nat -> real) returns (ndcg: real)
    ensures ndcg == if Ideal(Least(relevant, k), gain) > 0.0 then Dcg(rels, gain) / Ideal(Least(relevant, k), gain) else 0.0
  {
    var dcg := DcgBinary(rels, gain);
    var n := Least(relevant, k);
    OnesAreIdeal(n, gain);
    var idcg := DcgBinary(seq(n, _ => true), gain);
    ndcg := if idcg > 0.0 then dcg / idcg else 0.0;
  }

  /** The gain is between zero and the ideal one, and ideal only when every position that could meet a new group does. */
  lemma GainIsBounded(top: seq<string>, groups: seq<set<string>>, k: int, gain: nat -> real)
    requires Decreasing(gain) && (k >= 1 ==> |top| <= k)
    ensures 0.0 <= Dcg(Relevance(top, groups), gain)
    ensures k >= 1 ==> (Dcg(Relevance(top, groups), gain) <= Ideal(Least(|groups|, k), gain)
                       && (Dcg(Relevance(top, groups), gain) == Ideal(Least(|groups|, k), gain) <==>
                           AllTrue(Relevance(top, groups), Least(|groups|, k))))
  {
    hide Met, MeetsNew, Decreasing;
    var rels := Relevance(top, groups);
    DcgAtMost(rels, gain);
    MetGrows(top, groups, |top|);
    assert rels[..|top|] == rels;
    if k >= 1 {
      var c := Least(|groups|, k);
      IdealGrows(Trues(rels), c, gain);
      if c <= |rels| {
        FullPrefix(rels, c);
      }
    }
  }

  lemma Share(x: real, most: real)
    requires 0.0 <= x <= most && most > 0.0
    ensures 0.0 <= x / most <= 1.0 && (x / most == 1.0 <==> x == most)
  {
    var q := x / most;
    assert q * most == x;
    assert (-q) * most == -x && (q - 1.0) * most == x - most && (1.0 - q) * most == most - x;
    NotAbove(-q, most);
    NotAbove(q - 1.0, most);
    NotAbove(1.0 - q, most);
  }

  lemma NdcgIsBounded(top: seq<string>, groups: seq<set<string>>, k: int, gain: nat -> real)
    requires Decreasing(gain) && k >= 1 && |top| <= k && groups != []
    ensures var ideal := Ideal(Least(|groups|, k), gain);
            var dcg := Dcg(Relevance(top, groups), gain);
            && ideal > 0.0 && 0.0 <= dcg / ideal <= 1.0
            && (dcg / ideal == 1.0 <==> AllTrue(Relevance(top, groups), Least(|groups|, k)))
  {
    hide Dcg, Ideal, Relevance, Decreasing, AllTrue;
    var n := Least(|groups|, k);
    GainIsBounded(top, groups, k, gain);
    IdealGrows(n, n, gain);
    Share(Dcg(Relevance(top, groups), gain), Ideal(n, gain));
  }

  /** There are no more hits than groups, and there is a hit exactly when some position is relevant. */
  lemma HitIff(top: seq<string>, groups: seq<set<string>>)
    ensures |Relevance(top, groups)| == |top| && |Met(top, groups, |top|)| <= |groups|
    ensures (exists i | 0 <= i < |top| :: Relevance(top, groups)[i]) <==> |Met(top, groups, |top|)| > 0
  {
    hide Met, MeetsNew;
    MetGrows(top, groups, |top|);
    MetIff(top, groups, |top|);
    assert |Met(top, groups, |top|)| == 0 <==> Met(top, groups, |top|) == {};
    assert forall i | 0 <= i < |top| :: Relevance(top, groups)[i] == MeetsNew(top, groups, i);
  }

  /**
   For every list, even with repeats, every family of groups and every k of at least 1: nDCG is in [0,1], and 1 exactly when
   each of the first min(groups, k) positions meets a new group; recall is in [0,1]; MRR is positive exactly on a hit, and one
   over the first position that meets a group.
   */
  method ComputeGroupRankMetrics(returned: seq<string>, groups: seq<set<string>>, k: int, gain: nat -> real) returns (m: Metrics)
    requires Decreasing(gain)
    ensures groups == [] ==> m == Metrics(0, 0, 0, 0.0, 0.0, 0.0)
    ensures var top := Top(returned, k);
            m.hits == |Met(top, groups, |top|)| <= |groups|
            && (groups != [] ==> m.recall == m.hits as real / |groups| as real)
            && m.top1 == if |top| > 0 && Relevance(top, groups)[0] then 1 else 0
    ensures 0.0 <= m.recall <= 1.0
    ensures IsMrr(Relevance(Top(returned, k), groups), m.mrr) && 0.0 <= m.mrr <= 1.0
    ensures m.hitAtK == (if m.hits > 0 then 1 else 0) && (m.mrr > 0.0 <==> m.hits > 0)
    ensures groups != [] ==>
              var top, ideal := Top(returned, k), Ideal(Least(|groups|, k), gain);
              m.ndcg == if ideal > 0.0 then Dcg(Relevance(top, groups), gain) / ideal else 0.0
    ensures k >= 1 ==> 0.0 <= m.ndcg <= 1.0
    ensures k >= 1 && groups != [] ==>
              (m.ndcg == 1.0 <==> EachMeetsNew(Top(returned, k), groups, k))
  {
    var top := Top(returned, k);
    if |groups| == 0 {
      NoneMet(top, groups, |top|);
      return Metrics(0, 0, 0, 0.0, 0.0, 0.0);
    }
    hide Met, MeetsNew, EachMeetsNew, Dcg, Ideal, Decreasing, AllTrue, IsMrr, Least, Relevance, Top;
    var matched, rels := Match(top, groups);
    HitIff(top, groups);
    var hits, relevant := |matched|, |groups|;
    var top1 := if |rels| > 0 && rels[0] then 1 else 0;
    Share(hits as real, relevant as real);
    var recall := hits as real / relevant as real;
    var mrr := Mrr(rels);
    var ndcg := Ndcg(rels, relevant, k, gain);
    if k >= 1 {
      NdcgIsBounded(top, groups, k, gain);
      AllMeetNew(top, groups, k);
    }
    m := Metrics(top1, if hits > 0 then 1 else 0, hits, recall, mrr, ndcg);
  }

  /** There are min(groups, k) positions, and each of them meets a new group. */
  ghost predicate EachMeetsNew(top: seq<string>, groups: seq<set<string>>, k: int) {
    && (k <= |top| || |groups| <= |top|)
    && forall i | 0 <= i < k && i < |groups| && i < |top| :: MeetsNew(top, groups, i)
  }

  lemma AllMeetNew(top: seq<string>, groups: seq<set<string>>, k: int)
    ensures AllTrue(Relevance(top, groups), Least(|groups|, k))
            <==> EachMeetsNew(top, groups, k)
  {
    hide MeetsNew;
    var n := Least(|groups|, k);
    if n <= |top| {
      if EachMeetsNew(top, groups, k) {
        assert forall i | 0 <= i < n :: MeetsNew(top, groups, i) && Relevance(top, groups)[i];
      } else {
        var i :| 0 <= i < n && !MeetsNew(top, groups, i);
        assert !Relevance(top, groups)[i];
      }
    }
  }

  lemma {:induction false} NoneMet(top: seq<string>, groups: seq<set<string>>, n: nat)
    requires groups == [] && n <= |top|
    ensures Met(top, groups, n) == {} && forall i | 0 <= i < n :: !MeetsNew(top, groups, i)
  {
    if n > 0 {
      NoneMet(top, groups, n - 1);
    }
  }

  /** A longer cut meets every group a shorter one meets, so hits and recall never fall as k grows. */
  lemma HitsGrow(returned: seq<string>, groups: seq<set<string>>, j: nat, k: nat)
    requires j <= k
    ensures |Met(Top(returned, j), groups, |Top(returned, j)|)| <= |Met(Top(returned, k), groups, |Top(returned, k)|)|
  {
    hide Met;
    var a, b := Top(returned, j), Top(returned, k);
    MetSoFar(a, b, groups, |a|);
    MoreMeetMore(b, groups, |a|, |b|);
    Smaller(Met(b, groups, |a|), Met(b, groups, |b|));
  }
}
