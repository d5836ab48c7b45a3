/** Reciprocal rank fusion of a dense and a lexical result list. */
module RankFusion {
  import opened Text
  import opened Scoring
  import opened Sums

  const K := 60 // reciprocalRankFusionK

  datatype Hit = Hit(id: string, score: real)
  datatype Best = Best(rank: nat, score: real)
  datatype Signal = Signal(denseScore: real, denseRank: nat, lexicalScore: real, lexicalRank: nat, rrfScore: real)

  // ----- what the lists say about an id

  predicate Names(h: Hit, id: string) {
    TrimSpace(h.id) == id
  }

  /** The place, from 1, of the id's first occurrence; 0 when it has none. */
  function Rank(hits: seq<Hit>, id: string): nat
    decreases |hits|
  {
    if hits == [] then 0
    else
      var n := |hits| - 1;
      if Rank(hits[..n], id) > 0 then Rank(hits[..n], id) else if Names(hits[n], id) then |hits| else 0
  }

  /** The greatest score over all the id's occurrences. */
  function Top(hits: seq<Hit>, id: string): real
    requires Rank(hits, id) > 0
    decreases |hits|
  {
    var n := |hits| - 1;
    if Rank(hits[..n], id) == 0 then hits[n].score
    else if Names(hits[n], id) && hits[n].score > Top(hits[..n], id) then hits[n].score
    else Top(hits[..n], id)
  }

  lemma {:induction false} RankIsFirst(hits: seq<Hit>, id: string)
    ensures Rank(hits, id) <= |hits|
    ensures Rank(hits, id) == 0 ==> forall i | 0 <= i < |hits| :: !Names(hits[i], id)
    ensures Rank(hits, id) > 0 ==>
              Names(hits[Rank(hits, id) - 1], id) && forall i | 0 <= i < Rank(hits, id) - 1 :: !Names(hits[i], id)
    decreases |hits|
  {
    hide Names;
    if hits != [] {
      RankIsFirst(hits[..|hits| - 1], id);
    }
  }

  lemma {:induction false} TopIsGreatest(hits: seq<Hit>, id: string)
    requires Rank(hits, id) > 0
    ensures exists i | 0 <= i < |hits| :: Names(hits[i], id) && hits[i].score == Top(hits, id)
    ensures forall i | 0 <= i < |hits| && Names(hits[i], id) :: hits[i].score <= Top(hits, id)
    decreases |hits|
  {
    hide Names;
    var n := |hits| - 1;
    RankIsFirst(hits[..n], id);
    if Rank(hits[..n], id) > 0 {
      TopIsGreatest(hits[..n], id);
      var i :| 0 <= i < n && Names(hits[..n][i], id) && hits[..n][i].score == Top(hits[..n], id);
      assert hits[..n][i] == hits[i];
    }
    forall i | 0 <= i < n && Names(hits[i], id)
      ensures hits[i].score <= Top(hits, id)
    {
      assert hits[..n][i] == hits[i];
    }
  }

  /** The ids a list holds, blank ones left out. */
  function Ids(hits: seq<Hit>): set<string> {
    set h | h in hits && !Names(h, "") :: TrimSpace(h.id)
  }

  lemma IdsAreRanked(hits: seq<Hit>, id: string)
    ensures id in Ids(hits) <==> id != "" && Rank(hits, id) > 0
  {
    hide Rank, TrimSpace;
    RankIsFirst(hits, id);
  }

  function Part(rank: nat): (r: real)
    ensures r >= 0.0
    ensures r == 0.0 <==> rank == 0
  {
    if rank == 0 then 0.0 else 1.0 / (K + rank) as real
  }

  function Fused(dense: seq<Hit>, lexical: seq<Hit>, id: string): real {
    Part(Rank(dense, id)) + Part(Rank(lexical, id))
  }

  function RrfToNormalized(rrf: real): real {
    if rrf <= 0.0 then 0.0 else Clamp01(rrf / (rrf + 1.0 / (K + 1) as real))
  }

  // ----- the order of the result

  /** Higher score first; equal scores by id. */
  predicate Precedes(score: string -> real, a: string, b: string) {
    score(a) > score(b) || (score(a) == score(b) && Less(a, b))
  }

  lemma OrderIsTotal(score: string -> real, a: string, b: string, c: string)
    ensures !Precedes(score, a, a)
    ensures a == b || Precedes(score, a, b) || Precedes(score, b, a)
    ensures Precedes(score, a, b) && Precedes(score, b, c) ==> Precedes(score, a, c)
  {
    LessIrreflexive(a);
    LessTotal(a, b);
    if Less(a, b) && Less(b, c) {
      LessTransitive(a, b, c);
    }
  }

  predicate Sorted(ids: seq<string>, score: string -> real) {
    ids == [] || ((forall b | b in ids[1..] :: Precedes(score, ids[0], b)) && Sorted(ids[1..], score))
  }

  /** The first n of a set of ids in order of score: distinct, sorted, and nothing left out goes before anything kept. */
  predicate FirstOf(ids: seq<string>, all: set<string>, score: string -> real, n: nat) {
    && Sorted(ids, score)
    && |ids| == (if |all| < n then |all| else n)
    && (forall a | a in ids :: a in all)
    && (forall a, b | a in ids && b in all && b !in ids :: Precedes(score, a, b))
  }

  /** There is just one such list, so the order a map hands out its keys in cannot matter. */
  lemma {:induction false} FirstOfIsUnique(x: seq<string>, y: seq<string>, all: set<string>, score: string -> real, n: nat)
    requires FirstOf(x, all, score, n) && FirstOf(y, all, score, n)
    ensures x == y
    decreases n
  {
    hide Precedes, Sorted;
    if x != [] {
      FirstIsLeast(x, all, score, n);
      FirstIsLeast(y, all, score, n);
      OrderIsTotal(score, x[0], y[0], x[0]);
      FirstOfIsUnique(x[1..], y[1..], all - {x[0]}, score, n - 1);
      assert x == [x[0]] + x[1..] && y == [y[0]] + y[1..];
    }
  }

  lemma FirstIsLeast(x: seq<string>, all: set<string>, score: string -> real, n: nat)
    requires FirstOf(x, all, score, n) && x != []
    ensures x[0] in all && forall b | b in all :: b == x[0] || Precedes(score, x[0], b)
    ensures FirstOf(x[1..], all - {x[0]}, score, n - 1)
  {
    hide Precedes;
    OrderIsTotal(score, x[0], x[0], x[0]);
    assert forall b | b in x :: b == x[0] || b in x[1..];
    assert x[0] in x;
    assert |all - {x[0]}| == |all| - 1;
  }

  lemma {:induction false} ScoresThatAgree(ids: seq<string>, all: set<string>, f: string -> real, g: string -> real, n: nat)
    requires FirstOf(ids, all, f, n) && forall id | id in all :: f(id) == g(id)
    ensures FirstOf(ids, all, g, n)
    decreases n
  {
    if ids != [] {
      FirstIsLeast(ids, all, f, n);
      ScoresThatAgree(ids[1..], all - {ids[0]}, f, g, n - 1);
    }
  }

  // sort.Slice with the comparison above
  function SortIds(ids: seq<string>, score: string -> real): seq<string> {
    if ids == [] then [] else Insert(ids[0], SortIds(ids[1..], score), score)
  }

  function Insert(id: string, ids: seq<string>, score: string -> real): (r: seq<string>)
    ensures |r| == |ids| + 1 && forall x :: x in r <==> x == id || x in ids
  {
    if ids == [] || Precedes(score, id, ids[0]) then
      assert forall x :: x in [id] + ids <==> x == id || x in ids;
      [id] + ids
    else
      assert forall x :: x in ids <==> x == ids[0] || x in ids[1..];
      [ids[0]] + Insert(id, ids[1..], score)
  }

  lemma {:induction false} InsertKeepsSorted(id: string, ids: seq<string>, score: string -> real)
    requires Sorted(ids, score) && id !in ids
    ensures Sorted(Insert(id, ids, score), score)
  {
    hide Precedes;
    if ids != [] {
      OrderIsTotal(score, id, ids[0], id);
      if Precedes(score, id, ids[0]) {
        forall b | b in ids
          ensures Precedes(score, id, b)
        {
          OrderIsTotal(score, id, ids[0], b);
        }
        assert ([id] + ids)[1..] == ids;
      } else {
        InsertKeepsSorted(id, ids[1..], score);
        assert Insert(id, ids, score)[1..] == Insert(id, ids[1..], score);
      }
    }
  }

  lemma {:induction false} SortIdsSorts(ids: seq<string>, score: string -> real)
    requires Distinct(ids)
    ensures Sorted(SortIds(ids, score), score) && |SortIds(ids, score)| == |ids|
    ensures forall x :: x in SortIds(ids, score) <==> x in ids
  {
    hide Precedes;
    if ids != [] {
      SortIdsSorts(ids[1..], score);
      InsertKeepsSorted(ids[0], SortIds(ids[1..], score), score);
      assert forall x :: x in ids <==> x == ids[0] || x in ids[1..];
    }
  }

  lemma {:induction false} PrefixIsFirst(ids: seq<string>, all: set<string>, score: string -> real, n: nat)
    requires Sorted(ids, score) && |ids| == |all| && forall x :: x in ids <==> x in all
    ensures FirstOf(if |ids| > n then ids[..n] else ids, all, score, n)
    decreases n
  {
    hide Precedes;
    if ids != [] && n > 0 {
      OrderIsTotal(score, ids[0], ids[0], ids[0]);
      var rest := all - {ids[0]};
      assert ids[0] in ids && forall x :: x in ids <==> x == ids[0] || x in ids[1..];
      assert |rest| == |all| - 1;
      PrefixIsFirst(ids[1..], rest, score, n - 1);
      if |ids| > n {
        assert ids[..n][1..] == ids[1..][..n - 1];
        assert forall x :: x in ids[..n] <==> x == ids[0] || x in ids[1..][..n - 1];
      }
    }
  }

  // ----- fuseCandidatesByRRF

  /** Every id in the list, with its rank and its best score. */
  ghost predicate Tells(best: map<string, Best>, hits: seq<Hit>, clamped: bool) {
    && (forall id :: id in best <==> id != "" && Rank(hits, id) > 0)
    && (forall id | id in best ::
          best[id] == Best(Rank(hits, id), if clamped then Clamp01(Top(hits, id)) else Top(hits, id)))
  }

  /** A map after one more occurrence of an id. */
  function Noted(best: map<string, Best>, id: string, rank: nat, score: real): map<string, Best> {
    if id == "" then best
    else if id !in best || rank < best[id].rank then best[id := Best(rank, score)]
    else if score > best[id].score then best[id := Best(best[id].rank, score)]
    else best
  }

  lemma OneMoreHit(best: map<string, Best>, hits: seq<Hit>, i: nat, clamped: bool)
    requires i < |hits| && Tells(best, hits[..i], clamped)
    ensures var s := if clamped then Clamp01(hits[i].score) else hits[i].score;
            Tells(Noted(best, TrimSpace(hits[i].id), i + 1, s), hits[..i + 1], clamped)
  {
    hide TrimSpace;
    var seen := hits[..i + 1];
    assert seen[..i] == hits[..i];
    RankIsFirst(hits[..i], TrimSpace(hits[i].id));
    forall id: string
      ensures Rank(seen, id) == if Rank(hits[..i], id) > 0 then Rank(hits[..i], id) else if Names(hits[i], id) then i + 1 else 0
    {
    }
  }

  method BestDense(dense: seq<Hit>) returns (best: map<string, Best>)
    ensures Tells(best, dense, false)
  {
    best := map[];
    assert Tells(best, [], false);
    hide Tells, TrimSpace;
    for idx := 0 to |dense|
      invariant Tells(best, dense[..idx], false)
    {
      OneMoreHit(best, dense, idx, false);
      var id, rank, score := TrimSpace(dense[idx].id), idx + 1, dense[idx].score;
      if id == "" {
        continue;
      }
      if id !in best || rank < best[id].rank {
        best := best[id := Best(rank, score)];
        continue;
      }
      if score > best[id].score {
        best := best[id := Best(best[id].rank, score)];
      }
    }
    assert dense[..|dense|] == dense;
  }

  method BestLexical(lexical: seq<Hit>) returns (best: map<string, Best>)
    ensures Tells(best, lexical, true)
  {
    best := map[];
    assert Tells(best, [], true);
    hide Tells, TrimSpace;
    for idx := 0 to |lexical|
      invariant Tells(best, lexical[..idx], true)
    {
      OneMoreHit(best, lexical, idx, true);
      var id, rank, score := TrimSpace(lexical[idx].id), idx + 1, Clamp01(lexical[idx].score);
      if id == "" {
        continue;
      }
      if id !in best || rank < best[id].rank {
        best := best[id := Best(rank, score)];
        continue;
      }
      if score > best[id].score {
        best := best[id := Best(best[id].rank, score)];
      }
    }
    assert lexical[..|lexical|] == lexical;
  }

  function DenseSignal(dense: seq<Hit>, id: string): Signal {
    if Rank(dense, id) > 0 then Signal(Clamp01(Top(dense, id)), Rank(dense, id), 0.0, 0, 0.0) else Signal(0.0, 0, 0.0, 0, 0.0)
  }

  /** What the result says of an id: ranks of first occurrences, clamped best scores, and its normalised fused score. */
  function SignalOf(dense: seq<Hit>, lexical: seq<Hit>, id: string): Signal {
    DenseSignal(dense, id).(
      lexicalRank := Rank(lexical, id),
      lexicalScore := if Rank(lexical, id) > 0 then Clamp01(Top(lexical, id)) else 0.0,
      rrfScore := Clamp01(RrfToNormalized(Fused(dense, lexical, id))))
  }

  lemma BlankIsNoId(hits: seq<Hit>)
    ensures "" !in Ids(hits)
  {
    hide TrimSpace;
  }

  lemma ToldIds(best: map<string, Best>, hits: seq<Hit>, clamped: bool)
    requires Tells(best, hits, clamped)
    ensures best.Keys == Ids(hits)
  {
    hide Rank, Top, Ids;
    forall id: string
      ensures id in best <==> id in Ids(hits)
    {
      IdsAreRanked(hits, id);
    }
  }

  method AddDense(best: map<string, Best>, ghost dense: seq<Hit>)
      returns (rrf: map<string, real>, signals: map<string, Signal>)
    requires Tells(best, dense, false)
    ensures rrf.Keys == signals.Keys == Ids(dense)
    ensures forall id | id in rrf :: rrf[id] == Part(Rank(dense, id)) && signals[id] == DenseSignal(dense, id)
  {
    hide Ids, Names, TrimSpace, Clamp01;
    rrf, signals := map[], map[];
    ToldIds(best, dense, false);
    var todo := best.Keys;
    while todo != {}
      invariant todo <= best.Keys && rrf.Keys == signals.Keys == best.Keys - todo
      invariant forall id | id in rrf :: rrf[id] == Part(Rank(dense, id)) && signals[id] == DenseSignal(dense, id)
    {
      hide Rank, Top, Part;
      var id :| id in todo;
      todo := todo - {id};
      rrf := rrf[id := 0.0 + Part(best[id].rank)];
      signals := signals[id := Signal(Clamp01(best[id].score), best[id].rank, 0.0, 0, 0.0)];
    }
  }

  ghost predicate Row(dense: seq<Hit>, lexical: seq<Hit>, id: string, rrf: real, signal: Signal) {
    rrf == Fused(dense, lexical, id) && signal == SignalOf(dense, lexical, id).(rrfScore := 0.0)
  }

  const NO_SIGNAL := Signal(0.0, 0, 0.0, 0, 0.0)

  /** A dense row completed by what the lexical list says of its id. */
  lemma CompletedRow(dense: seq<Hit>, lexical: seq<Hit>, id: string, best: map<string, Best>)
    requires Tells(best, lexical, true) && id != ""
    ensures id in best ==> Row(dense, lexical, id, Part(Rank(dense, id)) + Part(best[id].rank),
                               DenseSignal(dense, id).(lexicalScore := Clamp01(best[id].score), lexicalRank := best[id].rank))
    ensures id !in best ==> Row(dense, lexical, id, Part(Rank(dense, id)), DenseSignal(dense, id))
    ensures id !in Ids(dense) ==> Part(Rank(dense, id)) == 0.0 && DenseSignal(dense, id) == NO_SIGNAL
  {
    hide Rank, Top, RrfToNormalized;
    IdsAreRanked(dense, id);
  }

  method AddLexical(best: map<string, Best>, rrf0: map<string, real>, signals0: map<string, Signal>,
                    ghost dense: seq<Hit>, ghost lexical: seq<Hit>)
      returns (rrf: map<string, real>, signals: map<string, Signal>)
    requires Tells(best, lexical, true) && rrf0.Keys == signals0.Keys == Ids(dense)
    requires forall id | id in rrf0 :: rrf0[id] == Part(Rank(dense, id)) && signals0[id] == DenseSignal(dense, id)
    ensures rrf.Keys == signals.Keys == Ids(dense) + Ids(lexical)
    ensures forall id | id in rrf :: Row(dense, lexical, id, rrf[id], signals[id])
  {
    hide Tells, Row, Rank, Part, DenseSignal, Ids, Clamp01;
    rrf, signals := rrf0, signals0;
    ToldIds(best, lexical, true);
    BlankIsNoId(lexical);
    BlankIsNoId(dense);
    var todo := best.Keys;
    forall id | id in rrf && id !in best
      ensures Row(dense, lexical, id, rrf[id], signals[id])
    {
      CompletedRow(dense, lexical, id, best);
    }
    while todo != {}
      invariant todo <= best.Keys && rrf.Keys == signals.Keys == rrf0.Keys + (best.Keys - todo)
      invariant forall id | id in rrf && id in todo :: rrf[id] == rrf0[id] && signals[id] == signals0[id]
      invariant forall id | id in rrf && id !in todo :: Row(dense, lexical, id, rrf[id], signals[id])
    {
      var id :| id in todo;
      CompletedRow(dense, lexical, id, best);
      var item := best[id];
      rrf := rrf[id := (if id in rrf then rrf[id] else 0.0) + Part(item.rank)];
      var signal := if id in signals then signals[id] else NO_SIGNAL;
      signals := signals[id := signal.(lexicalScore := Clamp01(item.score), lexicalRank := item.rank)];
      todo := todo - {id};
    }
  }

  /** The ids of a map, each once, in whatever order the map hands them out. */
  method ListIds(rrf: map<string, real>) returns (ids: seq<string>)
    ensures Distinct(ids) && |ids| == |rrf.Keys| && forall id :: id in ids <==> id in rrf
  {
    ids := [];
    var todo := rrf.Keys;
    while todo != {}
      invariant todo <= rrf.Keys && Distinct(ids) && |ids| + |todo| == |rrf.Keys|
      invariant forall id :: id in ids <==> id in rrf && id !in todo
    {
      hide Distinct;
      var id :| id in todo;
      todo := todo - {id};
      DistinctAppend(ids, id);
      ids := ids + [id];
    }
  }

  function FusedScore(dense: seq<Hit>, lexical: seq<Hit>): string -> real {
    id => Fused(dense, lexical, id)
  }

  function Limit(limit: int): nat {
    if limit <= 0 then 10 else limit
  }

  /** What the fusion of two lists is. */
  ghost predicate IsFusion(ids: seq<string>, signals: map<string, Signal>, dense: seq<Hit>, lexical: seq<Hit>, limit: int) {
    && FirstOf(ids, Ids(dense) + Ids(lexical), FusedScore(dense, lexical), Limit(limit))
    && (forall id :: id in signals <==> id in ids)
    && (forall id | id in ids :: signals[id] == SignalOf(dense, lexical, id))
  }

  method FuseCandidatesByRRF(dense: seq<Hit>, lexical: seq<Hit>, limit: int)
      returns (ids: seq<string>, signals: map<string, Signal>)
    ensures IsFusion(ids, signals, dense, lexical, limit)
  {
    hide Tells, Row, Ids, FirstOf, FusedScore, SignalOf, DenseSignal;
    var denseBest := BestDense(dense);
    var rrf0, signals0 := AddDense(denseBest, dense);
    var lexicalBest := BestLexical(lexical);
    var rrf, found := AddLexical(lexicalBest, rrf0, signals0, dense, lexical);
    ids := RankIds(rrf, found, Limit(limit), dense, lexical);
    signals := FilterSignals(ids, found, rrf, dense, lexical);
  }

  method RankIds(rrf: map<string, real>, ghost found: map<string, Signal>, most: nat, ghost dense: seq<Hit>, ghost lexical: seq<Hit>)
      returns (ids: seq<string>)
    requires rrf.Keys == found.Keys && forall id | id in rrf :: Row(dense, lexical, id, rrf[id], found[id])
    ensures FirstOf(ids, rrf.Keys, FusedScore(dense, lexical), most) && forall id | id in ids :: id in rrf
  {
    hide Sorted, Distinct, SortIds, Fused, SignalOf;
    ids := ListIds(rrf);
    var score := id => if id in rrf then rrf[id] else 0.0;
    SortIdsSorts(ids, score);
    ids := SortIds(ids, score);
    PrefixIsFirst(ids, rrf.Keys, score, most);
    if |ids| > most {
      ids := ids[..most];
    }
    ScoresThatAgree(ids, rrf.Keys, score, FusedScore(dense, lexical), most);
  }

  method FilterSignals(ids: seq<string>, found: map<string, Signal>, rrf: map<string, real>, ghost dense: seq<Hit>, ghost lexical: seq<Hit>)
      returns (signals: map<string, Signal>)
    requires forall id | id in ids :: id in rrf && id in found && Row(dense, lexical, id, rrf[id], found[id])
    ensures forall id :: id in signals <==> id in ids
    ensures forall id | id in ids :: signals[id] == SignalOf(dense, lexical, id)
  {
    hide Rank, Top, Clamp01, RrfToNormalized, Fused;
    signals := map[];
    for i := 0 to |ids|
      invariant forall id :: id in signals <==> id in ids[..i]
      invariant forall id | id in signals :: signals[id] == SignalOf(dense, lexical, id)
    {
      var id := ids[i];
      assert id in ids && ids[..i + 1] == ids[..i] + [id];
      signals := signals[id := found[id].(rrfScore := Clamp01(RrfToNormalized(rrf[id])))];
    }
    assert ids[..|ids|] == ids;
  }

  /** The result is the same for every order in which the maps hand out their keys. */
  lemma FusionIsUnique(x: seq<string>, xs: map<string, Signal>, y: seq<string>, ys: map<string, Signal>,
                       dense: seq<Hit>, lexical: seq<Hit>, limit: int)
    requires IsFusion(x, xs, dense, lexical, limit) && IsFusion(y, ys, dense, lexical, limit)
    ensures x == y && xs == ys
  {
    hide FirstOf, Ids, SignalOf, FusedScore;
    FirstOfIsUnique(x, y, Ids(dense) + Ids(lexical), FusedScore(dense, lexical), Limit(limit));
  }

  /**
   In so many words: at most the limit asked for, or ten for none; only ids of the lists, and all of them unless it is full; each with
   its own ranks and clamped best scores.
   */
  lemma FusionHolds(ids: seq<string>, signals: map<string, Signal>, dense: seq<Hit>, lexical: seq<Hit>, limit: int)
    requires IsFusion(ids, signals, dense, lexical, limit)
    ensures |ids| <= if limit > 0 then limit else 10
    ensures forall id | id in ids :: id != "" && exists h :: (h in dense || h in lexical) && TrimSpace(h.id) == id
    ensures forall h | h in dense || h in lexical ::
              TrimSpace(h.id) == "" || TrimSpace(h.id) in ids || |ids| == if limit > 0 then limit else 10
    ensures forall id | id in ids ::
              && id in signals && signals[id].denseRank == Rank(dense, id) && signals[id].lexicalRank == Rank(lexical, id)
              && signals[id].denseScore == (if Rank(dense, id) > 0 then Clamp01(Top(dense, id)) else 0.0)
              && signals[id].lexicalScore == (if Rank(lexical, id) > 0 then Clamp01(Top(lexical, id)) else 0.0)
  {
    hide Sorted, Precedes, FusedScore, Rank, Top, Clamp01, RrfToNormalized, Fused, TrimSpace;
    var all := Ids(dense) + Ids(lexical);
    assert forall id | id in ids :: id in all;
    if |ids| == |all| {
      AllAreIn(ids, all, FusedScore(dense, lexical));
    }
    forall h | (h in dense || h in lexical) && TrimSpace(h.id) != ""
      ensures TrimSpace(h.id) in all
    {
      assert h in dense ==> TrimSpace(h.id) in Ids(dense);
      assert h in lexical ==> TrimSpace(h.id) in Ids(lexical);
    }
  }

  lemma {:induction false} AllAreIn(ids: seq<string>, all: set<string>, score: string -> real)
    requires FirstOf(ids, all, score, |ids|) && |ids| == |all|
    ensures forall a | a in all :: a in ids
    decreases |ids|
  {
    hide Precedes;
    if ids != [] {
      FirstIsLeast(ids, all, score, |ids|);
      AllAreIn(ids[1..], all - {ids[0]}, score);
      assert ids[0] in ids && forall a | a in all - {ids[0]} :: a in ids[1..];
      assert forall a | a in all :: a == ids[0] || a in all - {ids[0]};
    } else {
      assert all == {};
    }
  }

  // ----- better ranks come first

  lemma ReciprocalsShrink(x: real, y: real, p: real, q: real)
    requires 0.0 < x < y && p * x == 1.0 && q * y == 1.0
    ensures p > q
  {
    assert (-q) * y < 0.0;
    NotAbove(-q, y);
    var d := y - x;
    assert q * d > 0.0;
    assert q * y == q * x + q * d;
    assert (q - p) * x == q * x - p * x;
    NotAbove(q - p, x);
  }

  lemma PartShrinks(a: nat, b: nat)
    requires 0 < a < b
    ensures Part(a) > Part(b)
  {
    ReciprocalsShrink((K + a) as real, (K + b) as real, Part(a), Part(b));
  }

  predicate AtLeastAsGood(ra: nat, rb: nat) {
    rb == 0 || 0 < ra <= rb
  }

  predicate Better(ra: nat, rb: nat) {
    0 < ra && (rb == 0 || ra < rb)
  }

  lemma BetterParts(ra: nat, rb: nat)
    requires AtLeastAsGood(ra, rb)
    ensures Part(ra) >= Part(rb) && (Better(ra, rb) ==> Part(ra) > Part(rb))
  {
    if 0 < ra < rb {
      PartShrinks(ra, rb);
    }
  }

  lemma {:induction false} SortedPlaces(ids: seq<string>, score: string -> real, i: nat, j: nat)
    requires Sorted(ids, score) && i < j < |ids|
    ensures Precedes(score, ids[i], ids[j])
  {
    if i > 0 {
      SortedPlaces(ids[1..], score, i - 1, j - 1);
    }
  }

  predicate Dominates(dense: seq<Hit>, lexical: seq<Hit>, a: string, b: string) {
    && AtLeastAsGood(Rank(dense, a), Rank(dense, b)) && AtLeastAsGood(Rank(lexical, a), Rank(lexical, b))
    && (Better(Rank(dense, a), Rank(dense, b)) || Better(Rank(lexical, a), Rank(lexical, b)))
  }

  /** An id at least as well ranked in both lists and better in one is kept whenever the other is, and comes before it. */
  lemma DominatorComesFirst(ids: seq<string>, dense: seq<Hit>, lexical: seq<Hit>, n: nat, a: string, j: nat)
    requires FirstOf(ids, Ids(dense) + Ids(lexical), FusedScore(dense, lexical), n)
    requires a != "" && j < |ids| && Dominates(dense, lexical, a, ids[j])
    ensures exists i | 0 <= i < j :: ids[i] == a
  {
    hide Rank, Ids, Sorted, Part;
    var score, b := FusedScore(dense, lexical), ids[j];
    BetterParts(Rank(dense, a), Rank(dense, b));
    BetterParts(Rank(lexical, a), Rank(lexical, b));
    assert score(a) > score(b);
    IdsAreRanked(dense, a);
    IdsAreRanked(lexical, a);
    assert b in ids;
    assert a in ids;
    var i :| 0 <= i < |ids| && ids[i] == a;
    if i > j {
      SortedPlaces(ids, score, j, i);
    }
  }

  /** 1/x + 1/y against 1/z, in whole numbers. */
  lemma Reciprocals(x: int, y: int, z: int, p: real, q: real, r: real)
    requires x > 0 && y > 0 && z > 0 && p * x as real == 1.0 && q * y as real == 1.0 && r * z as real == 1.0
    ensures p + q > r <==> (x + y) * z > x * y
    ensures p + q == r <==> (x + y) * z == x * y
  {
    var d, m := p + q - r, (x * y * z) as real;
    Scaled(x as real, y as real, z as real, p, q, r);
    assert d * m == ((x + y) * z - x * y) as real;
    ProductIsPositive(x as real, y as real, z as real);
    NotAbove(d, m);
    NotAbove(-d, m);
  }

  lemma ProductIsPositive(x: real, y: real, z: real)
    requires x > 0.0 && y > 0.0 && z > 0.0
    ensures x * y * z > 0.0
  {
    assert x * y > 0.0;
  }

  lemma Scaled(x: real, y: real, z: real, p: real, q: real, r: real)
    requires p * x == 1.0 && q * y == 1.0 && r * z == 1.0
    ensures (p + q - r) * (x * y * z) == (x + y) * z - x * y
  {
    calc {
      (p + q - r) * (x * y * z);
      p * (x * y * z) + q * (x * y * z) - r * (x * y * z);
      (p * x) * (y * z) + (q * y) * (x * z) - (r * z) * (x * y);
      y * z + x * z - x * y;
    }
  }

  lemma PartsAgainst(a: nat, b: nat, c: nat)
    requires a > 0 && b > 0 && c > 0
    ensures Part(a) + Part(b) > Part(c) <==> (60 + a + 60 + b) * (60 + c) > (60 + a) * (60 + b)
    ensures Part(a) + Part(b) == Part(c) <==> (60 + a + 60 + b) * (60 + c) == (60 + a) * (60 + b)
  {
    Reciprocals(60 + a, 60 + b, 60 + c, Part(a), Part(b), Part(c));
  }

  /**
   An id of both lists stands before an id of only one exactly when the reciprocals of its ranks, each counted from sixty, add up to
   more than the other's: 62 in both ties with first in one, 61 and 62 wins.
   */
  lemma BothAgainstOneIff(ids: seq<string>, dense: seq<Hit>, lexical: seq<Hit>, n: nat, i: nat, j: nat)
    requires FirstOf(ids, Ids(dense) + Ids(lexical), FusedScore(dense, lexical), n) && i < |ids| && j < |ids| && i != j
    requires Rank(dense, ids[i]) > 0 && Rank(lexical, ids[i]) > 0
    requires Rank(dense, ids[j]) == 0 || Rank(lexical, ids[j]) == 0
    ensures var x, y, z := 60 + Rank(dense, ids[i]), 60 + Rank(lexical, ids[i]), 60 + Rank(dense, ids[j]) + Rank(lexical, ids[j]);
            i < j <==> (x + y) * z > x * y || ((x + y) * z == x * y && Less(ids[i], ids[j]))
  {
    hide Sorted, Rank, Part, Ids, Less;
    var score, a, b := FusedScore(dense, lexical), ids[i], ids[j];
    assert b in ids;
    IdsAreRanked(dense, b);
    IdsAreRanked(lexical, b);
    PartsAgainst(Rank(dense, a), Rank(lexical, a), Rank(dense, b) + Rank(lexical, b));
    assert score(a) == Part(Rank(dense, a)) + Part(Rank(lexical, a));
    assert score(b) == Part(Rank(dense, b) + Rank(lexical, b));
    OrderIsTotal(score, a, b, a);
    if i < j {
      SortedPlaces(ids, score, i, j);
    } else {
      SortedPlaces(ids, score, j, i);
    }
  }

  // ----- the normalised score

  /** f / (f + b) against 2/3 and 1/2, for positive f and b. */
  lemma Share(f: real, b: real)
    requires f > 0.0 && b > 0.0
    ensures 0.0 < f / (f + b) < 1.0
    ensures f == 2.0 * b ==> f / (f + b) == 2.0 / 3.0
    ensures f < 2.0 * b ==> f / (f + b) < 2.0 / 3.0
    ensures f <= b ==> f / (f + b) <= 0.5
  {
    var q := f / (f + b);
    assert q * (f + b) == f;
    var y := f + b;
    assert (-q) * y == -f && (q - 1.0) * y == -b;
    assert (q - 2.0 / 3.0) * y == (f - 2.0 * b) / 3.0 && (2.0 / 3.0 - q) * y == (2.0 * b - f) / 3.0;
    assert (q - 0.5) * y == (f - b) / 2.0;
    NotAbove(-q, y);
    NotAbove(q - 1.0, y);
    NotAbove(q - 2.0 / 3.0, y);
    NotAbove(2.0 / 3.0 - q, y);
    NotAbove(q - 0.5, y);
  }

  lemma NormalizedShare(f: real)
    requires 0.0 < f <= 2.0 * Part(1)
    ensures 0.0 < Clamp01(RrfToNormalized(f)) <= 2.0 / 3.0
    ensures Clamp01(RrfToNormalized(f)) == 2.0 / 3.0 <==> f == 2.0 * Part(1)
    ensures f <= Part(1) ==> Clamp01(RrfToNormalized(f)) <= 0.5
  {
    Share(f, 1.0 / (K + 1) as real);
  }

  /** In (0, 2/3]: 2/3 for rank 1 in both lists and nothing else, and at most 1/2 for an id only one list holds. */
  lemma NormalizedScoreRange(dense: seq<Hit>, lexical: seq<Hit>, id: string)
    requires id in Ids(dense) + Ids(lexical)
    ensures 0.0 < SignalOf(dense, lexical, id).rrfScore <= 2.0 / 3.0
    ensures SignalOf(dense, lexical, id).rrfScore == 2.0 / 3.0 <==> Rank(dense, id) == 1 == Rank(lexical, id)
    ensures Rank(dense, id) == 0 || Rank(lexical, id) == 0 ==> SignalOf(dense, lexical, id).rrfScore <= 0.5
  {
    hide Rank, Ids, Top, Part, Clamp01, RrfToNormalized;
    IdsAreRanked(dense, id);
    IdsAreRanked(lexical, id);
    var d, l := Rank(dense, id), Rank(lexical, id);
    BetterParts(1, d);
    BetterParts(1, l);
    NormalizedShare(Part(d) + Part(l));
  }

  /** And it is f / (f + 1/61), f being the sum of 1 / (60 + rank) over the lists that hold the id. */
  lemma NormalizedScoreIs(dense: seq<Hit>, lexical: seq<Hit>, id: string)
    requires id in Ids(dense) + Ids(lexical)
    ensures var d, l := Rank(dense, id), Rank(lexical, id);
            var f := (if d > 0 then 1.0 / (60 + d) as real else 0.0) + if l > 0 then 1.0 / (60 + l) as real else 0.0;
            SignalOf(dense, lexical, id).rrfScore == f / (f + 1.0 / 61.0)
  {
    hide Rank, Ids, Top;
    NormalizedScoreRange(dense, lexical, id);
    assert Clamp01(0.0) == 0.0;
    hide Clamp01;
    BelowOne(Fused(dense, lexical, id));
  }

  lemma BelowOne(f: real)
    ensures f > 0.0 ==> Clamp01(Clamp01(f / (f + 1.0 / 61.0))) == f / (f + 1.0 / 61.0)
  {
    if f > 0.0 {
      Share(f, 1.0 / 61.0);
    }
  }
}
