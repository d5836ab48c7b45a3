/** The two windowed reranks a scored result list goes through, and the search steps around them. */
module Reranking {
  import opened Text
  import opened Scoring
  import opened Ranking

  // ----- sorting by score

  /** Higher score first; the reranks order equal scores by id, the search before them leaves their order open. */
  predicate NotAfter(a: Scored, b: Scored, byId: bool) {
    a.score > b.score || (a.score == b.score && (byId ==> !Less(b.memory.id, a.memory.id)))
  }

  predicate ByScore(items: seq<Scored>, byId: bool) {
    items == [] || ((forall b | b in items[1..] :: NotAfter(items[0], b, byId)) && ByScore(items[1..], byId))
  }

  lemma NotAfterIsTotal(a: Scored, b: Scored, c: Scored, byId: bool)
    ensures NotAfter(a, a, byId) && (NotAfter(a, b, byId) || NotAfter(b, a, byId))
    ensures NotAfter(a, b, byId) && NotAfter(b, c, byId) ==> NotAfter(a, c, byId)
  {
    LessIrreflexive(a.memory.id);
    if Less(b.memory.id, a.memory.id) && Less(a.memory.id, b.memory.id) {
      LessTransitive(a.memory.id, b.memory.id, a.memory.id);
    }
    if Less(c.memory.id, a.memory.id) {
      LessTotal(a.memory.id, b.memory.id);
      LessTotal(b.memory.id, c.memory.id);
      if Less(a.memory.id, b.memory.id) {
        LessTransitive(c.memory.id, a.memory.id, b.memory.id);
      }
    }
  }

  /** No later item has a higher score; and by id, of equal scores none has a lesser one. */
  ghost predicate Descending(items: seq<Scored>, byId: bool) {
    forall i, j | 0 <= i < j < |items| ::
      || items[i].score > items[j].score
      || (items[i].score == items[j].score && (byId ==> !Less(items[j].memory.id, items[i].memory.id)))
  }

  lemma {:induction false} ByScoreDescends(items: seq<Scored>, byId: bool)
    requires ByScore(items, byId)
    ensures Descending(items, byId)
  {
    if items != [] {
      ByScoreDescends(items[1..], byId);
      forall j | 0 < j < |items|
        ensures NotAfter(items[0], items[j], byId)
      {
        assert items[1..][j - 1] == items[j];
      }
      assert forall i | 0 < i < |items| :: items[i] == items[1..][i - 1];
    }
  }

  // slices.SortFunc of sortScoredByScore, and of the search before it
  function SortByScore(items: seq<Scored>, byId: bool): seq<Scored> {
    if items == [] then [] else Insert(items[0], SortByScore(items[1..], byId), byId)
  }

  function Insert(x: Scored, items: seq<Scored>, byId: bool): seq<Scored> {
    if items == [] || NotAfter(x, items[0], byId) then [x] + items else [items[0]] + Insert(x, items[1..], byId)
  }

  lemma {:induction false} InsertMembers(x: Scored, items: seq<Scored>, byId: bool)
    ensures multiset(Insert(x, items, byId)) == multiset(items) + multiset{x}
    ensures forall b | b in Insert(x, items, byId) :: b == x || b in items
  {
    hide NotAfter;
    if items != [] {
      assert items == [items[0]] + items[1..];
      InsertMembers(x, items[1..], byId);
    }
  }

  lemma {:induction false} InsertSorts(x: Scored, items: seq<Scored>, byId: bool)
    requires ByScore(items, byId)
    ensures ByScore(Insert(x, items, byId), byId)
  {
    hide NotAfter;
    if items != [] {
      NotAfterIsTotal(x, items[0], x, byId);
      if NotAfter(x, items[0], byId) {
        forall b | b in items
          ensures NotAfter(x, b, byId)
        {
          NotAfterIsTotal(x, items[0], b, byId);
        }
        assert ([x] + items)[1..] == items;
      } else {
        InsertSorts(x, items[1..], byId);
        InsertMembers(x, items[1..], byId);
        assert Insert(x, items, byId)[1..] == Insert(x, items[1..], byId);
      }
    }
  }

  lemma {:induction false} SortByScoreSorts(items: seq<Scored>, byId: bool)
    ensures ByScore(SortByScore(items, byId), byId) && multiset(SortByScore(items, byId)) == multiset(items)
    ensures |SortByScore(items, byId)| == |items| && Descending(SortByScore(items, byId), byId)
  {
    hide Insert, NotAfter, Descending;
    if items != [] {
      SortByScoreSorts(items[1..], byId);
      InsertSorts(items[0], SortByScore(items[1..], byId), byId);
      InsertMembers(items[0], SortByScore(items[1..], byId), byId);
      assert items == [items[0]] + items[1..];
    }
    assert |multiset(SortByScore(items, byId))| == |multiset(items)|;
    ByScoreDescends(SortByScore(items, byId), byId);
  }

  // ----- reranking a window

  /** The first items, with their scores moved part of the way to a signal and clamped. */
  ghost predicate IsBlended(items: seq<Scored>, head: seq<Scored>, window: int, blend: real, signal: Memory -> real) {
    && 0 <= window <= |items| && |head| == window
    && forall i | 0 <= i < window ::
         && head[i].memory == items[i].memory
         && head[i].score == Clamp01((1.0 - blend) * items[i].score + blend * signal(items[i].memory))
  }

  /** What a rerank does: the head blended with the signal and sorted, the tail as it was. */
  ghost predicate Reranked(items: seq<Scored>, r: seq<Scored>, window: int, blend: real, signal: Memory -> real) {
    && 0 <= window <= |items| == |r|
    && r[window..] == items[window..] && Descending(r[..window], true)
    && exists head :: IsBlended(items, head, window, blend, signal) && multiset(r[..window]) == multiset(head)
  }

  function Memories(items: seq<Scored>): seq<Memory> {
    if items == [] then [] else [items[0].memory] + Memories(items[1..])
  }

  predicate AllInUnit(items: seq<Scored>) {
    forall x | x in items :: 0.0 <= x.score <= 1.0
  }

  lemma {:induction false} MemoriesOfConcat(a: seq<Scored>, b: seq<Scored>)
    ensures Memories(a + b) == Memories(a) + Memories(b)
  {
    if a == [] {
      assert a + b == b;
    } else {
      MemoriesOfConcat(a[1..], b);
      assert (a + b)[1..] == a[1..] + b;
    }
  }

  function Drop(items: seq<Scored>, x: Scored): seq<Scored> {
    if items == [] then [] else if items[0] == x then items[1..] else [items[0]] + Drop(items[1..], x)
  }

  lemma {:induction false} DropOne(items: seq<Scored>, x: Scored)
    requires x in items
    ensures multiset(items) == multiset(Drop(items, x)) + multiset{x}
  {
    assert items == [items[0]] + items[1..];
    if items[0] != x {
      DropOne(items[1..], x);
    }
  }

  lemma {:induction false} DropOneMemory(items: seq<Scored>, x: Scored)
    requires x in items
    ensures multiset(Memories(items)) == multiset(Memories(Drop(items, x))) + multiset{x.memory}
  {
    ghost var rest := Memories(items[1..]);
    assert Memories(items) == [items[0].memory] + rest;
    if items[0] != x {
      DropOneMemory(items[1..], x);
      assert Drop(items, x)[1..] == Drop(items[1..], x);
      assert Memories(Drop(items, x)) == [items[0].memory] + Memories(Drop(items[1..], x));
    }
  }

  lemma OneLess<T>(m: multiset<T>, n: multiset<T>, x: T)
    requires m + multiset{x} == n + multiset{x}
    ensures m == n
  {
    assert m == (m + multiset{x}) - multiset{x};
    assert n == (n + multiset{x}) - multiset{x};
  }

  lemma {:induction false} SameItemsSameMemories(a: seq<Scored>, b: seq<Scored>)
    requires multiset(a) == multiset(b)
    ensures multiset(Memories(a)) == multiset(Memories(b))
  {
    hide Drop;
    if a == [] {
      assert |multiset(b)| == 0;
    } else {
      var x := a[0];
      assert a == [x] + a[1..];
      assert x in multiset(b);
      DropOne(b, x);
      DropOneMemory(b, x);
      OneLess(multiset(a[1..]), multiset(Drop(b, x)), x);
      SameItemsSameMemories(a[1..], Drop(b, x));
      assert Memories(a) == [x.memory] + Memories(a[1..]);
    }
  }

  lemma {:induction false} SameMemories(a: seq<Scored>, b: seq<Scored>)
    requires |a| == |b| && forall i | 0 <= i < |a| :: a[i].memory == b[i].memory
    ensures Memories(a) == Memories(b)
  {
    if a != [] {
      SameMemories(a[1..], b[1..]);
    }
  }

  /** A rerank keeps the multiset of memories, and every score in [0,1]. */
  lemma RerankKeeps(items: seq<Scored>, r: seq<Scored>, window: int, blend: real, signal: Memory -> real)
    requires Reranked(items, r, window, blend, signal)
    ensures multiset(Memories(r)) == multiset(Memories(items))
    ensures AllInUnit(items[window..]) ==> AllInUnit(r)
  {
    hide ByScore, Descending, Memories, Clamp01;
    var blended :| IsBlended(items, blended, window, blend, signal) && multiset(r[..window]) == multiset(blended);
    SameItemsSameMemories(r[..window], blended);
    SameMemories(blended, items[..window]);
    assert r == r[..window] + r[window..] && items == items[..window] + items[window..];
    MemoriesOfConcat(r[..window], r[window..]);
    MemoriesOfConcat(items[..window], items[window..]);
    forall x | x in r[..window]
      ensures 0.0 <= x.score <= 1.0
    {
      assert x in multiset(r[..window]) && x in multiset(blended) && x in blended;
    }
  }

  // ----- rerankScoredCandidates and applyEarlyRankRerank

  datatype RerankOptions = RerankOptions(enabled: bool, window: int, blend: real)
  datatype EarlyOptions = EarlyOptions(enabled: bool, base: int, max: int, threshold: real)

  /** A legal slice bound for every option and every topK, negative ones too, and never short of the topK results asked for. */
  function PairwiseWindow(o: RerankOptions, topK: int, n: nat): (w: int)
    requires n >= 2
    ensures 1 <= w <= n && (topK <= w || w == n)
    // the larger of what is configured, or fifty, and topK, as far as there are items
    ensures w == n || w == topK || w == if o.window > 0 then o.window else 50
    ensures w == n || w >= if o.window > 0 then o.window else 50
  {
    var window := if o.window <= 0 then 50 else o.window;
    var wide := if topK > window then topK else window;
    if wide > n then n else wide
  }

  function PairwiseBlend(o: RerankOptions): (b: real)
    ensures 0.0 < b <= 1.0
    ensures b == if o.blend <= 0.0 then 0.4 else if o.blend >= 1.0 then 1.0 else o.blend
  {
    var b := Clamp01(o.blend);
    if b == 0.0 then 0.40 else b
  }

  // normalizeRetrievalSearchTuningOptions, as far as the early rerank goes
  function NormalizedTuning(o: EarlyOptions): (r: EarlyOptions)
    ensures 0 < r.base <= r.max
    ensures r.base == if o.base > 0 then o.base else 25
    ensures r.max == r.base || r.max == if o.max > 0 then o.max else 25
    ensures r.max >= if o.max > 0 then o.max else 25
    ensures r.threshold == if 0.0 <= o.threshold <= 1.0 then o.threshold else 0.0
  {
    var threshold := if o.threshold < 0.0 || o.threshold > 1.0 then 0.0 else o.threshold;
    var base := if o.base <= 0 then 25 else o.base;
    var max := if o.max <= 0 then 25 else o.max;
    EarlyOptions(o.enabled, base, if max < base then base else max, threshold)
  }

  function AtMost(v: int, most: int): int {
    if v > most then most else v
  }

  function AtLeast2(v: int): int {
    if v < 2 then 2 else v
  }

  /** What the window is made of: a base or four times topK, more where the query may need it, within its maximum, two and the list. */
  function EarlyWindow(n: nat, topK: int, p: Profile, confidence: real, o: EarlyOptions): int {
    var t := NormalizedTuning(o);
    var base := if topK * 4 > t.base then topK * 4 else t.base;
    var hops := if p.temporal || p.multiHop then topK else 0;
    var unsure := if confidence >= t.threshold then 0 else if topK > 4 then topK * 2 else 8;
    if n <= 1 then n else AtLeast2(AtMost(AtMost(base + hops + unsure, t.max), n))
  }

  // earlyRankRerankWindow: a legal slice bound for every option and every topK.
  method EarlyRankRerankWindow(n: nat, topK: int, p: Profile, confidence: real, o: EarlyOptions) returns (window: int)
    ensures 0 <= window <= n && (n >= 2 ==> window >= 2)
    ensures window == n || window == 2 || window <= NormalizedTuning(o).max
    ensures window == EarlyWindow(n, topK, p, confidence, o)
    ensures var t := NormalizedTuning(o);
            var wanted := (if topK * 4 > t.base then topK * 4 else t.base) + (if p.temporal || p.multiHop then topK else 0)
                          + (if confidence >= t.threshold then 0 else if topK > 4 then topK * 2 else 8);
            var most := if t.max < n then t.max else n;
            n >= 2 ==> window == if wanted > most then (if most < 2 then 2 else most) else if wanted < 2 then 2 else wanted
  {
    if n <= 1 {
      return n;
    }
    var tuning := NormalizedTuning(o);
    window := tuning.base;
    if topK > 0 && topK * 4 > window {
      window := topK * 4;
    }
    if p.temporal || p.multiHop {
      window := window + topK;
    }
    if confidence < tuning.threshold {
      window := window + (if topK * 2 > 8 then topK * 2 else 8);
    }
    if window > tuning.max {
      window := tuning.max;
    }
    if window > n {
      window := n;
    }
    if window < 2 {
      return 2;
    }
  }

  function Moved(x: Scored, blend: real, signal: Memory -> real): Scored {
    Scored(x.memory, Clamp01((1.0 - blend) * x.score + blend * signal(x.memory)))
  }

  method BlendHead(items: seq<Scored>, window: int, blend: real, signal: Memory -> real) returns (head: seq<Scored>)
    requires 0 <= window <= |items|
    ensures IsBlended(items, head, window, blend, signal)
  {
    head := items[..window];
    hide Clamp01, Moved;
    for i := 0 to |head|
      invariant |head| == window
      invariant forall j | 0 <= j < i :: head[j] == Moved(items[j], blend, signal)
      invariant forall j | i <= j < window :: head[j] == items[j]
    {
      head := head[i := Moved(head[i], blend, signal)];
    }
    AllMoved(items, head, window, blend, signal);
  }

  lemma AllMoved(items: seq<Scored>, head: seq<Scored>, window: int, blend: real, signal: Memory -> real)
    requires 0 <= window <= |items| && |head| == window && forall i | 0 <= i < window :: head[i] == Moved(items[i], blend, signal)
    ensures IsBlended(items, head, window, blend, signal)
  {
    hide Clamp01;
    forall i | 0 <= i < window
      ensures head[i].memory == items[i].memory
      ensures head[i].score == Clamp01((1.0 - blend) * items[i].score + blend * signal(items[i].memory))
    {
      assert head[i] == Moved(items[i], blend, signal);
    }
  }

  method RerankWindow(items: seq<Scored>, window: int, blend: real, signal: Memory -> real) returns (r: seq<Scored>)
    requires 0 <= window <= |items|
    ensures Reranked(items, r, window, blend, signal)
  {
    hide ByScore, Descending, SortByScore, IsBlended;
    var head := BlendHead(items, window, blend, signal);
    SortByScoreSorts(head, true);
    BlendedLength(items, head, window, blend, signal);
    var sorted := SortByScore(head, true);
    r := sorted + items[window..];
    assert r[..window] == sorted && r[window..] == items[window..];
  }

  lemma BlendedLength(items: seq<Scored>, head: seq<Scored>, window: int, blend: real, signal: Memory -> real)
    requires IsBlended(items, head, window, blend, signal)
    ensures |head| == window
  {
  }

  /** pairwise compares the query with a memory, given the head whose words it weighs. */
  method RerankScoredCandidates(items: seq<Scored>, o: RerankOptions, topK: int, pairwise: seq<Scored> -> (Memory -> real))
      returns (r: seq<Scored>)
    ensures !o.enabled || |items| < 2 ==> r == items
    ensures o.enabled && |items| >= 2 ==>
              var w := PairwiseWindow(o, topK, |items|);
              Reranked(items, r, w, PairwiseBlend(o), pairwise(items[..w]))
  {
    if !o.enabled || |items| < 2 {
      return items;
    }
    var window := o.window;
    if window <= 0 {
      window := 50;
    }
    if topK > window {
      window := topK;
    }
    if window > |items| {
      window := |items|;
    }
    var blend := o.blend;
    if blend < 0.0 {
      blend := 0.0;
    }
    if blend > 1.0 {
      blend := 1.0;
    }
    if blend == 0.0 {
      blend := 0.40;
    }
    r := RerankWindow(items, window, blend, pairwise(items[..window]));
  }

  method ApplyEarlyRankRerank(items: seq<Scored>, topK: int, p: Profile, confidence: real, o: EarlyOptions, signal: Memory -> real)
      returns (r: seq<Scored>, ghost window: int)
    ensures |items| < 2 ==> r == items
    ensures |items| >= 2 ==> window >= 2 && Reranked(items, r, window, 0.28, signal)
    ensures |items| >= 2 ==> window == EarlyWindow(|items|, topK, p, confidence, o)
  {
    if |items| <= 1 {
      return items, 0;
    }
    var w := EarlyRankRerankWindow(|items|, topK, p, confidence, o);
    if w <= 1 {
      return items, w;
    }
    r := RerankWindow(items, w, 0.28, signal);
    window := w;
  }

  // ----- the steps of a search from ranking to both reranks

  /** What the keyword and token rules make of a query and a memory. */
  datatype Signals = Signals(pairwise: seq<Scored> -> (Memory -> real), early: Memory -> real, confidence: real)

  lemma {:induction false} RankedMemories(scored: seq<Scored>, ms: seq<Memory>)
    requires |scored| == |ms| && forall i | 0 <= i < |ms| :: scored[i].memory == ms[i]
    ensures Memories(scored) == ms
  {
    if ms != [] {
      RankedMemories(scored[1..], ms[1..]);
    }
  }

  /** Every memory with its score in the batch, in any order. */
  ghost predicate AllScored(ranked: seq<Scored>, ms: seq<Memory>, p: Profile, o: Options) {
    multiset(ranked) == multiset(seq(|ms|, i requires 0 <= i < |ms| => Scored(ms[i], BatchScore(ms[i], ms, p, o))))
  }

  /**
   The search from ranking to both reranks, in three stages: every memory with its batch score, in order of score; the pairwise
   rerank of that where it applies; and the early rerank of that where it applies. Whatever the weights and options, the list
   holds the same memories, every score in [0,1].
   */
  method RankAndRerank(ms: seq<Memory>, p: Profile, o: Options, rerank: RerankOptions, multiHopRerank: bool,
                       early: EarlyOptions, topK: int, s: Signals)
      returns (scored: seq<Scored>, ghost ranked: seq<Scored>, ghost first: seq<Scored>, ghost window: int)
    ensures multiset(Memories(scored)) == multiset(ms) && AllInUnit(scored)
    ensures AllScored(ranked, ms, p, o) && Descending(ranked, false)
    ensures if rerank.enabled && |ms| >= 2 && !p.temporal && (!p.multiHop || multiHopRerank)
            then |ranked| == |ms| && var w := PairwiseWindow(rerank, topK, |ms|);
                 Reranked(ranked, first, w, PairwiseBlend(rerank), s.pairwise(ranked[..w]))
            else first == ranked
    ensures if early.enabled && |ms| >= 2 && !p.multiHop
            then window == EarlyWindow(|ms|, topK, p, s.confidence, early) && Reranked(first, scored, window, 0.28, s.early)
            else scored == first
  {
    hide BatchScore, ByScore, Descending, SortByScore, Reranked, Memories, AllInUnit, AllScored, EarlyWindow;
    var all := RankMemories(ms, p, o);
    RankedMemories(all, ms);
    RankedInUnit(all, ms, p, o);
    RankedAll(all, ms, p, o);
    SortByScoreSorts(all, false);
    scored := SortByScore(all, false);
    SameItemsSameMemories(scored, all);
    StillInUnit(scored, all);
    StillAll(scored, all, ms, p, o);
    ranked := scored;
    if !p.temporal && (!p.multiHop || multiHopRerank) {
      scored := RerankScoredCandidates(scored, rerank, topK, s.pairwise);
      if rerank.enabled && |ranked| >= 2 {
        var w := PairwiseWindow(rerank, topK, |ranked|);
        RerankKeeps(ranked, scored, w, PairwiseBlend(rerank), s.pairwise(ranked[..w]));
        UnitTail(ranked, w);
        SameLength(ranked, scored, w, PairwiseBlend(rerank), s.pairwise(ranked[..w]));
      }
    }
    first, window := scored, 0;
    if early.enabled && !p.multiHop {
      scored, window := ApplyEarlyRankRerank(scored, topK, p, s.confidence, early, s.early);
      if |first| >= 2 {
        RerankKeeps(first, scored, window, 0.28, s.early);
        WindowFits(first, scored, window, 0.28, s.early);
        UnitTail(first, window);
      }
    }
  }

  lemma RankedAll(all: seq<Scored>, ms: seq<Memory>, p: Profile, o: Options)
    requires |all| == |ms| && forall i | 0 <= i < |ms| :: all[i] == Scored(ms[i], BatchScore(ms[i], ms, p, o))
    ensures AllScored(all, ms, p, o)
  {
    hide BatchScore;
    assert all == seq(|ms|, i requires 0 <= i < |ms| => Scored(ms[i], BatchScore(ms[i], ms, p, o)));
  }

  lemma StillAll(a: seq<Scored>, b: seq<Scored>, ms: seq<Memory>, p: Profile, o: Options)
    requires multiset(a) == multiset(b) && AllScored(b, ms, p, o)
    ensures AllScored(a, ms, p, o)
  {
    hide BatchScore;
  }

  lemma UnitTail(items: seq<Scored>, window: int)
    requires AllInUnit(items) && 0 <= window <= |items|
    ensures AllInUnit(items[window..])
  {
  }

  lemma SameLength(items: seq<Scored>, r: seq<Scored>, window: int, blend: real, signal: Memory -> real)
    requires Reranked(items, r, window, blend, signal)
    ensures |r| == |items|
  {
  }

  lemma WindowFits(items: seq<Scored>, r: seq<Scored>, window: int, blend: real, signal: Memory -> real)
    requires Reranked(items, r, window, blend, signal)
    ensures 0 <= window <= |items|
  {
  }

  lemma RankedInUnit(scored: seq<Scored>, ms: seq<Memory>, p: Profile, o: Options)
    requires |scored| == |ms| && forall i | 0 <= i < |ms| :: scored[i] == Scored(ms[i], BatchScore(ms[i], ms, p, o))
    ensures AllInUnit(scored)
  {
    hide RawRelevance, RawOf, RangesOf, Normalized, ScoreOf;
    forall i | 0 <= i < |scored|
      ensures 0.0 <= scored[i].score <= 1.0
    {
      ScoreIsInUnit(Normalized(RawOf(ms[i], o.limit), RangesOf(ms, o.limit)), ms[i].evidence,
                    RawRelevance(ms[i].evidence, o.limit), p, o);
    }
  }

  lemma StillInUnit(a: seq<Scored>, b: seq<Scored>)
    requires multiset(a) == multiset(b) && AllInUnit(b)
    ensures AllInUnit(a)
  {
    forall x | x in a
      ensures x in b
    {
      assert x in multiset(a);
    }
  }
}
