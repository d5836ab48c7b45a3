/** rankMemories: the score of each retrieved memory, from what retrieval and the keyword rules found about it. */
module Ranking {
  import opened Scoring
  import opened RankFusion

  /**
   What is known of a memory: the decayed recency, the fused retrieval signal, and what the keyword rules make of its text.
   kind is the product of the multipliers its kind and answer metadata earn.
   */
  datatype Evidence = Evidence(recency: real, signal: Signal, entity: real, route: real, importance: real,
                               overlap: real, dependency: real, kind: real)
  datatype Memory = Memory(id: string, evidence: Evidence)
  datatype Scored = Scored(memory: Memory, score: real)

  datatype Weights = Weights(recency: real, relevance: real, importance: real, overlap: real, routing: real)
  /** What the query is found to ask for; blank and factoid are about its text. */
  datatype Profile = Profile(temporal: bool, person: bool, multiHop: bool, blank: bool, factoid: bool)
  datatype Options = Options(matchAlgorithm: bool, weights: Weights, limit: int)

  // ----- one memory's raw values

  function NormalizedRouteBoost(v: real): real {
    Clamp01((v - 0.8) / (1.35 - 0.8))
  }

  function RelevanceValues(e: Evidence, limit: int): seq<real> {
    [e.signal.denseScore, e.signal.lexicalScore, RankToNormalized(e.signal.denseRank, limit),
     RankToNormalized(e.signal.lexicalRank, limit), e.signal.rrfScore, e.entity, NormalizedRouteBoost(e.route)]
  }

  // retrievalSignalWeights: a memory the dense list does not hold is judged without it.
  function RelevanceWeights(s: Signal): seq<real> {
    var noDense := s.denseScore == 0.0 && s.denseRank == 0;
    [if noDense then 0.0 else 0.34, 0.12, if noDense then 0.0 else 0.08, 0.20, 0.10, 0.10, 0.06]
  }

  function RawRelevance(e: Evidence, limit: int): real {
    Average(RelevanceValues(e, limit), RelevanceWeights(e.signal))
  }

  datatype Raw = Raw(recency: real, relevance: real, importance: real)

  function RawOf(m: Memory, limit: int): Raw {
    Raw(m.evidence.recency, Clamp01(RawRelevance(m.evidence, limit)), Clamp01(m.evidence.importance))
  }

  // ----- the batch's extremes

  datatype Range = Range(min: real, max: real)
  datatype Ranges = Ranges(recency: Range, relevance: Range, importance: Range)

  const NO_RANGE := Range(1.0, 0.0)

  function Wider(r: Range, v: real): Range {
    Range(if v < r.min then v else r.min, if v > r.max then v else r.max)
  }

  function RangesOf(ms: seq<Memory>, limit: int): Ranges
    decreases |ms|
  {
    if ms == [] then Ranges(NO_RANGE, NO_RANGE, NO_RANGE)
    else
      var r, raw := RangesOf(ms[..|ms| - 1], limit), RawOf(ms[|ms| - 1], limit);
      Ranges(Wider(r.recency, raw.recency), Wider(r.relevance, raw.relevance), Wider(r.importance, raw.importance))
  }

  /** The recorded extremes are bounds for every memory of the batch. */
  lemma {:induction false} RangesBound(ms: seq<Memory>, limit: int)
    ensures forall m | m in ms ::
              var raw, r := RawOf(m, limit), RangesOf(ms, limit);
              && r.recency.min <= raw.recency <= r.recency.max
              && r.relevance.min <= raw.relevance <= r.relevance.max
              && r.importance.min <= raw.importance <= r.importance.max
    decreases |ms|
  {
    hide RawOf;
    if ms != [] {
      RangesBound(ms[..|ms| - 1], limit);
      assert ms == ms[..|ms| - 1] + [ms[|ms| - 1]];
    }
  }

  // ----- one memory's score

  /** The batch-normalised values, each in [0,1]. */
  function Normalized(raw: Raw, r: Ranges): Raw {
    Raw(MinMax(raw.recency, r.recency.min, r.recency.max),
        MinMax(raw.relevance, r.relevance.min, r.relevance.max),
        MinMax(raw.importance, r.importance.min, r.importance.max))
  }

  // shouldUseRelevanceFirst
  predicate RelevanceFirst(p: Profile) {
    !p.multiHop && !p.temporal && !p.blank && (p.person || p.factoid)
  }

  function WalWeights(w: Weights, p: Profile): (ws: seq<real>)
    ensures |ws| == 3
  {
    if RelevanceFirst(p) then [w.recency * 0.20, w.relevance * 1.75, w.importance * 0.25]
    else [w.recency, w.relevance, w.importance]
  }

  // applySingleHopPrecisionBoost
  function PrecisionBoost(total: real, overlap: real, dependency: real, kind: real): real {
    Clamp01(Times(Clamp01(Adjusted(total, overlap, dependency)), KindMultiplier(kind, dependency)))
  }

  function Adjusted(total: real, overlap: real, dependency: real): real {
    0.76 * Clamp01(total) + 0.14 * Clamp01(overlap) + 0.10 * Clamp01(dependency)
  }

  function KindMultiplier(kind: real, dependency: real): real {
    if dependency >= 0.5 then kind * 1.04 else kind
  }

  // applyLowEvidencePenalty
  function LowEvidencePenalty(total: real, relevance: real, overlap: real, rrf: real): real {
    if rrf >= 0.75 then Clamp01(total)
    else if relevance < 0.30 && overlap < 0.15 && rrf < 0.65 then Clamp01(total * 0.25)
    else if relevance < 0.55 && overlap < 0.20 && rrf < 0.55 then Clamp01(total * 0.45)
    else Clamp01(total)
  }

  function MatchOverlap(e: Evidence): real {
    if e.dependency > 0.0 then Clamp01(0.8 * e.overlap + 0.2 * e.dependency) else e.overlap
  }

  function MatchTotal(n: Raw, e: Evidence, w: Weights): real {
    Average([n.recency, n.relevance, n.importance, MatchOverlap(e), NormalizedRouteBoost(e.route)],
            [w.recency, w.relevance, w.importance, w.overlap, w.routing])
  }

  predicate SingleHop(p: Profile) {
    !p.temporal && !p.multiHop
  }

  /** The default algorithm's total before any routing by profile. */
  function WalTotal(n: Raw, e: Evidence, rawRelevance: real, w: Weights, p: Profile): real {
    var total := Average([n.recency, n.relevance, n.importance], WalWeights(w, p));
    if SingleHop(p)
    then LowEvidencePenalty(PrecisionBoost(total, e.overlap, e.dependency, e.kind), rawRelevance, e.overlap, e.signal.rrfScore)
    else total
  }

  function Routed(total: real, route: real): real {
    Clamp01((if total == 0.0 then 1.0 else total) * route)
  }

  function ScoreOf(n: Raw, e: Evidence, rawRelevance: real, p: Profile, o: Options): real {
    if o.matchAlgorithm then MatchTotal(n, e, o.weights)
    else
      var total := WalTotal(n, e, rawRelevance, o.weights, p);
      if p.temporal || p.person || p.multiHop then Routed(total, e.route) else total
  }

  /** A memory's score in its batch. */
  function BatchScore(m: Memory, ms: seq<Memory>, p: Profile, o: Options): real {
    ScoreOf(Normalized(RawOf(m, o.limit), RangesOf(ms, o.limit)), m.evidence, RawRelevance(m.evidence, o.limit), p, o)
  }

  method RankMemories(ms: seq<Memory>, p: Profile, o: Options) returns (scored: seq<Scored>)
    ensures |scored| == |ms| && forall i | 0 <= i < |ms| :: scored[i] == Scored(ms[i], BatchScore(ms[i], ms, p, o))
  {
    hide ScoreOf, Normalized;
    var raws: seq<Raw>, rawRelevance: seq<real>;
    var ranges;
    raws, rawRelevance, ranges := Measure(ms, o.limit);
    scored := [];
    for i := 0 to |ms|
      invariant |scored| == i && forall j | 0 <= j < i :: scored[j] == Scored(ms[j], BatchScore(ms[j], ms, p, o))
    {
      var total := ScoreMemory(Normalized(raws[i], ranges), ms[i].evidence, rawRelevance[i], p, o);
      scored := scored + [Scored(ms[i], total)];
    }
  }

  method ScoreMemory(n: Raw, e: Evidence, rawRelevance: real, p: Profile, o: Options) returns (total: real)
    ensures total == ScoreOf(n, e, rawRelevance, p, o)
  {
    hide Average, Clamp01, WalWeights, PrecisionBoost, LowEvidencePenalty, NormalizedRouteBoost;
    var overlap, w := e.overlap, o.weights;
    if o.matchAlgorithm {
      if e.dependency > 0.0 {
        overlap := Clamp01(0.8 * overlap + 0.2 * e.dependency);
      }
      total := WeightedAverage([n.recency, n.relevance, n.importance, overlap, NormalizedRouteBoost(e.route)],
                               [w.recency, w.relevance, w.importance, w.overlap, w.routing]);
      return;
    }
    total := WeightedAverage([n.recency, n.relevance, n.importance], WalWeights(w, p));
    if !p.temporal && !p.multiHop {
      total := PrecisionBoost(total, overlap, e.dependency, e.kind);
    }
    if !p.temporal && !p.multiHop {
      total := LowEvidencePenalty(total, rawRelevance, overlap, e.signal.rrfScore);
    }
    if p.temporal || p.person || p.multiHop {
      if total == 0.0 {
        total := 1.0;
      }
      total := Clamp01(total * e.route);
    }
  }

  /** The first pass over the batch: every memory's raw values, and their extremes. */
  method Measure(ms: seq<Memory>, limit: int) returns (raws: seq<Raw>, rawRelevance: seq<real>, ranges: Ranges)
    ensures |raws| == |rawRelevance| == |ms| && ranges == RangesOf(ms, limit)
    ensures forall i | 0 <= i < |ms| :: raws[i] == RawOf(ms[i], limit) && rawRelevance[i] == RawRelevance(ms[i].evidence, limit)
  {
    hide Average, RelevanceValues, RelevanceWeights, Clamp01;
    raws, rawRelevance, ranges := [], [], Ranges(NO_RANGE, NO_RANGE, NO_RANGE);
    for i := 0 to |ms|
      invariant |raws| == |rawRelevance| == i && ranges == RangesOf(ms[..i], limit)
      invariant forall j | 0 <= j < i :: raws[j] == RawOf(ms[j], limit) && rawRelevance[j] == RawRelevance(ms[j].evidence, limit)
    {
      assert ms[..i + 1][..i] == ms[..i];
      var e := ms[i].evidence;
      var relevance := WeightedAverage(RelevanceValues(e, limit), RelevanceWeights(e.signal));
      var raw := Raw(e.recency, Clamp01(relevance), Clamp01(e.importance));
      raws, rawRelevance := raws + [raw], rawRelevance + [relevance];
      ranges := Ranges(Wider(ranges.recency, raw.recency), Wider(ranges.relevance, raw.relevance),
                       Wider(ranges.importance, raw.importance));
    }
    assert ms[..|ms|] == ms;
  }

  // ----- the scores in numbers

  /**
   The raw relevance of a memory, its weights adding up to one: what the dense list says of it, and its rank there, count for 0.42
   of it, and are left out, with their weights, when that list does not hold it.
   */
  lemma RelevanceIs(e: Evidence, limit: int)
    ensures var s := e.signal;
            var rest := 0.12 * Clamp01(s.lexicalScore) + 0.20 * RankToNormalized(s.lexicalRank, limit) + 0.10 * Clamp01(s.rrfScore)
                        + 0.10 * Clamp01(e.entity) + 0.06 * RouteFit(e.route);
            if s.denseScore == 0.0 && s.denseRank == 0 then 0.58 * RawRelevance(e, limit) == rest
            else RawRelevance(e, limit) == 0.34 * Clamp01(s.denseScore) + 0.08 * RankToNormalized(s.denseRank, limit) + rest
  {
    var values, ws := RelevanceValues(e, limit), RelevanceWeights(e.signal);
    RouteFitIs(e.route);
    hide RankToNormalized, NormalizedRouteBoost, RouteFit, WeightedTotal, TotalWeight, Clamp01;
    TotalsOfSeven(values, ws);
    SevenParts(e, limit);
    Unshared(WeightedTotal(values, ws), TotalWeight(ws));
  }

  lemma SevenParts(e: Evidence, limit: int)
    ensures var vs := RelevanceValues(e, limit);
            && |vs| == 7 && vs[0] == e.signal.denseScore && vs[1] == e.signal.lexicalScore
            && Clamp01(vs[2]) == RankToNormalized(e.signal.denseRank, limit)
            && Clamp01(vs[3]) == RankToNormalized(e.signal.lexicalRank, limit)
            && vs[4] == e.signal.rrfScore && vs[5] == e.entity && Clamp01(vs[6]) == NormalizedRouteBoost(e.route)
  {
    hide RankToNormalized;
  }

  /** From 0.8 on the route's boost counts, in full from 1.35 on. */
  function RouteFit(route: real): real {
    if route <= 0.8 then 0.0 else if route >= 1.35 then 1.0 else (route - 0.8) / 0.55
  }

  lemma RouteFitIs(route: real)
    ensures NormalizedRouteBoost(route) == RouteFit(route)
  {
    var q := (route - 0.8) / 0.55;
    assert 1.35 - 0.8 == 0.55;
    assert q * 0.55 == route - 0.8;
  }

  /** The mean of the three normalised values under their weights, those of a person or factoid query leaning on relevance. */
  ghost predicate IsMean(mean: real, n: Raw, w: Weights, p: Profile) {
    var first := !p.multiHop && !p.temporal && !p.blank && (p.person || p.factoid);
    var x := Positive(w.recency) * if first then 0.20 else 1.0;
    var y := Positive(w.relevance) * if first then 1.75 else 1.0;
    var z := Positive(w.importance) * if first then 0.25 else 1.0;
    if x + y + z == 0.0 then mean == 0.0
    else mean == (Times(x, Clamp01(n.recency)) + Times(y, Clamp01(n.relevance)) + Times(z, Clamp01(n.importance))) / (x + y + z)
  }

  lemma MeanIs(n: Raw, w: Weights, p: Profile)
    ensures IsMean(Average([n.recency, n.relevance, n.importance], WalWeights(w, p)), n, w, p)
  {
    var values, ws := [n.recency, n.relevance, n.importance], WalWeights(w, p);
    hide WeightedTotal, TotalWeight, Clamp01, Times;
    TotalsOfThree(values, ws);
  }

  /** What the words and the phrase of the query that the memory holds, and its kind's multipliers, make of a mean. */
  function Boosted(mean: real, e: Evidence): real {
    var evident := Clamp01(0.76 * mean + 0.14 * Clamp01(e.overlap) + 0.10 * Clamp01(e.dependency));
    Clamp01(Times(evident, if e.dependency < 0.5 then e.kind else 1.04 * e.kind))
  }

  /** Weak evidence leaves a quarter of a total, thin evidence 0.45 of it. */
  function Cut(total: real, relevance: real, e: Evidence): real {
    var weak := relevance < 0.30 && e.overlap < 0.15 && e.signal.rrfScore < 0.65;
    var thin := relevance < 0.55 && e.overlap < 0.20 && e.signal.rrfScore < 0.55;
    if weak then total / 4.0 else if thin then 0.45 * total else total
  }

  function SingleHopTotal(mean: real, relevance: real, e: Evidence): real {
    Cut(Boosted(mean, e), relevance, e)
  }

  /**
   The default algorithm's score of a memory, from the mean of its normalised values: single-hop queries boost and cut it, and
   temporal, person and multi-hop queries route it, a total of zero taken for one.
   */
  lemma DefaultScoreIs(m: Memory, ms: seq<Memory>, p: Profile, o: Options) returns (mean: real)
    requires !o.matchAlgorithm
    ensures var e, r, relevance := m.evidence, RangesOf(ms, o.limit), RawRelevance(m.evidence, o.limit);
            var n := Raw(MinMax(e.recency, r.recency.min, r.recency.max),
                         MinMax(Clamp01(relevance), r.relevance.min, r.relevance.max),
                         MinMax(Clamp01(e.importance), r.importance.min, r.importance.max));
            IsMean(mean, n, o.weights, p) && 0.0 <= mean <= 1.0
    ensures var e, relevance := m.evidence, RawRelevance(m.evidence, o.limit);
            var total := if p.temporal || p.multiHop then mean else SingleHopTotal(mean, relevance, e);
            BatchScore(m, ms, p, o) ==
            if !p.temporal && !p.person && !p.multiHop then total
            else Clamp01(if total == 0.0 then e.route else Times(total, e.route))
  {
    hide IsMean, Average, WalWeights, RawRelevance, RangesOf, MinMax, PrecisionBoost, LowEvidencePenalty,
         SingleHopTotal, Clamp01, Routed, Times;
    var n := Normalized(RawOf(m, o.limit), RangesOf(ms, o.limit));
    mean := Average([n.recency, n.relevance, n.importance], WalWeights(o.weights, p));
    MeanIs(n, o.weights, p);
    AverageIsBetween([n.recency, n.relevance, n.importance], WalWeights(o.weights, p), 0.0, 1.0);
    SingleHopTotalIs(mean, RawRelevance(m.evidence, o.limit), m.evidence);
    RoutedIs(BatchTotal(m, ms, p, o), m.evidence.route);
  }

  lemma RoutedIs(total: real, route: real)
    ensures Routed(total, route) == Clamp01(if total == 0.0 then route else Times(total, route))
  {
    hide Clamp01;
  }

  lemma BoostIs(mean: real, e: Evidence)
    requires 0.0 <= mean <= 1.0
    ensures PrecisionBoost(mean, e.overlap, e.dependency, e.kind) == Boosted(mean, e)
  {
    hide Times;
  }

  lemma CutIs(total: real, relevance: real, e: Evidence)
    requires 0.0 <= total <= 1.0
    ensures LowEvidencePenalty(total, relevance, e.overlap, e.signal.rrfScore) == Cut(total, relevance, e)
  {
  }

  lemma SingleHopTotalIs(mean: real, relevance: real, e: Evidence)
    requires 0.0 <= mean <= 1.0
    ensures LowEvidencePenalty(PrecisionBoost(mean, e.overlap, e.dependency, e.kind), relevance, e.overlap, e.signal.rrfScore)
            == SingleHopTotal(mean, relevance, e)
  {
    BoostIs(mean, e);
    CutIs(Boosted(mean, e), relevance, e);
    hide PrecisionBoost, LowEvidencePenalty, Cut, Times;
  }

  /** The match algorithm's score: the mean of five values, the overlap giving a fifth to a matched phrase's coverage. */
  lemma MatchScoreIs(m: Memory, ms: seq<Memory>, p: Profile, o: Options)
    requires o.matchAlgorithm
    ensures var e, r := m.evidence, RangesOf(ms, o.limit);
            var overlap := if e.dependency <= 0.0 then Clamp01(e.overlap) else Clamp01(0.8 * e.overlap + 0.2 * e.dependency);
            var a, b, c, d, f := Positive(o.weights.recency), Positive(o.weights.relevance), Positive(o.weights.importance),
                                 Positive(o.weights.overlap), Positive(o.weights.routing);
            BatchScore(m, ms, p, o) ==
            if a + b + c + d + f == 0.0 then 0.0
            else (Times(a, MinMax(e.recency, r.recency.min, r.recency.max))
                 + Times(b, MinMax(Clamp01(RawRelevance(e, o.limit)), r.relevance.min, r.relevance.max))
                 + Times(c, MinMax(Clamp01(e.importance), r.importance.min, r.importance.max))
                 + Times(d, overlap) + Times(f, RouteFit(e.route))) / (a + b + c + d + f)
  {
    var n, e, w := Normalized(RawOf(m, o.limit), RangesOf(ms, o.limit)), m.evidence, o.weights;
    var values := [n.recency, n.relevance, n.importance, MatchOverlap(e), NormalizedRouteBoost(e.route)];
    var ws := [w.recency, w.relevance, w.importance, w.overlap, w.routing];
    RouteFitIs(e.route);
    OverlapIs(e);
    hide WeightedTotal, TotalWeight, RawRelevance, RangesOf, MinMax, NormalizedRouteBoost, RouteFit, Times, MatchOverlap, Positive;
    TotalsOfFive(values, ws);
    assert Clamp01(n.recency) == n.recency && Clamp01(n.relevance) == n.relevance && Clamp01(n.importance) == n.importance;
    assert Clamp01(NormalizedRouteBoost(e.route)) == RouteFit(e.route);
    hide Clamp01;
  }

  lemma OverlapIs(e: Evidence)
    ensures Clamp01(MatchOverlap(e)) == if e.dependency <= 0.0 then Clamp01(e.overlap) else Clamp01(0.8 * e.overlap + 0.2 * e.dependency)
    ensures 0.0 <= RouteFit(e.route) <= 1.0
  {
    RouteFitIs(e.route);
  }

  /** The extremes are no wider than the batch: each is some memory's value, or where it started. */
  lemma {:induction false} RangesAttained(ms: seq<Memory>, limit: int)
    ensures var r := RangesOf(ms, limit);
            && r.recency.min <= 1.0 && r.relevance.min <= 1.0 && r.importance.min <= 1.0
            && r.recency.max >= 0.0 && r.relevance.max >= 0.0 && r.importance.max >= 0.0
            && (r.recency.min == 1.0 || exists m | m in ms :: m.evidence.recency == r.recency.min)
            && (r.recency.max == 0.0 || exists m | m in ms :: m.evidence.recency == r.recency.max)
            && (r.relevance.min == 1.0 || exists m | m in ms :: Clamp01(RawRelevance(m.evidence, limit)) == r.relevance.min)
            && (r.relevance.max == 0.0 || exists m | m in ms :: Clamp01(RawRelevance(m.evidence, limit)) == r.relevance.max)
            && (r.importance.min == 1.0 || exists m | m in ms :: Clamp01(m.evidence.importance) == r.importance.min)
            && (r.importance.max == 0.0 || exists m | m in ms :: Clamp01(m.evidence.importance) == r.importance.max)
    decreases |ms|
  {
    hide RawRelevance, Clamp01;
    if ms != [] {
      RangesAttained(ms[..|ms| - 1], limit);
      assert ms[|ms| - 1] in ms && forall m | m in ms[..|ms| - 1] :: m in ms;
    }
  }

  // ----- every score is in [0,1]

  lemma ScoreIsInUnit(n: Raw, e: Evidence, rawRelevance: real, p: Profile, o: Options)
    ensures 0.0 <= ScoreOf(n, e, rawRelevance, p, o) <= 1.0
  {
    hide Average, Clamp01, NormalizedRouteBoost, MatchOverlap, WalWeights;
    var w := o.weights;
    AverageIsBetween([n.recency, n.relevance, n.importance, MatchOverlap(e), NormalizedRouteBoost(e.route)],
                     [w.recency, w.relevance, w.importance, w.overlap, w.routing], 0.0, 1.0);
    AverageIsBetween([n.recency, n.relevance, n.importance], WalWeights(w, p), 0.0, 1.0);
  }

  // ----- stronger evidence

  /** Nothing known of b is better than what is known of a. */
  predicate AtLeast(a: Memory, b: Memory, limit: int) {
    var x, y := a.evidence, b.evidence;
    && x.recency >= y.recency && x.importance >= y.importance && RawRelevance(x, limit) >= RawRelevance(y, limit)
    && x.overlap >= y.overlap && x.dependency >= y.dependency && x.signal.rrfScore >= y.signal.rrfScore
    && x.kind >= y.kind >= 0.0 && x.route >= y.route > 0.0
  }

  lemma ScaledUp(a: real, b: real, x: real, y: real)
    requires a >= b >= 0.0 && x >= y >= 0.0
    ensures Times(a, x) >= Times(b, y) >= 0.0
  {
    hide Times;
    TimesRules(a, y, x);
    TimesRules(y, b, a);
    TimesRules(a, y, y);
    TimesRules(b, 0.0, y);
  }

  lemma AdjustedGrows(t: real, u: real, x: Evidence, y: Evidence)
    requires t >= u && x.overlap >= y.overlap && x.dependency >= y.dependency
    ensures Adjusted(t, x.overlap, x.dependency) >= Adjusted(u, y.overlap, y.dependency)
  {
    hide Clamp01;
    ClampGrows(u, t);
    ClampGrows(y.overlap, x.overlap);
    ClampGrows(y.dependency, x.dependency);
  }

  lemma PrecisionBoostGrows(t: real, u: real, x: Evidence, y: Evidence)
    requires t >= u && x.overlap >= y.overlap && x.dependency >= y.dependency && x.kind >= y.kind >= 0.0
    ensures PrecisionBoost(t, x.overlap, x.dependency, x.kind) >= PrecisionBoost(u, y.overlap, y.dependency, y.kind)
  {
    hide Clamp01, Times, Adjusted;
    AdjustedGrows(t, u, x, y);
    var v, w := Adjusted(t, x.overlap, x.dependency), Adjusted(u, y.overlap, y.dependency);
    var k, l := KindMultiplier(x.kind, x.dependency), KindMultiplier(y.kind, y.dependency);
    ClampGrows(w, v);
    ScaledUp(Clamp01(v), Clamp01(w), k, l);
    ClampGrows(Times(Clamp01(w), l), Times(Clamp01(v), k));
  }

  /** The penalty never turns better evidence into a lower score: it grows with the total, relevance, overlap and fused score. */
  lemma PenaltyGrows(t: real, u: real, relevance: real, relevance': real, overlap: real, overlap': real, rrf: real, rrf': real)
    requires t >= u && relevance >= relevance' && overlap >= overlap' && rrf >= rrf'
    ensures LowEvidencePenalty(t, relevance, overlap, rrf) >= LowEvidencePenalty(u, relevance', overlap', rrf')
  {
  }

  lemma NormalizedGrows(a: Memory, b: Memory, limit: int, r: Ranges)
    requires AtLeast(a, b, limit)
    ensures var n, k := Normalized(RawOf(a, limit), r), Normalized(RawOf(b, limit), r);
            n.recency >= k.recency && n.relevance >= k.relevance && n.importance >= k.importance
  {
    hide RawRelevance, MinMax;
    var x, y := RawOf(a, limit), RawOf(b, limit);
    MinMaxGrows(y.recency, x.recency, r.recency.min, r.recency.max);
    MinMaxGrows(y.relevance, x.relevance, r.relevance.min, r.relevance.max);
    MinMaxGrows(y.importance, x.importance, r.importance.min, r.importance.max);
  }

  function BatchTotal(m: Memory, ms: seq<Memory>, p: Profile, o: Options): real {
    WalTotal(Normalized(RawOf(m, o.limit), RangesOf(ms, o.limit)), m.evidence, RawRelevance(m.evidence, o.limit), o.weights, p)
  }

  /** Before any routing by profile the default algorithm is monotone: stronger evidence never scores lower, for all weights. */
  lemma StrongerTotalsHigher(a: Memory, b: Memory, ms: seq<Memory>, p: Profile, o: Options)
    requires AtLeast(a, b, o.limit)
    ensures BatchTotal(a, ms, p, o) >= BatchTotal(b, ms, p, o)
  {
    hide RawRelevance, RawOf, RangesOf, Normalized, Average, PrecisionBoost, LowEvidencePenalty, WalWeights;
    var r := RangesOf(ms, o.limit);
    NormalizedGrows(a, b, o.limit, r);
    var n, k := Normalized(RawOf(a, o.limit), r), Normalized(RawOf(b, o.limit), r);
    var x, y := a.evidence, b.evidence;
    var w := WalWeights(o.weights, p);
    AverageGrows([k.recency, k.relevance, k.importance], [n.recency, n.relevance, n.importance], w);
    var t, u := Average([n.recency, n.relevance, n.importance], w), Average([k.recency, k.relevance, k.importance], w);
    PrecisionBoostGrows(t, u, x, y);
    PenaltyGrows(PrecisionBoost(t, x.overlap, x.dependency, x.kind), PrecisionBoost(u, y.overlap, y.dependency, y.kind),
                 RawRelevance(x, o.limit), RawRelevance(y, o.limit), x.overlap, y.overlap, x.signal.rrfScore, y.signal.rrfScore);
  }

  predicate RoutedProfile(p: Profile) {
    p.temporal || p.person || p.multiHop
  }

  lemma RoutedOrder(t: real, u: real, x: real, y: real)
    requires 1.0 >= t >= u >= 0.0 && x >= y > 0.0
    ensures Routed(t, x) >= Routed(u, y) <==> u > 0.0 || t == 0.0 || t * x >= 1.0 || t * x >= y
  {
    ScaledUp(t, u, x, y);
  }

  /**
   For the default algorithm stronger evidence never scores lower, for all weights, unless the profile routes the total. A
   routed total of exactly zero is taken for one, so there it holds if and only if the weaker memory's total is above zero,
   or both are zero, or the stronger one reaches what the weaker one is given all the same.
   */
  lemma StrongerScoresHigherIff(a: Memory, b: Memory, ms: seq<Memory>, p: Profile, o: Options)
    requires AtLeast(a, b, o.limit) && !o.matchAlgorithm
    ensures BatchScore(a, ms, p, o) >= BatchScore(b, ms, p, o) <==>
            var t, x := BatchTotal(a, ms, p, o), a.evidence.route;
            || !RoutedProfile(p) || BatchTotal(b, ms, p, o) > 0.0
            || t == 0.0 || t * x >= 1.0 || t * x >= b.evidence.route
  {
    hide RawRelevance, RawOf, RangesOf, Normalized, WalTotal, Routed;
    StrongerTotalsHigher(a, b, ms, p, o);
    TotalIsInUnit(a, ms, p, o);
    TotalIsInUnit(b, ms, p, o);
    RoutedOrder(BatchTotal(a, ms, p, o), BatchTotal(b, ms, p, o), a.evidence.route, b.evidence.route);
  }

  lemma TotalIsInUnit(m: Memory, ms: seq<Memory>, p: Profile, o: Options)
    ensures 0.0 <= BatchTotal(m, ms, p, o) <= 1.0
  {
    hide RawRelevance, RawOf, RangesOf, Average, Clamp01, WalWeights;
    var n := Normalized(RawOf(m, o.limit), RangesOf(ms, o.limit));
    AverageIsBetween([n.recency, n.relevance, n.importance], WalWeights(o.weights, p), 0.0, 1.0);
  }

  predicate LeastRecent(m: Memory, ms: seq<Memory>, limit: int) {
    forall x | x in ms :: RawOf(m, limit).recency <= RawOf(x, limit).recency
  }

  predicate LeastRelevant(m: Memory, ms: seq<Memory>, limit: int) {
    forall x | x in ms :: RawOf(m, limit).relevance <= RawOf(x, limit).relevance
  }

  predicate LeastImportant(m: Memory, ms: seq<Memory>, limit: int) {
    forall x | x in ms :: RawOf(m, limit).importance <= RawOf(x, limit).importance
  }

  /** No memory of the batch is less recent, less relevant or less important. */
  predicate Least(m: Memory, ms: seq<Memory>, limit: int) {
    LeastRecent(m, ms, limit) && LeastRelevant(m, ms, limit) && LeastImportant(m, ms, limit)
  }

  lemma {:induction false} LeastIsBelowTheRanges(m: Memory, ms: seq<Memory>, limit: int)
    requires m.evidence.recency <= 1.0
    ensures var raw, r := RawOf(m, limit), RangesOf(ms, limit);
            && (LeastRecent(m, ms, limit) ==> raw.recency <= r.recency.min)
            && (LeastRelevant(m, ms, limit) ==> raw.relevance <= r.relevance.min)
            && (LeastImportant(m, ms, limit) ==> raw.importance <= r.importance.min)
    decreases |ms|
  {
    hide RawRelevance, Clamp01;
    if ms != [] {
      assert ms[|ms| - 1] in ms;
      LeastIsBelowTheRanges(m, ms[..|ms| - 1], limit);
    }
  }

  /** A memory's normalised value is zero if and only if it is the least of the batch. */
  lemma NormalizedIsZeroIff(m: Memory, ms: seq<Memory>, limit: int)
    requires m in ms && m.evidence.recency <= 1.0
    ensures var n := Normalized(RawOf(m, limit), RangesOf(ms, limit));
            && (n.recency == 0.0 <==> LeastRecent(m, ms, limit))
            && (n.relevance == 0.0 <==> LeastRelevant(m, ms, limit))
            && (n.importance == 0.0 <==> LeastImportant(m, ms, limit))
  {
    hide RawOf, RangesOf, MinMax;
    RangesBound(ms, limit);
    LeastIsBelowTheRanges(m, ms, limit);
    var raw, r := RawOf(m, limit), RangesOf(ms, limit);
    MinMaxIsZeroIff(raw.recency, r.recency.min, r.recency.max);
    MinMaxIsZeroIff(raw.relevance, r.relevance.min, r.relevance.max);
    MinMaxIsZeroIff(raw.importance, r.importance.min, r.importance.max);
  }

  /** It is the least of the batch in everything the weights count. */
  predicate AtBottom(m: Memory, ms: seq<Memory>, o: Options) {
    && (o.weights.recency > 0.0 ==> LeastRecent(m, ms, o.limit))
    && (o.weights.relevance > 0.0 ==> LeastRelevant(m, ms, o.limit))
    && (o.weights.importance > 0.0 ==> LeastImportant(m, ms, o.limit))
  }

  lemma AverageAtBottomIff(m: Memory, ms: seq<Memory>, p: Profile, o: Options)
    requires m in ms && m.evidence.recency <= 1.0
    ensures var n := Normalized(RawOf(m, o.limit), RangesOf(ms, o.limit));
            Average([n.recency, n.relevance, n.importance], WalWeights(o.weights, p)) == 0.0 <==> AtBottom(m, ms, o)
  {
    hide Average, LeastRecent, LeastRelevant, LeastImportant, RawOf, RangesOf;
    NormalizedIsZeroIff(m, ms, o.limit);
    var n, ws := Normalized(RawOf(m, o.limit), RangesOf(ms, o.limit)), WalWeights(o.weights, p);
    var values := [n.recency, n.relevance, n.importance];
    AverageIsZeroIff(values, ws);
    assert (ws[0] > 0.0 <==> o.weights.recency > 0.0) && (ws[1] > 0.0 <==> o.weights.relevance > 0.0)
           && (ws[2] > 0.0 <==> o.weights.importance > 0.0);
    assert values[0] == n.recency && values[1] == n.relevance && values[2] == n.importance;
  }

  /**
   When a total is zero, from the batch and the weights alone: on temporal and multi-hop queries for a memory that is the least
   in everything the weights count; on others only if no overlap and no phrase of the query lifts it either.
   */
  lemma TotalIsZeroIff(m: Memory, ms: seq<Memory>, p: Profile, o: Options)
    requires m in ms && m.evidence.recency <= 1.0
    ensures BatchTotal(m, ms, p, o) == 0.0 <==>
            if SingleHop(p) then m.evidence.kind <= 0.0 || (AtBottom(m, ms, o) && m.evidence.overlap <= 0.0 && m.evidence.dependency <= 0.0)
            else AtBottom(m, ms, o)
  {
    AverageAtBottomIff(m, ms, p, o);
    hide RawRelevance, RawOf, RangesOf, Normalized, Average, WalWeights, AtBottom, Times;
    var n, e := Normalized(RawOf(m, o.limit), RangesOf(ms, o.limit)), m.evidence;
    var total := Average([n.recency, n.relevance, n.importance], WalWeights(o.weights, p));
    AverageIsBetween([n.recency, n.relevance, n.importance], WalWeights(o.weights, p), 0.0, 1.0);
    if SingleHop(p) {
      BoostIsZeroIff(total, e.overlap, e.dependency, e.kind);
    }
  }

  lemma BoostIsZeroIff(total: real, overlap: real, dependency: real, kind: real)
    ensures PrecisionBoost(total, overlap, dependency, kind) == 0.0
            <==> kind <= 0.0 || (total <= 0.0 && overlap <= 0.0 && dependency <= 0.0)
  {
    hide Times;
    var v, k := Clamp01(Adjusted(total, overlap, dependency)), KindMultiplier(kind, dependency);
    TimesOrder(v, 0.0, k);
    TimesRules(v, k, 0.0);
    TimesRules(v, 0.0, 0.0);
  }

  /**
   So on temporal and multi-hop queries stronger evidence scores at least as high if and only if the weaker memory is not at the
   bottom of the batch, or the stronger one is there too, or it reaches what the weaker one is given all the same.
   */
  lemma StrongerRoutesHigherIff(a: Memory, b: Memory, ms: seq<Memory>, p: Profile, o: Options)
    requires AtLeast(a, b, o.limit) && !o.matchAlgorithm && !SingleHop(p)
    requires a in ms && b in ms && a.evidence.recency <= 1.0
    ensures BatchScore(a, ms, p, o) >= BatchScore(b, ms, p, o) <==>
            var t, x := BatchTotal(a, ms, p, o), a.evidence.route;
            !AtBottom(b, ms, o) || AtBottom(a, ms, o) || t * x >= 1.0 || t * x >= b.evidence.route
  {
    hide BatchScore, BatchTotal, AtBottom, RawRelevance;
    StrongerScoresHigherIff(a, b, ms, p, o);
    TotalIsZeroIff(a, ms, p, o);
    TotalIsZeroIff(b, ms, p, o);
    TotalIsInUnit(b, ms, p, o);
  }

  /**
   On temporal and multi-hop queries the least recent, least relevant and least important memory of a batch scores as high as
   any memory its query routes no better, whatever the weights: its total of zero is taken for one.
   */
  lemma LeastScoresLikeTheBest(m: Memory, other: Memory, ms: seq<Memory>, p: Profile, o: Options)
    requires Least(m, ms, o.limit) && m.evidence.recency <= 1.0
    requires (p.temporal || p.multiHop) && !o.matchAlgorithm && 0.0 <= other.evidence.route <= m.evidence.route
    ensures BatchScore(m, ms, p, o) == Clamp01(m.evidence.route) >= BatchScore(other, ms, p, o)
  {
    hide RawRelevance, RawOf, RangesOf, Average, WalWeights;
    LeastIsBelowTheRanges(m, ms, o.limit);
    var raw, r := RawOf(m, o.limit), RangesOf(ms, o.limit);
    MinMaxAtBottom(raw.recency, r.recency.min, r.recency.max);
    MinMaxAtBottom(raw.relevance, r.relevance.min, r.relevance.max);
    MinMaxAtBottom(raw.importance, r.importance.min, r.importance.max);
    NoneOfNothing(WalWeights(o.weights, p));
    TotalIsInUnit(other, ms, p, o);
    RouteShare(BatchTotal(other, ms, p, o), other.evidence.route, m.evidence.route);
  }

  function Aged(recency: real): Memory {
    Memory("m", Evidence(recency, Signal(0.0, 0, 0.0, 0, 0.0), 0.0, 1.0, 0.0, 0.0, 0.0, 1.0))
  }

  lemma AgeIsIrrelevant(r: real, s: real)
    ensures RawRelevance(Aged(r).evidence, 10) == RawRelevance(Aged(s).evidence, 10)
    ensures RawOf(Aged(r), 10) == RawOf(Aged(s), 10).(recency := r) && RawOf(Aged(s), 10).recency == s
  {
    hide Average, Clamp01;
  }

  lemma RangesOfThree(a: Memory, b: Memory, c: Memory)
    requires a.evidence.recency == 0.0 && b.evidence.recency == 0.5 && c.evidence.recency == 1.0
    ensures RangesOf([a, b, c], 10).recency == Range(0.0, 1.0)
  {
    hide RawRelevance, Clamp01;
    var ms := [a, b, c];
    assert ms[..2] == [a, b] && [a, b][..1] == [a] && [a][..0] == [];
    assert RangesOf([a], 10).recency == Range(0.0, 0.0);
    assert RangesOf([a, b], 10).recency == Range(0.0, 0.5);
  }

  /** Three memories alike but for their recency, asked about on a temporal query: the oldest scores above the middle one. */
  lemma OldestBeatsMiddle()
    ensures var ms, p := [Aged(0.0), Aged(0.5), Aged(1.0)], Profile(true, false, false, false, false);
            var o := Options(false, Weights(1.0, 0.0, 0.0, 0.0, 0.0), 10);
            AtLeast(ms[1], ms[0], 10) && BatchScore(ms[0], ms, p, o) == 1.0 && BatchScore(ms[1], ms, p, o) == 0.5
  {
    hide RawRelevance, RawOf, RangesOf, Average;
    var ms, p := [Aged(0.0), Aged(0.5), Aged(1.0)], Profile(true, false, false, false, false);
    var o := Options(false, Weights(1.0, 0.0, 0.0, 0.0, 0.0), 10);
    AgeIsIrrelevant(0.5, 0.0);
    AgeIsIrrelevant(1.0, 0.0);
    RangesOfThree(ms[0], ms[1], ms[2]);
    LeastScoresLikeTheBest(ms[0], ms[1], ms, p, o);
    var n := Normalized(RawOf(ms[1], 10), RangesOf(ms, 10));
    var ws := WalWeights(o.weights, p);
    assert ws == [1.0, 0.0, 0.0] && ws[0] in ws && n.recency == 0.5;
    AverageIsBetween([n.recency, n.relevance, n.importance], ws, 0.5, 0.5);
    assert BatchTotal(ms[1], ms, p, o) == 0.5;
  }

  lemma NoneOfNothing(ws: seq<real>)
    requires |ws| == 3
    ensures Average([0.0, 0.0, 0.0], ws) == 0.0
  {
    hide Average;
    AverageIsBetween([0.0, 0.0, 0.0], ws, 0.0, 0.0);
    assert (forall w | w in ws :: w <= 0.0) || exists w | w in ws :: w > 0.0;
  }

  lemma RouteShare(t: real, route: real, most: real)
    requires 0.0 <= t <= 1.0 && 0.0 <= route <= most
    ensures Routed(t, route) <= Clamp01(most)
  {
    ScaledUp(1.0, t, most, route);
  }

  // ----- the match algorithm's overlap

  function AtMost1(v: real): real {
    if v > 1.0 then 1.0 else v
  }

  /**
   A phrase match, found for the first time, dilutes the overlap: its coverage is below the overlap by more than four times
   what the overlap has gained.
   */
  predicate PhraseDilutes(x: Evidence, y: Evidence) {
    x.dependency > 0.0 >= y.dependency && 4.0 * x.overlap + x.dependency < 5.0 * AtMost1(y.overlap)
  }

  lemma OverlapGrowsIff(x: Evidence, y: Evidence)
    requires x.overlap >= y.overlap && x.dependency >= y.dependency
    ensures Clamp01(MatchOverlap(x)) >= Clamp01(MatchOverlap(y)) <==> !PhraseDilutes(x, y)
  {
  }

  /**
   Two memories alike in all but the words they share with the query: the one with more overlap and more phrase coverage scores
   lower if and only if the overlap counts and the phrase dilutes it; with the same overlap, if and only if the coverage is
   below that.
   */
  lemma PhraseMatchLowersScoreIff(a: Memory, b: Memory, ms: seq<Memory>, p: Profile, o: Options)
    requires o.matchAlgorithm && a.evidence == b.evidence.(overlap := a.evidence.overlap, dependency := a.evidence.dependency)
    requires a.evidence.overlap >= b.evidence.overlap && a.evidence.dependency >= b.evidence.dependency
    ensures BatchScore(a, ms, p, o) < BatchScore(b, ms, p, o) <==> o.weights.overlap > 0.0 && PhraseDilutes(a.evidence, b.evidence)
    ensures a.evidence.dependency > 0.0 == b.evidence.dependency && 0.0 <= a.evidence.overlap == b.evidence.overlap <= 1.0 ==>
              (BatchScore(a, ms, p, o) < BatchScore(b, ms, p, o)
               <==> o.weights.overlap > 0.0 && a.evidence.dependency < b.evidence.overlap)
  {
    SameButForWords(a, b, o.limit);
    hide RawOf, RangesOf, Normalized, Average, MatchOverlap, NormalizedRouteBoost, Clamp01;
    OverlapGrowsIff(a.evidence, b.evidence);
    var n, w, route := Normalized(RawOf(b, o.limit), RangesOf(ms, o.limit)), o.weights, NormalizedRouteBoost(b.evidence.route);
    AverageLowerIff([n.recency, n.relevance, n.importance, MatchOverlap(a.evidence), route],
                    [n.recency, n.relevance, n.importance, MatchOverlap(b.evidence), route],
                    [w.recency, w.relevance, w.importance, w.overlap, w.routing], 3);
  }

  lemma SameButForWords(a: Memory, b: Memory, limit: int)
    requires a.evidence == b.evidence.(overlap := a.evidence.overlap, dependency := a.evidence.dependency)
    ensures RawOf(a, limit) == RawOf(b, limit)
  {
    hide Average, Clamp01;
  }

  const OVERLAP_ONLY := Weights(0.0, 0.0, 0.0, 1.0, 0.0)

  lemma OnlyOverlapCounts(m: Memory, ms: seq<Memory>, p: Profile, o: Options)
    requires o.matchAlgorithm && o.weights == OVERLAP_ONLY
    ensures BatchScore(m, ms, p, o) == Clamp01(MatchOverlap(m.evidence))
  {
    hide RawOf, RangesOf, Normalized, Average, MatchOverlap, NormalizedRouteBoost, Clamp01;
    var n, v := Normalized(RawOf(m, o.limit), RangesOf(ms, o.limit)), MatchOverlap(m.evidence);
    var values, ws := [n.recency, n.relevance, n.importance, v, NormalizedRouteBoost(m.evidence.route)], [0.0, 0.0, 0.0, 1.0, 0.0];
    assert ws[3] == 1.0 && ws[3] in ws && values[3] == v;
    AverageIsBetween(values, ws, Clamp01(v), Clamp01(v));
  }

  /** Two memories of one batch, half of the query's phrase found in one of them: that one scores lower. */
  lemma PhraseMatchMayDilute(p: Profile)
    ensures var b := Memory("b", Aged(0.0).evidence.(overlap := 1.0));
            var a, o := Memory("a", b.evidence.(dependency := 0.5)), Options(true, OVERLAP_ONLY, 10);
            AtLeast(a, b, 10) && BatchScore(a, [a, b], p, o) == 0.9 && BatchScore(b, [a, b], p, o) == 1.0
  {
    var b := Memory("b", Aged(0.0).evidence.(overlap := 1.0));
    var a, o := Memory("a", b.evidence.(dependency := 0.5)), Options(true, OVERLAP_ONLY, 10);
    OnlyOverlapCounts(a, [a, b], p, o);
    OnlyOverlapCounts(b, [a, b], p, o);
    hide RangesOf, Normalized, Average, RawOf;
  }

  lemma StrongerMatchesHigher(a: Memory, b: Memory, ms: seq<Memory>, p: Profile, o: Options)
    requires AtLeast(a, b, o.limit) && o.matchAlgorithm && !PhraseDilutes(a.evidence, b.evidence)
    ensures BatchScore(a, ms, p, o) >= BatchScore(b, ms, p, o)
  {
    hide RawRelevance, RawOf, RangesOf, Normalized, Average, MatchOverlap;
    var r, w := RangesOf(ms, o.limit), o.weights;
    NormalizedGrows(a, b, o.limit, r);
    OverlapGrowsIff(a.evidence, b.evidence);
    RouteFitGrows(b.evidence.route, a.evidence.route);
    hide Clamp01, NormalizedRouteBoost;
    var n, k := Normalized(RawOf(a, o.limit), r), Normalized(RawOf(b, o.limit), r);
    ClampGrows(k.recency, n.recency);
    ClampGrows(k.relevance, n.relevance);
    ClampGrows(k.importance, n.importance);
    ClampGrows(NormalizedRouteBoost(b.evidence.route), NormalizedRouteBoost(a.evidence.route));
    AverageGrows([k.recency, k.relevance, k.importance, MatchOverlap(b.evidence), NormalizedRouteBoost(b.evidence.route)],
                 [n.recency, n.relevance, n.importance, MatchOverlap(a.evidence), NormalizedRouteBoost(a.evidence.route)],
                 [w.recency, w.relevance, w.importance, w.overlap, w.routing]);
  }

  /** The match algorithm never scores stronger evidence lower, whatever the weights, if and only if no phrase dilutes it. */
  lemma StrongerMatchesHigherIff(a: Memory, b: Memory, ms: seq<Memory>, p: Profile, o: Options)
    requires AtLeast(a, b, o.limit) && o.matchAlgorithm
    ensures (forall w: Weights :: BatchScore(a, ms, p, o.(weights := w)) >= BatchScore(b, ms, p, o.(weights := w)))
            <==> !PhraseDilutes(a.evidence, b.evidence)
  {
    hide BatchScore, RawRelevance;
    if PhraseDilutes(a.evidence, b.evidence) {
      OnlyOverlapCounts(a, ms, p, o.(weights := OVERLAP_ONLY));
      OnlyOverlapCounts(b, ms, p, o.(weights := OVERLAP_ONLY));
      OverlapGrowsIff(a.evidence, b.evidence);
    } else {
      forall w: Weights
        ensures BatchScore(a, ms, p, o.(weights := w)) >= BatchScore(b, ms, p, o.(weights := w))
      {
        StrongerMatchesHigher(a, b, ms, p, o.(weights := w));
      }
    }
  }

  lemma RouteFitGrows(v: real, w: real)
    requires v <= w
    ensures NormalizedRouteBoost(v) <= NormalizedRouteBoost(w)
  {
    QuotientGrows(v - 0.8, w - 0.8, 1.35 - 0.8);
  }

  // ----- fused results and the low-evidence penalty

  /**
   The penalty's first guard asks for a fused score of 0.75, which no fused result has: so a weak result that only one
   list holds always falls to a quarter.
   */
  lemma FusedResultsMissTheGuard(dense: seq<Hit>, lexical: seq<Hit>, id: string, total: real, relevance: real, overlap: real)
    requires id in Ids(dense) + Ids(lexical)
    ensures SignalOf(dense, lexical, id).rrfScore < 0.75
    ensures (Rank(dense, id) == 0 || Rank(lexical, id) == 0) && relevance < 0.30 && overlap < 0.15 ==>
              LowEvidencePenalty(total, relevance, overlap, SignalOf(dense, lexical, id).rrfScore) == Clamp01(total * 0.25)
  {
    hide Rank, SignalOf, Ids;
    NormalizedScoreRange(dense, lexical, id);
  }

  /** From 0.65 on a fused score is spared whatever the rest, so the guard at 0.75 decides nothing. */
  lemma SparedIff(rrf: real)
    ensures (forall total, relevance, overlap :: LowEvidencePenalty(total, relevance, overlap, rrf) == Clamp01(total)) <==> rrf >= 0.65
  {
    if rrf < 0.65 {
      assert LowEvidencePenalty(1.0, 0.0, 0.0, rrf) != Clamp01(1.0);
    }
  }

  /** A lookup by entity facts gives each of its memories a fused score of 1, and so none is penalised, however weak. */
  lemma LookupsMeetTheGuard(m: Memory, ms: seq<Memory>, p: Profile, o: Options)
    requires m.evidence.signal.rrfScore == 1.0 && SingleHop(p) && !p.person && !o.matchAlgorithm
    ensures var e, n := m.evidence, Normalized(RawOf(m, o.limit), RangesOf(ms, o.limit));
            BatchScore(m, ms, p, o)
            == Clamp01(PrecisionBoost(Average([n.recency, n.relevance, n.importance], WalWeights(o.weights, p)),
                                      e.overlap, e.dependency, e.kind))
  {
    hide RawOf, RangesOf, Normalized, Average, PrecisionBoost, WalWeights;
    SparedIff(1.0);
  }
}
