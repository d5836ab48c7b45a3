/** Clamping, averaging and normalising scores. */
module Scoring {

  function Clamp01(v: real): (r: real)
    ensures 0.0 <= r <= 1.0
    ensures 0.0 <= v <= 1.0 ==> r == v
  {
    if v < 0.0 then 0.0 else if v > 1.0 then 1.0 else v
  }

  lemma ClampGrows(v: real, w: real)
    requires v <= w
    ensures Clamp01(v) <= Clamp01(w)
  {
  }

  /** The weights that count: those above zero. */
  function Positive(w: real): real {
    if w <= 0.0 then 0.0 else w
  }

  function TotalWeight(weights: seq<real>): (r: real)
    ensures r >= 0.0
    decreases |weights|
  {
    if weights == [] then 0.0 else TotalWeight(weights[..|weights| - 1]) + Positive(weights[|weights| - 1])
  }

  function WeightedTotal(values: seq<real>, weights: seq<real>): real
    requires |values| == |weights|
    decreases |weights|
  {
    if weights == [] then 0.0
    else WeightedTotal(values[..|values| - 1], weights[..|weights| - 1])
         + Times(Positive(weights[|weights| - 1]), Clamp01(values[|values| - 1]))
  }

  function Times(a: real, b: real): real {
    a * b
  }

  lemma TimesRules(a: real, b: real, c: real)
    ensures Times(a, b + c) == Times(a, b) + Times(a, c)
    ensures Times(a, b) == Times(b, a)
    ensures a >= 0.0 && b <= c ==> Times(a, b) <= Times(a, c)
    ensures Times(a, 0.0) == 0.0
  {
    assert a >= 0.0 && b <= c ==> a * (c - b) >= 0.0;
  }

  predicate Bounds(values: seq<real>, weights: seq<real>, lo: real, hi: real)
    requires |values| == |weights|
  {
    forall i | 0 <= i < |weights| && weights[i] > 0.0 :: lo <= Clamp01(values[i]) <= hi
  }

  /** Bounds on the values that count bound the weighted total. */
  lemma {:induction false} WeightedTotalBounds(values: seq<real>, weights: seq<real>, lo: real, hi: real)
    requires |values| == |weights| && Bounds(values, weights, lo, hi)
    ensures Times(lo, TotalWeight(weights)) <= WeightedTotal(values, weights) <= Times(hi, TotalWeight(weights))
    decreases |weights|
  {
    hide Times, Clamp01;
    if weights == [] {
      TimesRules(lo, 0.0, 0.0);
      TimesRules(hi, 0.0, 0.0);
    } else {
      var n := |weights| - 1;
      var w, v, rest := Positive(weights[n]), Clamp01(values[n]), TotalWeight(weights[..n]);
      WeightedTotalBounds(values[..n], weights[..n], lo, hi);
      TimesRules(lo, rest, w);
      TimesRules(hi, rest, w);
      TimesRules(hi, w, w);
      TimesRules(w, lo, v);
      TimesRules(w, v, hi);
      TimesRules(v, 0.0, 0.0);
      TimesRules(v, w, 0.0);
    }
  }

  lemma {:induction false} NoWeight(weights: seq<real>)
    ensures TotalWeight(weights) == 0.0 <==> forall w | w in weights :: w <= 0.0
    decreases |weights|
  {
    if weights != [] {
      var n := |weights| - 1;
      NoWeight(weights[..n]);
      assert weights == weights[..n] + [weights[n]];
      assert weights[n] in weights && forall w | w in weights[..n] :: w in weights;
    }
  }

  lemma Divided(lo: real, x: real, hi: real, y: real)
    requires y > 0.0 && Times(lo, y) <= x <= Times(hi, y)
    ensures lo <= x / y <= hi
  {
    var q := x / y;
    assert q * y == x;
    assert (lo - q) * y <= 0.0 && (q - hi) * y <= 0.0;
    NotAbove(lo - q, y);
    NotAbove(q - hi, y);
  }

  lemma NotAbove(z: real, y: real)
    requires y > 0.0
    ensures z * y <= 0.0 ==> z <= 0.0
    ensures z * y < 0.0 ==> z < 0.0
  {
  }

  /** The quotient the average is: it lies between any bounds on the values that count. */
  lemma AverageBounds(values: seq<real>, weights: seq<real>, lo: real, hi: real)
    requires |values| == |weights| && Bounds(values, weights, lo, hi) && TotalWeight(weights) > 0.0
    ensures lo <= WeightedTotal(values, weights) / TotalWeight(weights) <= hi
  {
    hide Times, TotalWeight, WeightedTotal, Bounds;
    WeightedTotalBounds(values, weights, lo, hi);
    Divided(lo, WeightedTotal(values, weights), hi, TotalWeight(weights));
  }

  /** The mean of the clamped values whose weight is above zero, whatever the weights; nothing to average gives zero. */
  method WeightedAverage(values: seq<real>, weights: seq<real>) returns (r: real)
    ensures r == Average(values, weights)
  {
    if |values| == 0 || |values| != |weights| {
      return 0.0;
    }
    hide Times;
    var totalWeight, total := 0.0, 0.0;
    for i := 0 to |values|
      invariant totalWeight == TotalWeight(weights[..i]) && total == WeightedTotal(values[..i], weights[..i])
    {
      assert weights[..i + 1][..i] == weights[..i] && values[..i + 1][..i] == values[..i];
      TimesRules(Clamp01(values[i]), 0.0, 0.0);
      TimesRules(0.0, Clamp01(values[i]), 0.0);
      var w := weights[i];
      if w <= 0.0 {
        continue;
      }
      totalWeight := totalWeight + w;
      total := total + Times(w, Clamp01(values[i]));
    }
    assert weights[..|weights|] == weights && values[..|values|] == values;
    if totalWeight == 0.0 {
      return 0.0;
    }
    AverageBounds(values, weights, 0.0, 1.0);
    return Clamp01(total / totalWeight);
  }

  function Average(values: seq<real>, weights: seq<real>): real {
    if |values| != |weights| || TotalWeight(weights) == 0.0 then 0.0
    else WeightedTotal(values, weights) / TotalWeight(weights)
  }

  /** One value more adds its weight to the total, and its share of the mean, exactly when its weight is above zero. */
  lemma OneMoreValue(values: seq<real>, weights: seq<real>, v: real, w: real)
    requires |values| == |weights|
    ensures TotalWeight([]) == 0.0
    ensures var before, after := TotalWeight(weights), TotalWeight(weights + [w]);
            if w <= 0.0 then after == before && Average(values + [v], weights + [w]) == Average(values, weights)
            else && after == before + w
                 && Average(values + [v], weights + [w]) * after == Average(values, weights) * before + w * Clamp01(v)
  {
    hide TotalWeight, WeightedTotal, Times, Clamp01;
    TotalsGrow(values, weights, v, w);
    PositiveShare(w, v);
    NoWeightNoTotal(values, weights);
    var before, after := TotalWeight(weights), TotalWeight(weights + [w]);
    if before > 0.0 {
      Unshared(WeightedTotal(values, weights), before);
    }
    if after > 0.0 {
      Unshared(WeightedTotal(values + [v], weights + [w]), after);
    }
  }

  lemma Unshared(x: real, y: real)
    requires y > 0.0
    ensures x / y * y == x
  {
  }

  lemma TotalsGrow(values: seq<real>, weights: seq<real>, v: real, w: real)
    requires |values| == |weights|
    ensures TotalWeight([]) == 0.0 && TotalWeight(weights + [w]) == TotalWeight(weights) + Positive(w)
    ensures WeightedTotal(values + [v], weights + [w]) == WeightedTotal(values, weights) + Times(Positive(w), Clamp01(v))
  {
    hide Times, Positive, Clamp01;
    var ws, vs, n := weights + [w], values + [v], |weights|;
    TotalsStep(vs, ws, n + 1);
    assert ws[..n] == weights && vs[..n] == values && ws[..n + 1] == ws && vs[..n + 1] == vs;
  }

  lemma PositiveShare(w: real, v: real)
    ensures Times(Positive(w), Clamp01(v)) == if w <= 0.0 then 0.0 else w * Clamp01(v)
  {
    TimesRules(Clamp01(v), 0.0, 0.0);
    TimesRules(0.0, Clamp01(v), 0.0);
  }

  lemma NoWeightNoTotal(values: seq<real>, weights: seq<real>)
    requires |values| == |weights|
    ensures TotalWeight(weights) == 0.0 ==> WeightedTotal(values, weights) == 0.0
  {
    if TotalWeight(weights) == 0.0 {
      NoWeight(weights);
      assert forall i | 0 <= i < |weights| :: weights[i] in weights;
      WeightedTotalBounds(values, weights, 0.0, 0.0);
      TimesRules(0.0, 0.0, 0.0);
    }
  }

  // ----- totals of lists of a known length

  lemma TotalsStep(values: seq<real>, ws: seq<real>, n: nat)
    requires |values| == |ws| && 0 < n <= |ws|
    ensures TotalWeight(ws[..n]) == TotalWeight(ws[..n - 1]) + Positive(ws[n - 1])
    ensures WeightedTotal(values[..n], ws[..n])
            == WeightedTotal(values[..n - 1], ws[..n - 1]) + Times(Positive(ws[n - 1]), Clamp01(values[n - 1]))
  {
    hide Times, Positive, Clamp01;
    assert ws[..n][..n - 1] == ws[..n - 1] && values[..n][..n - 1] == values[..n - 1];
  }

  lemma TotalsOfThree(values: seq<real>, ws: seq<real>)
    requires |values| == |ws| == 3
    ensures TotalWeight(ws) == Positive(ws[0]) + Positive(ws[1]) + Positive(ws[2])
    ensures WeightedTotal(values, ws)
            == Times(Positive(ws[0]), Clamp01(values[0])) + Times(Positive(ws[1]), Clamp01(values[1]))
               + Times(Positive(ws[2]), Clamp01(values[2]))
  {
    hide Times, Positive, Clamp01;
    TotalsStep(values, ws, 1);
    TotalsStep(values, ws, 2);
    TotalsStep(values, ws, 3);
    assert ws[..3] == ws && values[..3] == values && ws[..0] == [] && values[..0] == [];
  }

  lemma TotalsOfFive(values: seq<real>, ws: seq<real>)
    requires |values| == |ws| == 5
    ensures TotalWeight(ws) == Positive(ws[0]) + Positive(ws[1]) + Positive(ws[2]) + Positive(ws[3]) + Positive(ws[4])
    ensures WeightedTotal(values, ws)
            == Times(Positive(ws[0]), Clamp01(values[0])) + Times(Positive(ws[1]), Clamp01(values[1]))
               + Times(Positive(ws[2]), Clamp01(values[2])) + Times(Positive(ws[3]), Clamp01(values[3]))
               + Times(Positive(ws[4]), Clamp01(values[4]))
  {
    hide Times, Positive, Clamp01;
    TotalsStep(values, ws, 1);
    TotalsStep(values, ws, 2);
    TotalsStep(values, ws, 3);
    TotalsStep(values, ws, 4);
    TotalsStep(values, ws, 5);
    assert ws[..5] == ws && values[..5] == values && ws[..0] == [] && values[..0] == [];
  }

  lemma TotalsOfSeven(values: seq<real>, ws: seq<real>)
    requires |values| == |ws| == 7
    ensures TotalWeight(ws) == Positive(ws[0]) + Positive(ws[1]) + Positive(ws[2]) + Positive(ws[3]) + Positive(ws[4])
                               + Positive(ws[5]) + Positive(ws[6])
    ensures WeightedTotal(values, ws)
            == Times(Positive(ws[0]), Clamp01(values[0])) + Times(Positive(ws[1]), Clamp01(values[1]))
               + Times(Positive(ws[2]), Clamp01(values[2])) + Times(Positive(ws[3]), Clamp01(values[3]))
               + Times(Positive(ws[4]), Clamp01(values[4])) + Times(Positive(ws[5]), Clamp01(values[5]))
               + Times(Positive(ws[6]), Clamp01(values[6]))
  {
    hide Times, Positive, Clamp01;
    TotalsStep(values, ws, 1);
    TotalsStep(values, ws, 2);
    TotalsStep(values, ws, 3);
    TotalsStep(values, ws, 4);
    TotalsStep(values, ws, 5);
    TotalsStep(values, ws, 6);
    TotalsStep(values, ws, 7);
    assert ws[..7] == ws && values[..7] == values && ws[..0] == [] && values[..0] == [];
  }

  /** For all weights, zero and negative ones among them, the average is in [0,1] and within any bounds on what it averages. */
  lemma AverageIsBetween(values: seq<real>, weights: seq<real>, lo: real, hi: real)
    ensures 0.0 <= Average(values, weights) <= 1.0
    ensures |values| != |weights| || (forall w | w in weights :: w <= 0.0) ==> Average(values, weights) == 0.0
    ensures |values| == |weights| && (exists w | w in weights :: w > 0.0) && Bounds(values, weights, lo, hi) ==>
              lo <= Average(values, weights) <= hi
  {
    hide Times, TotalWeight, WeightedTotal;
    NoWeight(weights);
    if |values| == |weights| && TotalWeight(weights) > 0.0 {
      AverageBounds(values, weights, 0.0, 1.0);
      if Bounds(values, weights, lo, hi) {
        AverageBounds(values, weights, lo, hi);
      }
    }
  }

  lemma {:induction false} WeightedTotalGrows(low: seq<real>, high: seq<real>, weights: seq<real>)
    requires |low| == |high| == |weights|
    requires forall i | 0 <= i < |weights| && weights[i] > 0.0 :: Clamp01(low[i]) <= Clamp01(high[i])
    ensures WeightedTotal(low, weights) <= WeightedTotal(high, weights)
    decreases |weights|
  {
    hide Times, Clamp01;
    if weights != [] {
      var n := |weights| - 1;
      WeightedTotalGrows(low[..n], high[..n], weights[..n]);
      TimesRules(Positive(weights[n]), Clamp01(low[n]), Clamp01(high[n]));
      TimesRules(Clamp01(low[n]), Positive(weights[n]), 0.0);
      TimesRules(Clamp01(high[n]), Positive(weights[n]), 0.0);
    }
  }

  /** For all weights, negative ones too: no value that counts can rise and the average fall. */
  lemma AverageGrows(low: seq<real>, high: seq<real>, weights: seq<real>)
    requires |low| == |high| == |weights|
    requires forall i | 0 <= i < |weights| && weights[i] > 0.0 :: Clamp01(low[i]) <= Clamp01(high[i])
    ensures Average(low, weights) <= Average(high, weights)
  {
    hide Times, TotalWeight, WeightedTotal, Clamp01;
    WeightedTotalGrows(low, high, weights);
    if TotalWeight(weights) > 0.0 {
      QuotientGrows(WeightedTotal(low, weights), WeightedTotal(high, weights), TotalWeight(weights));
    }
  }

  lemma QuotientGrows(a: real, b: real, y: real)
    requires a <= b && y > 0.0
    ensures a / y <= b / y
  {
    var p, q := a / y, b / y;
    assert p * y == a && q * y == b;
    assert (p - q) * y <= 0.0;
    NotAbove(p - q, y);
  }

  lemma QuotientOrder(a: real, b: real, y: real)
    requires y > 0.0
    ensures a / y < b / y <==> a < b
    ensures a / y == 0.0 <==> a == 0.0
  {
    if a <= b {
      QuotientGrows(a, b, y);
    }
    if b <= a {
      QuotientGrows(b, a, y);
    }
    var p, q := a / y, b / y;
    assert p * y == a && q * y == b;
    assert p == q ==> a == b;
    assert p == 0.0 ==> a == 0.0;
    if a == 0.0 {
      assert (-p) * y == -(p * y);
      NotAbove(p, y);
      NotAbove(-p, y);
    }
  }

  lemma NothingTimes(b: real)
    ensures Times(0.0, b) == 0.0
  {
  }

  lemma PositiveTimes(a: real, b: real)
    requires a > 0.0 && b > 0.0
    ensures Times(a, b) > 0.0
  {
  }

  lemma TimesOrder(a: real, b: real, c: real)
    requires a >= 0.0
    ensures Times(a, b) < Times(a, c) <==> a > 0.0 && b < c
  {
    hide Times;
    TimesRules(a, b, c);
    TimesRules(a, c, b);
    if a == 0.0 {
      NothingTimes(b);
      NothingTimes(c);
    } else if b < c {
      TimesRules(a, b, c - b);
      PositiveTimes(a, c - b);
      assert b + (c - b) == c;
    }
  }

  // ----- when an average is lower, and when it is nothing

  lemma {:induction false} WeightedTotalDiffers(low: seq<real>, high: seq<real>, weights: seq<real>, k: nat)
    requires |low| == |high| == |weights| && k < |weights| && forall i | 0 <= i < |weights| && i != k :: low[i] == high[i]
    ensures WeightedTotal(low, weights) - WeightedTotal(high, weights)
            == Times(Positive(weights[k]), Clamp01(low[k])) - Times(Positive(weights[k]), Clamp01(high[k]))
    decreases |weights|
  {
    hide Times, Clamp01, Positive;
    var n := |weights| - 1;
    if k < n {
      WeightedTotalDiffers(low[..n], high[..n], weights[..n], k);
    } else {
      assert low[..n] == high[..n];
    }
  }

  /** Where one value differs, the average is lower if and only if that value counts and is lower. */
  lemma AverageLowerIff(low: seq<real>, high: seq<real>, weights: seq<real>, k: nat)
    requires |low| == |high| == |weights| && k < |weights| && forall i | 0 <= i < |weights| && i != k :: low[i] == high[i]
    ensures Average(low, weights) < Average(high, weights) <==> weights[k] > 0.0 && Clamp01(low[k]) < Clamp01(high[k])
  {
    hide Times, TotalWeight, WeightedTotal, Clamp01;
    NoWeight(weights);
    assert weights[k] in weights;
    WeightedTotalDiffers(low, high, weights, k);
    TimesOrder(Positive(weights[k]), Clamp01(low[k]), Clamp01(high[k]));
    if TotalWeight(weights) > 0.0 {
      QuotientOrder(WeightedTotal(low, weights), WeightedTotal(high, weights), TotalWeight(weights));
    }
  }

  lemma {:induction false} WeightedTotalIsZeroIff(values: seq<real>, weights: seq<real>)
    requires |values| == |weights|
    ensures WeightedTotal(values, weights) >= 0.0
    ensures WeightedTotal(values, weights) == 0.0 <==> forall i | 0 <= i < |weights| && weights[i] > 0.0 :: Clamp01(values[i]) == 0.0
    decreases |weights|
  {
    hide Times, Clamp01;
    if weights != [] {
      var n := |weights| - 1;
      WeightedTotalIsZeroIff(values[..n], weights[..n]);
      TimesOrder(Positive(weights[n]), 0.0, Clamp01(values[n]));
      TimesRules(Positive(weights[n]), 0.0, Clamp01(values[n]));
    }
  }

  /** An average is zero if and only if no value that counts is above zero. */
  lemma AverageIsZeroIff(values: seq<real>, weights: seq<real>)
    requires |values| == |weights|
    ensures Average(values, weights) == 0.0 <==> forall i | 0 <= i < |weights| && weights[i] > 0.0 :: Clamp01(values[i]) == 0.0
  {
    hide Times, TotalWeight, WeightedTotal, Clamp01;
    NoWeight(weights);
    WeightedTotalIsZeroIff(values, weights);
    if TotalWeight(weights) > 0.0 {
      QuotientOrder(WeightedTotal(values, weights), 0.0, TotalWeight(weights));
    } else {
      assert forall i | 0 <= i < |weights| :: weights[i] in weights;
    }
  }

  // MinMax of internal/core/scoring.
  function MinMax(v: real, min: real, max: real): (r: real)
    ensures 0.0 <= r <= 1.0
    ensures min < max && min <= v <= max ==> r * (max - min) == v - min
  {
    if max <= min then 0.0
    else if v < min then 0.0
    else if v > max then 1.0
    else
      Divided(0.0, v - min, 1.0, max - min);
      (v - min) / (max - min)
  }

  lemma MinMaxGrows(v: real, w: real, min: real, max: real)
    requires v <= w
    ensures MinMax(v, min, max) <= MinMax(w, min, max)
  {
    if min < max && min <= v && w <= max {
      QuotientGrows(v - min, w - min, max - min);
    }
  }

  lemma MinMaxAtBottom(v: real, min: real, max: real)
    requires v <= min
    ensures MinMax(v, min, max) == 0.0
  {
    if v == min < max {
      QuotientOrder(v - min, 0.0, max - min);
    }
  }

  lemma MinMaxIsZeroIff(v: real, min: real, max: real)
    requires min <= v <= max
    ensures MinMax(v, min, max) == 0.0 <==> v == min
  {
    if min < max {
      QuotientOrder(v - min, 0.0, max - min);
    }
  }

  // rankToNormalized
  function RankToNormalized(rank: int, limit: int): (r: real)
    ensures 0.0 <= r <= 1.0 && (rank <= 0 ==> r == 0.0)
  {
    if rank <= 0 then 0.0
    else if limit <= 1 then 1.0
    else Clamp01(1.0 - (rank - 1) as real / (limit - 1) as real)
  }

  /** It falls evenly from one at the first rank to zero at the last. */
  lemma RankFallsEvenly(rank: int, limit: int)
    requires 1 <= rank <= limit && limit > 1
    ensures RankToNormalized(rank, limit) * (limit - 1) as real == (limit - rank) as real
  {
    Divided(0.0, (rank - 1) as real, 1.0, (limit - 1) as real);
  }
}
