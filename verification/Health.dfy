/** The health score: internal/health/compute.go, and the inputs that internal/health/service.go builds for it. */
module Health {
  import opened Arithmetic
  import opened Ratio
  import opened Apportionment
  import opened ApportionmentLaws
  import opened Split
  import opened Dashboard

  datatype Inputs = Inputs(current: int, fiiValue: int, fixedValue: int, liquid: int, holdings: int, sectorCount: int,
                           largestSector: int, largestClass: int, risk: Risk, hasProfile: bool, selicBps: int,
                           hasMacro: bool)

  datatype Factor = Diversification | Concentration | Liquidity | GoalAlignment | RiskExposure

  datatype FactorScore = FactorScore(factor: Factor, score: int, weight: int)

  datatype HealthScore = HealthScore(score: int, factors: seq<FactorScore>)

  const SELIC_NEUTRAL: int := 1000
  const MAX_TILT: int := 1000

  const ALL_FACTORS: seq<Factor> := [Diversification, Concentration, Liquidity, GoalAlignment, RiskExposure]

  function DefaultWeight(f: Factor): int {
    match f
    case Diversification => 2500
    case Concentration => 2500
    case Liquidity => 1500
    case GoalAlignment => 2000
    case RiskExposure => 1500
  }

  function Clamp(v: int, lo: int, hi: int): int {
    if v < lo then lo else if v > hi then hi else v
  }

  // ---------------------------------------------------------------------------------------------
  // The five factors.

  function DiversificationScore(i: Inputs): int {
    Clamp(Clamp(i.holdings * 12, 0, 60) + Clamp(i.sectorCount * 13, 0, 40), 0, 100)
  }

  function Worst(i: Inputs): int {
    Max(i.largestClass, i.largestSector)
  }

  function ConcentrationScore(i: Inputs): int {
    Clamp(100 - GoDiv(Worst(i), 100), 0, 100)
  }

  function LiquidityScore(i: Inputs): int {
    Clamp(GoDiv(ShareBps(i.liquid, i.current), 100), 0, 100)
  }

  /** The profile's target FII share, before the market moves it. */
  function BaseFiiShare(risk: Risk): int {
    match risk
    case Conservative => 3000
    case Aggressive => 7000
    case _ => 5000
  }

  function TargetFiiShare(risk: Risk, selicBps: int, hasMacro: bool): int {
    var tilt := if hasMacro && selicBps > SELIC_NEUTRAL
                then Clamp(GoDiv(selicBps - SELIC_NEUTRAL, 2), 0, MAX_TILT)
                else 0;
    Max(0, BaseFiiShare(risk) - tilt)
  }

  function CurrentFiiShare(i: Inputs): int {
    ShareBps(i.fiiValue, i.fiiValue + i.fixedValue)
  }

  function GoalScore(i: Inputs): int {
    Clamp(100 - GoDiv(Abs(CurrentFiiShare(i) - TargetFiiShare(i.risk, i.selicBps, i.hasMacro)), 100), 0, 100)
  }

  function RiskScore(i: Inputs): int {
    var overTolerance := Max(0, CurrentFiiShare(i) - BaseFiiShare(i.risk));
    var load := GoDiv(Max(0, Worst(i) - 5000), 2);
    Clamp(100 - GoDiv(overTolerance + load, 100), 0, 100)
  }

  function ScoreOfFactor(i: Inputs, f: Factor): (score: int)
    ensures 0 <= score <= 100
  {
    match f
    case Diversification => DiversificationScore(i)
    case Concentration => ConcentrationScore(i)
    case Liquidity => LiquidityScore(i)
    case GoalAlignment => GoalScore(i)
    case RiskExposure => RiskScore(i)
  }

  // ---------------------------------------------------------------------------------------------
  // The score.

  /** Without a profile the goal and risk factors are left out. */
  function Present(hasProfile: bool): seq<Factor> {
    if hasProfile then ALL_FACTORS else ALL_FACTORS[..3]
  }

  function Weights(factors: seq<Factor>): (w: seq<int>)
    ensures |w| == |factors| && forall k :: 0 <= k < |w| ==> w[k] == DefaultWeight(factors[k])
  {
    seq(|factors|, k requires 0 <= k < |factors| => DefaultWeight(factors[k]))
  }

  function Values(i: Inputs, factors: seq<Factor>): (v: seq<int>)
    ensures |v| == |factors| && forall k :: 0 <= k < |v| ==> v[k] == ScoreOfFactor(i, factors[k])
  {
    seq(|factors|, k requires 0 <= k < |factors| => ScoreOfFactor(i, factors[k]))
  }

  /** What Compute returns. An empty portfolio scores 0 on every factor, with the default weights. */
  function ScoreOf(i: Inputs): (h: HealthScore) {
    if i.current <= 0 then
      HealthScore(0, seq(5, k requires 0 <= k < 5 => FactorScore(ALL_FACTORS[k], 0, DefaultWeight(ALL_FACTORS[k]))))
    else
      var factors := Present(i.hasProfile);
      var values, weights := Values(i, factors), Shares(Weights(factors));
      HealthScore(WeightedMean(values, weights),
                  seq(|factors|, k requires 0 <= k < |factors| => FactorScore(factors[k], values[k], weights[k])))
  }

  lemma WeightsFit(hasProfile: bool)
    ensures Total(Weights(Present(hasProfile))) == if hasProfile then 10000 else 6500
    ensures FitsInt64(Weights(Present(hasProfile)))
  {
    var w := Weights(Present(hasProfile));
    assert w[..1][..0] == [] && w[..2][..1] == w[..1] && w[..3][..2] == w[..2];
    assert Total(w[..1]) == 2500;
    assert Total(w[..2]) == 5000;
    assert Total(w[..3]) == 6500;
    if hasProfile {
      assert w[..4][..3] == w[..3] && w[..5][..4] == w[..4] && w[..5] == w;
      assert Total(w[..4]) == 8500;
    } else {
      assert w[..3] == w;
    }
  }

  method Compute(i: Inputs) returns (h: HealthScore)
    ensures h == ScoreOf(i)
  {
    var factors: seq<FactorScore> := [];
    if i.current <= 0 {
      for k := 0 to |ALL_FACTORS|
        invariant |factors| == k
        invariant forall j :: 0 <= j < k ==> factors[j] == FactorScore(ALL_FACTORS[j], 0, DefaultWeight(ALL_FACTORS[j]))
      {
        factors := factors + [FactorScore(ALL_FACTORS[k], 0, DefaultWeight(ALL_FACTORS[k]))];
      }
      return HealthScore(0, factors);
    }
    factors := [FactorScore(Diversification, DiversificationScore(i), 0),
                FactorScore(Concentration, ConcentrationScore(i), 0),
                FactorScore(Liquidity, LiquidityScore(i), 0)];
    if i.hasProfile {
      factors := factors + [FactorScore(GoalAlignment, GoalScore(i), 0), FactorScore(RiskExposure, RiskScore(i), 0)];
    }
    ghost var present := Present(i.hasProfile);
    assert |factors| == |present| && forall k :: 0 <= k < |factors| ==>
        factors[k] == FactorScore(present[k], ScoreOfFactor(i, present[k]), 0);
    h := Weigh(i, factors);
  }

  /** The second half of Compute: normalise the weights of the factors at hand, and take the weighted mean. */
  method Weigh(ghost i: Inputs, scored: seq<FactorScore>) returns (h: HealthScore)
    requires i.current > 0 && |scored| == |Present(i.hasProfile)|
    requires forall k :: 0 <= k < |scored| ==>
               scored[k] == FactorScore(Present(i.hasProfile)[k], ScoreOfFactor(i, Present(i.hasProfile)[k]), 0)
    ensures h == ScoreOf(i)
  {
    ghost var present := Present(i.hasProfile);
    var factors := scored;
    var n := |factors|;
    var weights: seq<int> := [];
    for k := 0 to n
      invariant |weights| == k && forall j :: 0 <= j < k ==> weights[j] == DefaultWeight(present[j])
    {
      weights := weights + [DefaultWeight(factors[k].factor)];
    }
    assert weights == Weights(present);
    WeightsFit(i.hasProfile);
    var shares := AllocateBps(weights);
    ghost var normalised := shares[..];
    var values: seq<int> := [];
    for k := 0 to n
      invariant |factors| == n && |values| == k && shares[..] == normalised
      invariant forall j :: 0 <= j < k ==>
                  values[j] == ScoreOfFactor(i, present[j])
                      && factors[j] == FactorScore(present[j], values[j], normalised[j])
      invariant forall j :: k <= j < n ==> factors[j] == scored[j]
    {
      values := values + [factors[k].score];
      factors := factors[k := factors[k].(weight := shares[k])];
    }
    assert values == Values(i, present);
    var mean := WeightedMeanBps(values, shares[..]);
    return HealthScore(mean, factors);
  }

  // ---------------------------------------------------------------------------------------------
  // Laws of the score.

  function WeightOf(): FactorScore -> int {
    (f: FactorScore) => f.weight
  }

  lemma {:induction false} SumOfWeights(factors: seq<FactorScore>, weights: seq<int>)
    requires |factors| == |weights| && forall k :: 0 <= k < |factors| ==> factors[k].weight == weights[k]
    ensures SumOf(factors, WeightOf()) == Sum(weights)
  {
    if factors == [] {
    } else {
      SumOfWeights(factors[..|factors| - 1], weights[..|weights| - 1]);
    }
  }

  lemma DefaultsSum()
    ensures Sum(Weights(ALL_FACTORS)) == FULL
  {
    WeightsFit(true);
    TotalOfNonNegative(Weights(ALL_FACTORS));
  }

  /** The weights that are shown always add up to 10000, with and without a profile, and for an empty portfolio. */
  lemma WeightsSum(i: Inputs)
    ensures SumOf(ScoreOf(i).factors, WeightOf()) == FULL
  {
    if i.current <= 0 {
      DefaultsSum();
      SumOfWeights(ScoreOf(i).factors, Weights(ALL_FACTORS));
    } else {
      var w := Weights(Present(i.hasProfile));
      WeightsFit(i.hasProfile);
      SharesExact(w);
      SumOfWeights(ScoreOf(i).factors, Shares(w));
    }
  }

  lemma NormalisedWeights(hasProfile: bool)
    ensures var w := Shares(Weights(Present(hasProfile)));
            Sum(w) == FULL && forall k :: 0 <= k < |w| ==> 0 <= w[k] <= FULL
  {
    var w := Weights(Present(hasProfile));
    WeightsFit(hasProfile);
    SharesExact(w);
    forall k | 0 <= k < |w|
      ensures 0 <= Shares(w)[k] <= FULL
    {
      SharesInRange(w, k);
    }
  }

  /** The score lies between any bounds on its factor scores: between the least and the greatest, and so in 0..100. */
  lemma ScoreBetweenFactors(i: Inputs, lo: int, hi: int)
    requires 0 <= lo && forall k :: 0 <= k < |ScoreOf(i).factors| ==> lo <= ScoreOf(i).factors[k].score <= hi
    ensures lo <= ScoreOf(i).score <= hi
    ensures 0 <= ScoreOf(i).score <= 100
  {
    if i.current <= 0 {
      assert ScoreOf(i).factors[0].score == 0;
    } else {
      var values, weights := Values(i, Present(i.hasProfile)), Shares(Weights(Present(i.hasProfile)));
      NormalisedWeights(i.hasProfile);
      assert forall k :: 0 <= k < |values| ==> values[k] == ScoreOf(i).factors[k].score;
      MeanBetween(values, weights, lo, hi);
      MeanBetween(values, weights, 0, 100);
    }
  }

  /** The nearer the FII share is to its target the better, and best within one percentage point of it. */
  lemma GoalByDistance(a: Inputs, b: Inputs)
    requires Abs(CurrentFiiShare(a) - TargetFiiShare(a.risk, a.selicBps, a.hasMacro))
          <= Abs(CurrentFiiShare(b) - TargetFiiShare(b.risk, b.selicBps, b.hasMacro))
    ensures GoalScore(a) >= GoalScore(b)
    ensures GoalScore(a) == 100 <==> Abs(CurrentFiiShare(a) - TargetFiiShare(a.risk, a.selicBps, a.hasMacro)) < 100
  {
    var x, y := Abs(CurrentFiiShare(a) - TargetFiiShare(a.risk, a.selicBps, a.hasMacro)),
                Abs(CurrentFiiShare(b) - TargetFiiShare(b.risk, b.selicBps, b.hasMacro));
    GoDivMonotone(x, y, 100);
  }

  /** A higher policy rate never raises the target, which stays within ten percentage points of the profile's own. */
  lemma TargetTilts(risk: Risk, selicBps: int, selicBps': int, hasMacro: bool)
    requires selicBps <= selicBps'
    ensures TargetFiiShare(risk, selicBps', hasMacro) <= TargetFiiShare(risk, selicBps, hasMacro) <= BaseFiiShare(risk)
    ensures BaseFiiShare(risk) - MAX_TILT <= TargetFiiShare(risk, selicBps, hasMacro)
    ensures TargetFiiShare(risk, selicBps, hasMacro) == BaseFiiShare(risk)
       <==> !hasMacro || selicBps <= SELIC_NEUTRAL + 1
  {
    GoDivMonotone(selicBps - SELIC_NEUTRAL, selicBps' - SELIC_NEUTRAL, 2);
  }

  // ---------------------------------------------------------------------------------------------
  // The factors in figures.

  /** Twelve points a holding up to 60, and thirteen a sector up to 40. */
  lemma DiversificationInFigures(i: Inputs)
    ensures i.holdings >= 0 && i.sectorCount >= 0 ==>
              ScoreOfFactor(i, Diversification)
                == (if i.holdings >= 5 then 60 else 12 * i.holdings)
                    + if i.sectorCount >= 4 then 40 else 13 * i.sectorCount
  {
  }

  /** A point is lost for every whole percent of the largest share of a class or a sector. */
  lemma ConcentrationInFigures(i: Inputs)
    requires 0 <= i.largestClass <= 10000 && 0 <= i.largestSector <= 10000
    ensures var lost := 100 - ScoreOfFactor(i, Concentration);
            && i.largestClass < 100 * (lost + 1) && i.largestSector < 100 * (lost + 1)
            && (i.largestClass >= 100 * lost || i.largestSector >= 100 * lost)
  {
    DivBounds(Worst(i), 100);
  }

  /** The liquid share of the current value in whole percent. */
  lemma LiquidityInFigures(i: Inputs) returns (share: int)
    requires i.current > 0 && i.liquid >= 0
    ensures Nearest(share, i.liquid * 10000, i.current)
    ensures var score := ScoreOfFactor(i, Liquidity);
            if share >= 10000 then score == 100 else 100 * score <= share < 100 * score + 100
  {
    share := ShareBps(i.liquid, i.current);
    DivBounds(share, 100);
  }

  /** The FII share of the two classes: 0 when they are worth nothing. */
  ghost predicate IsFiiShare(share: int, i: Inputs) {
    if i.fiiValue + i.fixedValue == 0 then share == 0
    else Nearest(share, i.fiiValue * 10000, i.fiiValue + i.fixedValue)
  }

  lemma FiiShareInRange(i: Inputs)
    requires i.fiiValue >= 0 && i.fixedValue >= 0
    ensures 0 <= CurrentFiiShare(i) <= 10000
  {
    var total := i.fiiValue + i.fixedValue;
    ShareMonotone(i.fiiValue, total, total);
    if total > 0 {
      ShareUnique(total, total, FULL);
    }
  }

  /**
   A point is lost for every whole percent between the FII share and its target: 30%, 50% or 70% by profile, less
   half of what a known rate is above 10%, down by at most ten percentage points.
   */
  lemma GoalInFigures(i: Inputs) returns (share: int, target: int)
    requires i.fiiValue >= 0 && i.fixedValue >= 0
    ensures IsFiiShare(share, i)
    ensures var base := if i.risk == Conservative then 3000 else if i.risk == Aggressive then 7000 else 5000;
            if !i.hasMacro || i.selicBps <= 1000 then target == base
            else if i.selicBps >= 3000 then target == base - 1000
            else 2 * (base - target) <= i.selicBps - 1000 < 2 * (base - target) + 2
    ensures var lost := 100 - ScoreOfFactor(i, GoalAlignment);
            100 * lost <= Abs(share - target) < 100 * lost + 100
  {
    share, target := CurrentFiiShare(i), TargetFiiShare(i.risk, i.selicBps, i.hasMacro);
    FiiShareInRange(i);
    DivBounds(i.selicBps - 1000, 2);
    DivBounds(Abs(share - target), 100);
  }

  /**
   A point is lost for every whole percent of excess: what the FII share is above the profile's 30%, 50% or 70%,
   and half of what the largest share of a class or a sector is above 50%.
   */
  lemma RiskInFigures(i: Inputs) returns (share: int, over: int, load: int)
    requires i.fiiValue >= 0 && i.fixedValue >= 0
    ensures IsFiiShare(share, i)
    ensures var base := if i.risk == Conservative then 3000 else if i.risk == Aggressive then 7000 else 5000;
            over == if share <= base then 0 else share - base
    ensures load >= 0 && i.largestClass - 5000 < 2 * load + 2 && i.largestSector - 5000 < 2 * load + 2
    ensures load == 0 || i.largestClass - 5000 >= 2 * load || i.largestSector - 5000 >= 2 * load
    ensures var lost := 100 - ScoreOfFactor(i, RiskExposure);
            if over + load >= 10000 then lost == 100 else 100 * lost <= over + load < 100 * lost + 100
  {
    share := CurrentFiiShare(i);
    over, load := Max(0, share - BaseFiiShare(i.risk)), GoDiv(Max(0, Worst(i) - 5000), 2);
    DivBounds(Max(0, Worst(i) - 5000), 2);
    DivBounds(over + load, 100);
  }

  // ---------------------------------------------------------------------------------------------
  // The score in figures.

  /** With a profile the default weights are shown as they are. */
  lemma ProfileWeights()
    ensures Shares(Weights(Present(true))) == [2500, 2500, 1500, 2000, 1500]
  {
    var w := Weights(Present(true));
    WeightsFit(true);
    forall k | 0 <= k < 5
      ensures Shares(w)[k] == w[k]
    {
      SharesWithinQuota(w, k);
    }
    assert Shares(w) == [w[0], w[1], w[2], w[3], w[4]];
  }

  /** Of these three weights the last has the largest remainder. */
  lemma LastRemainder(w: seq<int>)
    requires |w| == 3 && w[0] == 2500 == w[1] && w[2] == 1500 && Total(w) == 6500
    ensures Wins(w, 0) || Wins(w, 1) ==> Wins(w, 2)
    ensures Base(w[0], 6500) == 3846 == Base(w[1], 6500) && Base(w[2], 6500) == 2307
  {
    assert Remainder(2500, 6500) == 1000 && Remainder(1500, 6500) == 4500;
    WinnersFirst(w, 2, 0);
    WinnersFirst(w, 2, 1);
  }

  lemma SharesOfThree(w: seq<int>)
    requires |w| == 3 && w[0] == 2500 == w[1] && w[2] == 1500 && Total(w) == 6500
    ensures Shares(w) == [3846, 3846, 2308]
  {
    LastRemainder(w);
    SharesExact(w);
    SumOfThree(Shares(w));
    ShareOf(w, 0);
    ShareOf(w, 1);
    ShareOf(w, 2);
  }

  /** Without one the three that are left are scaled up; the odd basis point goes to liquidity. */
  lemma OtherWeights()
    ensures Shares(Weights(Present(false))) == [3846, 3846, 2308]
  {
    WeightsFit(false);
    SharesOfThree(Weights(Present(false)));
  }

  lemma SumOfThree(s: seq<int>)
    requires |s| == 3
    ensures Sum(s) == s[0] + s[1] + s[2]
  {
    assert s[..2][..1] == s[..1] && s[..1][..0] == [];
    assert Sum(s[..1]) == s[0];
    assert Sum(s[..2]) == s[0] + s[1];
  }

  lemma FactorsOf(i: Inputs)
    requires i.current > 0
    ensures var (factors, present) := (ScoreOf(i).factors, Present(i.hasProfile));
            && |factors| == |present|
            && forall k :: 0 <= k < |present| ==>
                 factors[k] == FactorScore(present[k], ScoreOfFactor(i, present[k]), Shares(Weights(present))[k])
  {
  }

  /** The factors that are shown, in order and with their weights: all five, three without a profile. */
  lemma FactorsShown(i: Inputs)
    ensures i.current <= 0 ==>
              ScoreOf(i).factors
                == [FactorScore(Diversification, 0, 2500), FactorScore(Concentration, 0, 2500),
                    FactorScore(Liquidity, 0, 1500), FactorScore(GoalAlignment, 0, 2000),
                    FactorScore(RiskExposure, 0, 1500)]
    ensures i.current > 0 && i.hasProfile ==>
              ScoreOf(i).factors
                == [FactorScore(Diversification, ScoreOfFactor(i, Diversification), 2500),
                    FactorScore(Concentration, ScoreOfFactor(i, Concentration), 2500),
                    FactorScore(Liquidity, ScoreOfFactor(i, Liquidity), 1500),
                    FactorScore(GoalAlignment, ScoreOfFactor(i, GoalAlignment), 2000),
                    FactorScore(RiskExposure, ScoreOfFactor(i, RiskExposure), 1500)]
    ensures i.current > 0 && !i.hasProfile ==>
              ScoreOf(i).factors
                == [FactorScore(Diversification, ScoreOfFactor(i, Diversification), 3846),
                    FactorScore(Concentration, ScoreOfFactor(i, Concentration), 3846),
                    FactorScore(Liquidity, ScoreOfFactor(i, Liquidity), 2308)]
  {
    if i.current > 0 {
      FactorsOf(i);
      if i.hasProfile {
        ProfileWeights();
      } else {
        OtherWeights();
      }
    }
  }

  lemma DotOfThree(v: seq<int>, w: seq<int>)
    requires |v| == |w| == 3
    ensures Dot(v, w) == v[0] * w[0] + v[1] * w[1] + v[2] * w[2]
  {
    assert v[..2][..1] == v[..1] && v[..1][..0] == [] && w[..2][..1] == w[..1] && w[..1][..0] == [];
    assert Dot(v[..1], w[..1]) == v[0] * w[0];
    assert Dot(v[..2], w[..2]) == v[0] * w[0] + v[1] * w[1];
  }

  lemma DotOfFive(v: seq<int>, w: seq<int>)
    requires |v| == |w| == 5
    ensures Dot(v, w) == v[0] * w[0] + v[1] * w[1] + v[2] * w[2] + v[3] * w[3] + v[4] * w[4]
  {
    DotOfThree(v[..3], w[..3]);
    assert v[..4][..3] == v[..3] && w[..4][..3] == w[..3];
    assert Dot(v[..4], w[..4]) == Dot(v[..3], w[..3]) + v[3] * w[3];
  }

  lemma MeanOfThree(v: seq<int>, w: seq<int>)
    requires |v| == |w| == 3 && w[0] == 3846 == w[1] && w[2] == 2308 && v[0] >= 0 && v[1] >= 0 && v[2] >= 0
    ensures Nearest(WeightedMean(v, w), 3846 * v[0] + 3846 * v[1] + 2308 * v[2], 10000)
  {
    DotOfThree(v, w);
    MeanOfPairs(v, w, []);
  }

  lemma MeanOfFive(v: seq<int>, w: seq<int>)
    requires |v| == |w| == 5 && w[0] == 2500 == w[1] && w[2] == 1500 == w[4] && w[3] == 2000
    requires forall k :: 0 <= k < 5 ==> v[k] >= 0
    ensures Nearest(WeightedMean(v, w), 2500 * v[0] + 2500 * v[1] + 1500 * v[2] + 2000 * v[3] + 1500 * v[4], 10000)
  {
    DotOfFive(v, w);
    MeanOfPairs(v, w, []);
  }

  /** The score is the weighted mean of the factors that are shown, to the nearest point, halves up. */
  lemma ScoreInFigures(i: Inputs)
    ensures i.current <= 0 ==> ScoreOf(i).score == 0
    ensures i.current > 0 && i.hasProfile ==>
              Nearest(ScoreOf(i).score,
                      2500 * ScoreOfFactor(i, Diversification) + 2500 * ScoreOfFactor(i, Concentration)
                      + 1500 * ScoreOfFactor(i, Liquidity) + 2000 * ScoreOfFactor(i, GoalAlignment)
                      + 1500 * ScoreOfFactor(i, RiskExposure), 10000)
    ensures i.current > 0 && !i.hasProfile ==>
              Nearest(ScoreOf(i).score,
                      3846 * ScoreOfFactor(i, Diversification) + 3846 * ScoreOfFactor(i, Concentration)
                      + 2308 * ScoreOfFactor(i, Liquidity), 10000)
  {
    var values := Values(i, Present(i.hasProfile));
    if i.hasProfile {
      ProfileWeights();
      MeanOfFive(values, [2500, 2500, 1500, 2000, 1500]);
    } else {
      OtherWeights();
      MeanOfThree(values, [3846, 3846, 2308]);
    }
  }

  /**
   At least as many holdings and sectors, at least as much liquid value, no larger concentration, and all else
   equal.
   */
  predicate NoWorse(a: Inputs, b: Inputs) {
    && b == a.(holdings := b.holdings, sectorCount := b.sectorCount, liquid := b.liquid,
               largestClass := b.largestClass, largestSector := b.largestSector)
    && a.holdings <= b.holdings && a.sectorCount <= b.sectorCount && a.liquid <= b.liquid
    && a.largestClass >= b.largestClass && a.largestSector >= b.largestSector
  }

  lemma FactorMonotone(a: Inputs, b: Inputs, f: Factor)
    requires NoWorse(a, b)
    ensures ScoreOfFactor(a, f) <= ScoreOfFactor(b, f)
  {
    match f
    case Diversification =>
    case Concentration =>
      GoDivMonotone(Worst(b), Worst(a), 100);
    case Liquidity =>
      ShareMonotone(a.liquid, b.liquid, a.current);
      GoDivMonotone(ShareBps(a.liquid, a.current), ShareBps(b.liquid, a.current), 100);
    case GoalAlignment =>
    case RiskExposure =>
      var over := Max(0, CurrentFiiShare(a) - BaseFiiShare(a.risk));
      var (x, y) := (Max(0, Worst(a) - 5000), Max(0, Worst(b) - 5000));
      GoDivMonotone(y, x, 2);
      GoDivMonotone(over + GoDiv(y, 2), over + GoDiv(x, 2), 100);
  }

  /** Such inputs never score less. */
  lemma ScoreMonotone(a: Inputs, b: Inputs)
    requires NoWorse(a, b)
    ensures ScoreOf(a).score <= ScoreOf(b).score
  {
    if a.current > 0 {
      var factors := Present(a.hasProfile);
      NormalisedWeights(a.hasProfile);
      forall k | 0 <= k < |factors|
        ensures Values(a, factors)[k] <= Values(b, factors)[k]
      {
        FactorMonotone(a, b, factors[k]);
      }
      MeanMonotone(Values(a, factors), Values(b, factors), Shares(Weights(factors)));
    }
  }

  // ---------------------------------------------------------------------------------------------
  // The inputs as the service builds them.

  function LastValue(slices: seq<ClassSlice>, c: AssetClass): int {
    if slices == [] then 0
    else if slices[|slices| - 1].assetClass == c then slices[|slices| - 1].value
    else LastValue(slices[..|slices| - 1], c)
  }

  function LargestClassShare(slices: seq<ClassSlice>): int {
    if slices == [] then 0 else Max(LargestClassShare(slices[..|slices| - 1]), slices[|slices| - 1].share)
  }

  function LargestSectorShare(slices: seq<SectorSlice>): int {
    if slices == [] then 0 else Max(LargestSectorShare(slices[..|slices| - 1]), slices[|slices| - 1].share)
  }

  /** dashboardInputs: the facts that come from the dashboard alone. */
  function FromDashboard(d: Dashboard): Inputs {
    Inputs(d.summary.current, LastValue(d.allocation, Fii), LastValue(d.allocation, FixedIncome), 0, 0, |d.sectors|,
           LargestSectorShare(d.sectors), LargestClassShare(d.allocation), Unset, false, 0, false)
  }

  method DashboardInputs(d: Dashboard) returns (i: Inputs)
    ensures i == FromDashboard(d)
  {
    i := Inputs(d.summary.current, 0, 0, 0, 0, 0, 0, 0, Unset, false, 0, false);
    for k := 0 to |d.allocation|
      invariant i == Inputs(d.summary.current, LastValue(d.allocation[..k], Fii),
                            LastValue(d.allocation[..k], FixedIncome), 0, 0, 0, 0,
                            LargestClassShare(d.allocation[..k]), Unset, false, 0, false)
    {
      assert d.allocation[..k + 1][..k] == d.allocation[..k];
      var c := d.allocation[k];
      match c.assetClass {
        case Fii => i := i.(fiiValue := c.value);
        case FixedIncome => i := i.(fixedValue := c.value);
        case _ =>
      }
      if c.share > i.largestClass {
        i := i.(largestClass := c.share);
      }
    }
    assert d.allocation[..|d.allocation|] == d.allocation;
    i := i.(sectorCount := |d.sectors|);
    for k := 0 to |d.sectors|
      invariant i == FromDashboard(d).(largestSector := LargestSectorShare(d.sectors[..k]))
    {
      assert d.sectors[..k + 1][..k] == d.sectors[..k];
      if d.sectors[k].share > i.largestSector {
        i := i.(largestSector := d.sectors[k].share);
      }
    }
    assert d.sectors[..|d.sectors|] == d.sectors;
  }

  function DailyCost(): FixedIncomeHolding -> int {
    (h: FixedIncomeHolding) => if h.daily then h.invested else 0
  }

  /** All FIIs, and the daily-liquidity part of the fixed income by invested amount. */
  function LiquidOf(fiiValue: int, fixedValue: int, fixed: seq<FixedIncomeHolding>): int {
    var total := SumOf(fixed, FixedCost());
    fiiValue + if total > 0 then ApplyBps(fixedValue, ShareBps(SumOf(fixed, DailyCost()), total)) else 0
  }

  method LiquidValue(fiiValue: int, fixedValue: int, fixed: seq<FixedIncomeHolding>) returns (liquid: int)
    ensures liquid == LiquidOf(fiiValue, fixedValue, fixed)
  {
    var totalInvested, dailyInvested := 0, 0;
    for k := 0 to |fixed|
      invariant totalInvested == SumOf(fixed[..k], FixedCost())
      invariant dailyInvested == SumOf(fixed[..k], DailyCost())
    {
      SumOfSnoc(fixed, FixedCost(), k);
      SumOfSnoc(fixed, DailyCost(), k);
      totalInvested := totalInvested + fixed[k].invested;
      if fixed[k].daily {
        dailyInvested := dailyInvested + fixed[k].invested;
      }
    }
    assert fixed[..|fixed|] == fixed;
    var liquidFixed := 0;
    if totalInvested > 0 {
      liquidFixed := ApplyBps(fixedValue, ShareBps(dailyInvested, totalInvested));
    }
    return fiiValue + liquidFixed;
  }

  /** buildInputs over one portfolio; the profile and the macro reading are None when they are absent. */
  function Built(h: Holdings, quotes: Quotes, now: int, risk: Risk, hasProfile: bool, selicBps: int,
      hasMacro: bool): Inputs {
    var i := FromDashboard(DashboardOf(h, quotes, now));
    i.(holdings := |h.fii| + |h.fixedIncome|, liquid := LiquidOf(i.fiiValue, i.fixedValue, h.fixedIncome),
       risk := risk, hasProfile := hasProfile, selicBps := selicBps, hasMacro := hasMacro)
  }

  lemma AllocationInputs(fii: int, fixedIncome: int, total: int)
    ensures var a := AllocationOf(fii, fixedIncome, total);
            && LastValue(a, Fii) == fii && LastValue(a, FixedIncome) == fixedIncome
            && LargestClassShare(a) == Max(0, Max(ShareBps(fii, total), ShareBps(fixedIncome, total)))
  {
    var a := AllocationOf(fii, fixedIncome, total);
    assert a[..3][..2] == a[..2] && a[..2][..1] == a[..1] && a[..1][..0] == [];
    assert LastValue(a[..3], Fii) == LastValue(a[..2], Fii) == LastValue(a[..1], Fii) == fii;
    assert LastValue(a[..3], FixedIncome) == LastValue(a[..2], FixedIncome) == fixedIncome;
    assert LargestClassShare(a[..1]) == Max(0, ShareBps(fii, total));
    assert LargestClassShare(a[..2]) == Max(LargestClassShare(a[..1]), ShareBps(fixedIncome, total));
    assert LargestClassShare(a[..3]) == Max(LargestClassShare(a[..2]), 0);
  }

  lemma {:induction false} DailyWithinTotal(fixed: seq<FixedIncomeHolding>)
    requires forall k :: 0 <= k < |fixed| ==> fixed[k].invested >= 0
    ensures 0 <= SumOf(fixed, DailyCost()) <= SumOf(fixed, FixedCost())
  {
    if fixed == [] {
    } else {
      DailyWithinTotal(fixed[..|fixed| - 1]);
    }
  }

  lemma LiquidBounds(fii: int, fixedValue: int, fixed: seq<FixedIncomeHolding>)
    requires fii >= 0 && fixedValue >= 0 && forall k :: 0 <= k < |fixed| ==> fixed[k].invested >= 0
    ensures 0 <= LiquidOf(fii, fixedValue, fixed) <= fii + fixedValue
  {
    DailyWithinTotal(fixed);
    PartWithinWhole(fixedValue, SumOf(fixed, DailyCost()), SumOf(fixed, FixedCost()));
  }

  lemma BuiltFigures(h: Holdings, quotes: Quotes, now: int, risk: Risk, hasProfile: bool, selicBps: int, hasMacro: bool)
    ensures var i := Built(h, quotes, now, risk, hasProfile, selicBps, hasMacro);
            && i.fiiValue == FiiTotal(h, quotes) && i.fixedValue == FixedTotal(h, now)
            && i.current == i.fiiValue + i.fixedValue && i.liquid == LiquidOf(i.fiiValue, i.fixedValue, h.fixedIncome)
  {
    AllocationInputs(FiiTotal(h, quotes), FixedTotal(h, now), FiiTotal(h, quotes) + FixedTotal(h, now));
  }

  /** The largest class share is one of the shares, or 0, and none is larger. */
  lemma {:induction false} LargestClass(slices: seq<ClassSlice>)
    ensures LargestClassShare(slices) >= 0
    ensures forall k :: 0 <= k < |slices| ==> slices[k].share <= LargestClassShare(slices)
    ensures || LargestClassShare(slices) == 0
            || exists k :: 0 <= k < |slices| && slices[k].share == LargestClassShare(slices)
  {
    if slices == [] {
    } else {
      var n := |slices| - 1;
      LargestClass(slices[..n]);
      assert forall k :: 0 <= k < n ==> slices[..n][k] == slices[k];
    }
  }

  lemma {:induction false} LargestSector(slices: seq<SectorSlice>)
    ensures LargestSectorShare(slices) >= 0
    ensures forall k :: 0 <= k < |slices| ==> slices[k].share <= LargestSectorShare(slices)
    ensures || LargestSectorShare(slices) == 0
            || exists k :: 0 <= k < |slices| && slices[k].share == LargestSectorShare(slices)
  {
    if slices == [] {
    } else {
      var n := |slices| - 1;
      LargestSector(slices[..n]);
      assert forall k :: 0 <= k < n ==> slices[..n][k] == slices[k];
    }
  }

  /** The inputs are the dashboard's own figures, its largest shares, and the number of positions and sectors. */
  lemma BuiltInFigures(h: Holdings, quotes: Quotes, now: int, risk: Risk, hasProfile: bool, selicBps: int,
      hasMacro: bool)
    ensures var (i, d) := (Built(h, quotes, now, risk, hasProfile, selicBps, hasMacro), DashboardOf(h, quotes, now));
            && i.current == d.summary.current && i.fiiValue == d.allocation[0].value
            && i.fixedValue == d.allocation[1].value
            && i.holdings == |h.fii| + |h.fixedIncome| && i.sectorCount == |d.sectors|
            && i.risk == risk && i.hasProfile == hasProfile && i.selicBps == selicBps && i.hasMacro == hasMacro
            && i.largestClass >= 0 && (forall k :: 0 <= k < |d.allocation| ==> d.allocation[k].share <= i.largestClass)
            && (i.largestClass == 0
                || exists k :: 0 <= k < |d.allocation| && d.allocation[k].share == i.largestClass)
            && i.largestSector >= 0 && (forall k :: 0 <= k < |d.sectors| ==> d.sectors[k].share <= i.largestSector)
            && (i.largestSector == 0 || exists k :: 0 <= k < |d.sectors| && d.sectors[k].share == i.largestSector)
  {
    BuiltFigures(h, quotes, now, risk, hasProfile, selicBps, hasMacro);
    LargestClass(DashboardOf(h, quotes, now).allocation);
    LargestSector(DashboardOf(h, quotes, now).sectors);
  }

  lemma {:induction false} DailyOfOneKind(fixed: seq<FixedIncomeHolding>, daily: bool)
    requires forall k :: 0 <= k < |fixed| ==> fixed[k].daily == daily
    ensures SumOf(fixed, DailyCost()) == if daily then SumOf(fixed, FixedCost()) else 0
  {
    if fixed == [] {
    } else {
      DailyOfOneKind(fixed[..|fixed| - 1], daily);
    }
  }

  /**
   Liquid are all FIIs, and of the fixed income the share that the holdings with daily liquidity have of the amount
   invested, however these and the others are mixed.
   */
  lemma LiquidInFigures(fiiValue: int, fixedValue: int, fixed: seq<FixedIncomeHolding>, daily: seq<FixedIncomeHolding>,
      locked: seq<FixedIncomeHolding>)
    returns (share: int, part: int)
    requires multiset(fixed) == multiset(daily + locked)
    requires forall k :: 0 <= k < |daily| ==> daily[k].daily && daily[k].invested >= 0
    requires forall k :: 0 <= k < |locked| ==> !locked[k].daily && locked[k].invested >= 0
    ensures var a, b := SumOf(daily, FixedCost()), SumOf(locked, FixedCost());
            if a + b == 0 then share == 0 else Nearest(share, a * 10000, a + b)
    ensures if fixedValue <= 0 || share == 0 then part == 0 else Nearest(part, fixedValue * share, 10000)
    ensures LiquidOf(fiiValue, fixedValue, fixed) == fiiValue + part
  {
    SumOfNonNegative(daily, FixedCost());
    SumOfNonNegative(locked, FixedCost());
    SumOfPermutation(fixed, daily + locked, FixedCost());
    SumOfPermutation(fixed, daily + locked, DailyCost());
    SumOfConcat(daily, locked, FixedCost());
    SumOfConcat(daily, locked, DailyCost());
    DailyOfOneKind(daily, true);
    DailyOfOneKind(locked, false);
    share := ShareBps(SumOf(daily, FixedCost()), SumOf(fixed, FixedCost()));
    part := ApplyBps(fixedValue, share);
  }

  /** For a real portfolio the liquid value never exceeds the current value. */
  lemma LiquidWithinCurrent(h: Holdings, quotes: Quotes, now: int, risk: Risk, hasProfile: bool, selicBps: int,
                            hasMacro: bool)
    requires Sound(h, quotes)
    ensures var i := Built(h, quotes, now, risk, hasProfile, selicBps, hasMacro);
            0 <= i.liquid <= i.current && i.current == i.fiiValue + i.fixedValue
  {
    BuiltFigures(h, quotes, now, risk, hasProfile, selicBps, hasMacro);
    SoundTotals(h, quotes, now);
    LiquidBounds(FiiTotal(h, quotes), FixedTotal(h, now), h.fixedIncome);
  }

  lemma PartWithinWhole(value: int, part: int, whole: int)
    requires value >= 0 && part <= whole
    ensures 0 <= ApplyBps(value, ShareBps(part, whole)) <= value
  {
    if whole > 0 {
      ShareMonotone(part, whole, whole);
      ShareUnique(whole, whole, FULL);
    }
    ApplyMonotone(value, value, ShareBps(part, whole), FULL);
    ApplyFull(value);
  }

  /** One of the two classes holds at least half, so the concentration factor of a real portfolio never exceeds 50. */
  lemma ConcentrationAtMostHalf(h: Holdings, quotes: Quotes, now: int, risk: Risk, hasProfile: bool, selicBps: int,
      hasMacro: bool)
    requires Sound(h, quotes) && SummaryOf(h, quotes, now).current > 0
    ensures ConcentrationScore(Built(h, quotes, now, risk, hasProfile, selicBps, hasMacro)) <= 50
  {
    var fii, fixedIncome := FiiTotal(h, quotes), FixedTotal(h, now);
    SoundTotals(h, quotes, now);
    AllocationInputs(fii, fixedIncome, fii + fixedIncome);
    TwoShares(fii, fixedIncome);
    var i := Built(h, quotes, now, risk, hasProfile, selicBps, hasMacro);
    assert Worst(i) >= 5000;
    GoDivMonotone(5000, Worst(i), 100);
    assert GoDiv(5000, 100) == 50;
  }

  /** The weighted sum when one factor is capped at 50 and the others at 100. */
  lemma CappedDot(values: seq<int>, weights: seq<int>)
    requires |values| == |weights| && (|values| == 3 || |values| == 5)
    requires forall k :: 0 <= k < |values| ==> 0 <= values[k] <= 100 && 0 <= weights[k]
    requires values[1] <= 50
    ensures Dot(values, weights) <= 100 * Sum(weights) - 50 * weights[1]
  {
    DotBetween(values[..1], weights[..1], 0, 100);
    assert values[..2][..1] == values[..1] && weights[..2][..1] == weights[..1];
    ScaleBetween(0, values[1], 50, weights[1], 0);
    CappedRest(values, weights, 2);
  }

  lemma {:induction false} CappedRest(values: seq<int>, weights: seq<int>, m: nat)
    requires 2 <= m <= |values| == |weights|
    requires forall k :: 0 <= k < |values| ==> 0 <= values[k] <= 100 && 0 <= weights[k]
    requires Dot(values[..m], weights[..m]) <= 100 * Sum(weights[..m]) - 50 * weights[1]
    ensures Dot(values, weights) <= 100 * Sum(weights) - 50 * weights[1]
    decreases |values| - m
  {
    if m < |values| {
      assert values[..m + 1][..m] == values[..m] && weights[..m + 1][..m] == weights[..m];
      ScaleBetween(0, values[m], 100, weights[m], 0);
      CappedRest(values, weights, m + 1);
    } else {
      assert values[..m] == values && weights[..m] == weights;
    }
  }

  lemma ConcentrationWeight(hasProfile: bool)
    ensures var w := Shares(Weights(Present(hasProfile)))[1];
            if hasProfile then w == 2500 else 3846 <= w <= 3847
  {
    WeightsFit(hasProfile);
    SharesWithinQuota(Weights(Present(hasProfile)), 1);
  }

  lemma CappedMean(values: seq<int>, weights: seq<int>, cap: int)
    requires |values| == |weights| && Sum(weights) == FULL && Dot(values, weights) <= 100 * FULL - 50 * cap
    ensures WeightedMean(values, weights)
              <= (2 * (100 * FULL - 50 * cap) + FULL) / (2 * FULL) || WeightedMean(values, weights) == 0
  {
    assert values[..|values|] == values && weights[..|weights|] == weights;
  }

  /** So no portfolio scores above 88, or above 81 when there is no profile. */
  lemma NoPerfectScore(h: Holdings, quotes: Quotes, now: int, risk: Risk, hasProfile: bool, selicBps: int,
      hasMacro: bool)
    requires Sound(h, quotes)
    ensures ScoreOf(Built(h, quotes, now, risk, hasProfile, selicBps, hasMacro)).score <= if hasProfile then 88 else 81
  {
    var i := Built(h, quotes, now, risk, hasProfile, selicBps, hasMacro);
    if i.current > 0 {
      var values, weights := Values(i, Present(hasProfile)), Shares(Weights(Present(hasProfile)));
      ConcentrationAtMostHalf(h, quotes, now, risk, hasProfile, selicBps, hasMacro);
      NormalisedWeights(hasProfile);
      CappedDot(values, weights);
      ConcentrationWeight(hasProfile);
      CappedMean(values, weights, if hasProfile then 2500 else 3846);
    }
  }

  // ---------------------------------------------------------------------------------------------
  // A portfolio that reaches both bounds: four FIIs in four sectors, and as much in one daily fixed income.

  function OneShare(ticker: string): FiiHolding {
    FiiHolding(ticker, 1, 100)
  }

  const BEST: Holdings := Holdings([OneShare("A"), OneShare("B"), OneShare("C"), OneShare("D")],
                                   [FixedIncomeHolding(400, 0, 0, true)])

  const BEST_QUOTES: Quotes := map["A" := Quote(100, 0, Logistics), "B" := Quote(100, 0, Offices),
                                   "C" := Quote(100, 0, Shopping), "D" := Quote(100, 0, Hybrid)]

  lemma BestTotals()
    ensures FiiTotal(BEST, BEST_QUOTES) == 400 && FixedTotal(BEST, 0) == 400
    ensures SumOf(BEST.fixedIncome, FixedCost()) == 400 == SumOf(BEST.fixedIncome, DailyCost())
  {
    SumOfFour(OneShare("A"), OneShare("B"), OneShare("C"), OneShare("D"), FiiValue(BEST_QUOTES));
    SumOfOne(BEST.fixedIncome[0], FixedValue(0));
    SumOfOne(BEST.fixedIncome[0], FixedCost());
    SumOfOne(BEST.fixedIncome[0], DailyCost());
  }

  lemma BestSector(a: FiiHolding, b: FiiHolding, c: FiiHolding, d: FiiHolding, s: Sector)
    requires a == OneShare("A") && b == OneShare("B") && c == OneShare("C") && d == OneShare("D")
    requires s in [Logistics, Offices, Shopping, Hybrid]
    ensures SumOf([a, b, c, d], ValueInSector(BEST_QUOTES, s)) == 100
  {
    SumOfFour(a, b, c, d, ValueInSector(BEST_QUOTES, s));
    assert SectorOf(a, BEST_QUOTES) == Logistics && SectorOf(b, BEST_QUOTES) == Offices
        && SectorOf(c, BEST_QUOTES) == Shopping && SectorOf(d, BEST_QUOTES) == Hybrid;
    assert CurrentFii(a, BEST_QUOTES) == CurrentFii(b, BEST_QUOTES) == 100
        == CurrentFii(c, BEST_QUOTES) == CurrentFii(d, BEST_QUOTES);
  }

  lemma BestSectors()
    ensures forall k :: 0 <= k < 4 ==>
              && SECTOR_ORDER[k] in SectorsHeld(BEST.fii, BEST_QUOTES)
              && SumOf(BEST.fii, ValueInSector(BEST_QUOTES, SECTOR_ORDER[k])) == 100
    ensures forall k :: 4 <= k < 6 ==> SECTOR_ORDER[k] !in SectorsHeld(BEST.fii, BEST_QUOTES)
  {
    forall k | 0 <= k < 4
      ensures SumOf(BEST.fii, ValueInSector(BEST_QUOTES, SECTOR_ORDER[k])) == 100
    {
      BestSector(OneShare("A"), OneShare("B"), OneShare("C"), OneShare("D"), SECTOR_ORDER[k]);
    }
    assert forall k :: 0 <= k < 4 ==> SectorOf(BEST.fii[k], BEST_QUOTES) == SECTOR_ORDER[k];
  }

  /** One more sector: another slice when it is held. */
  lemma SlicesWith(order: seq<Sector>, s: Sector, fii: seq<FiiHolding>, quotes: Quotes, total: int)
    ensures var (before, after) := (SectorSlices(order, fii, quotes, total),
              SectorSlices(order + [s], fii, quotes, total));
            if s in SectorsHeld(fii, quotes) then
              && |after| == |before| + 1
              && LargestSectorShare(after)
                 == Max(LargestSectorShare(before), ShareBps(SumOf(fii, ValueInSector(quotes, s)), total))
            else after == before
  {
    assert (order + [s])[..|order|] == order;
    var before, slice := SectorSlices(order, fii, quotes, total),
                         SectorSlice(s, SumOf(fii, ValueInSector(quotes, s)),
                             ShareBps(SumOf(fii, ValueInSector(quotes, s)), total));
    assert (before + [slice])[..|before|] == before;
    assert before + [] == before;
  }

  lemma QuarterShare()
    ensures ShareBps(100, 400) == 2500
  {
    ShareUnique(100, 400, 2500);
  }

  lemma QuarterSlice(order: seq<Sector>, s: Sector, fii: seq<FiiHolding>, quotes: Quotes)
    requires s in SectorsHeld(fii, quotes) ==> SumOf(fii, ValueInSector(quotes, s)) == 100
    requires LargestSectorShare(SectorSlices(order, fii, quotes, 400)) <= 2500
    ensures LargestSectorShare(SectorSlices(order + [s], fii, quotes, 400)) <= 2500
    ensures |SectorSlices(order + [s], fii, quotes, 400)|
         == |SectorSlices(order, fii, quotes, 400)| + if s in SectorsHeld(fii, quotes) then 1 else 0
  {
    SlicesWith(order, s, fii, quotes, 400);
    QuarterShare();
  }

  /** The first four sectors of an order are held with 100 each, and the others are not. */
  ghost predicate FourHeld(fii: seq<FiiHolding>, quotes: Quotes, order: seq<Sector>) {
    forall k :: 0 <= k < |order| ==>
      if k < 4 then order[k] in SectorsHeld(fii, quotes) && SumOf(fii, ValueInSector(quotes, order[k])) == 100
      else order[k] !in SectorsHeld(fii, quotes)
  }

  lemma {:induction false} EvenSlices(fii: seq<FiiHolding>, quotes: Quotes, order: seq<Sector>)
    requires FourHeld(fii, quotes, order)
    ensures |SectorSlices(order, fii, quotes, 400)| == if |order| < 4 then |order| else 4
    ensures LargestSectorShare(SectorSlices(order, fii, quotes, 400)) <= 2500
  {
    if order == [] {
    } else {
      var n := |order| - 1;
      EvenSlices(fii, quotes, order[..n]);
      assert order == order[..n] + [order[n]];
      QuarterSlice(order[..n], order[n], fii, quotes);
    }
  }

  /** Half in each class, five holdings, four sectors, and all of it liquid. */
  ghost predicate Balanced(i: Inputs) {
    && i.current == 800 == i.liquid && i.fiiValue == 400 == i.fixedValue && i.holdings == 5 && i.sectorCount == 4
    && Worst(i) == 5000 && i.risk == Moderate && !i.hasMacro
  }

  lemma BestInputs(hasProfile: bool)
    ensures var i := Built(BEST, BEST_QUOTES, 0, Moderate, hasProfile, 0, false);
            Balanced(i) && i.hasProfile == hasProfile
  {
    BestTotals();
    BestSectors();
    EvenSlices(BEST.fii, BEST_QUOTES, SECTOR_ORDER);
    AllocationInputs(400, 400, 800);
    ShareUnique(400, 800, 5000);
    ShareUnique(400, 400, FULL);
    ApplyFull(400);
  }

  lemma BalancedFactors(i: Inputs)
    requires Balanced(i)
    ensures forall f :: ScoreOfFactor(i, f) == if f == Concentration then 50 else 100
  {
    ShareUnique(800, 800, FULL);
    ShareUnique(400, 800, 5000);
  }

  /** Every factor but concentration is at 100. */
  lemma {:induction false} BestDot(factors: seq<Factor>, values: seq<int>, weights: seq<int>)
    requires |factors| == |values| == |weights|
    requires forall k :: 0 <= k < |values| ==> values[k] == if factors[k] == Concentration then 50 else 100
    requires forall k :: 0 <= k < |values| ==> (factors[k] == Concentration <==> k == 1)
    ensures Dot(values, weights) == 100 * Sum(weights) - if |values| > 1 then 50 * weights[1] else 0
  {
    if values == [] {
    } else {
      var n := |values| - 1;
      BestDot(factors[..n], values[..n], weights[..n]);
    }
  }

  lemma HalfMean(values: seq<int>, weights: seq<int>, w: int)
    requires |values| == |weights| && Dot(values, weights) == 1000000 - 50 * w
    ensures w == 2500 ==> WeightedMean(values, weights) == 88
    ensures 3846 <= w <= 3847 ==> WeightedMean(values, weights) == 81
  {
    assert values[..|values|] == values && weights[..|weights|] == weights;
  }

  /** The score when concentration is at 50 and every other factor at 100. */
  lemma HalfConcentrated(i: Inputs)
    requires i.current > 0
    requires forall f :: ScoreOfFactor(i, f) == if f == Concentration then 50 else 100
    ensures ScoreOf(i).score == if i.hasProfile then 88 else 81
  {
    var factors := Present(i.hasProfile);
    var values, weights := Values(i, factors), Shares(Weights(factors));
    NormalisedWeights(i.hasProfile);
    BestDot(factors, values, weights);
    ConcentrationWeight(i.hasProfile);
    HalfMean(values, weights, weights[1]);
  }

  lemma BestIsSound()
    ensures Sound(BEST, BEST_QUOTES)
  {
  }

  /** Both bounds are reached. */
  lemma BestScore(hasProfile: bool)
    ensures Sound(BEST, BEST_QUOTES)
    ensures ScoreOf(Built(BEST, BEST_QUOTES, 0, Moderate, hasProfile, 0, false)).score == if hasProfile then 88 else 81
  {
    BestIsSound();
    BestInputs(hasProfile);
    BalancedScore(Built(BEST, BEST_QUOTES, 0, Moderate, hasProfile, 0, false));
  }

  lemma BalancedScore(i: Inputs)
    requires Balanced(i)
    ensures ScoreOf(i).score == if i.hasProfile then 88 else 81
  {
    BalancedFactors(i);
    HalfConcentrated(i);
  }
}
