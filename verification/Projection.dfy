/** Income and net-worth projections: internal/projection/compute.go. */
module Projection {
  import opened Arithmetic
  import opened Ratio

  datatype Inputs = Inputs(current: int, fiiIncome: int, fixedIncome: int, contribution: int, horizon: nat)

  datatype Scenario = Pessimistic | Base | Optimistic

  datatype Income = Income(scenario: Scenario, annual: int, monthly: int, yieldAdj: int)

  datatype Point = Point(year: int, value: int)

  datatype NetWorth = NetWorth(scenario: Scenario, points: seq<Point>, yieldAdj: int)

  const SPREAD: int := 200

  const ALL_SCENARIOS: seq<Scenario> := [Pessimistic, Base, Optimistic]

  function YieldAdj(s: Scenario): int {
    match s
    case Pessimistic => -SPREAD
    case Base => 0
    case Optimistic => SPREAD
  }

  /** annual/12, the nearest integer, halves up; 0 for non-positive income. */
  function MonthlyFromAnnual(annual: int): (m: int)
    ensures annual <= 0 ==> m == 0
    ensures annual > 0 ==> -12 <= 2 * (annual - 12 * m) < 12 && m >= 0
  {
    if annual <= 0 then 0 else (annual * 2 + 12) / 24
  }

  // ---------------------------------------------------------------------------------------------
  // The monthly loop.

  /** One month: the rounded yield on the value so far, plus the contribution. */
  function Month(value: int, rate: int, contribution: int): int {
    value + ApplyBps(value, rate) + contribution
  }

  /** The value after m months. */
  function ValueAfter(start: int, rate: int, contribution: int, m: nat): int {
    if m == 0 then start else Month(ValueAfter(start, rate, contribution, m - 1), rate, contribution)
  }

  /** The series up to a year: one point per year, from the current value on. */
  function Series(start: int, rate: int, contribution: int, years: nat): (points: seq<Point>)
    ensures |points| == years + 1
    ensures forall y :: 0 <= y <= years ==> points[y] == Point(y, ValueAfter(start, rate, contribution, 12 * y))
  {
    var last := Point(years, ValueAfter(start, rate, contribution, 12 * years));
    if years == 0 then [last] else Series(start, rate, contribution, years - 1) + [last]
  }

  method ProjectNetWorth(input: Inputs, yieldBps: int) returns (points: seq<Point>)
    ensures points == Series(input.current, GoDiv(yieldBps, 12), input.contribution, input.horizon)
  {
    var monthlyRate := GoDiv(yieldBps, 12);
    var value := input.current;
    points := [Point(0, value)];
    for m := 1 to 12 * input.horizon + 1
      invariant value == ValueAfter(input.current, monthlyRate, input.contribution, m - 1)
      invariant points == Series(input.current, monthlyRate, input.contribution, (m - 1) / 12)
    {
      value := value + ApplyBps(value, monthlyRate) + input.contribution;
      if m % 12 == 0 {
        points := points + [Point(m / 12, value)];
      }
    }
  }

  // ---------------------------------------------------------------------------------------------
  // The three scenarios.

  function BaseAnnual(input: Inputs): int {
    input.fiiIncome + input.fixedIncome
  }

  function AnnualOf(input: Inputs, s: Scenario): int {
    Max(0, BaseAnnual(input) + GoDiv(ApplyBps(input.current, SPREAD) * YieldAdj(s), SPREAD))
  }

  function ScenarioYield(input: Inputs, s: Scenario): int {
    Max(0, ShareBps(BaseAnnual(input), input.current) + YieldAdj(s))
  }

  function IncomeOf(input: Inputs, s: Scenario): Income {
    Income(s, AnnualOf(input, s), MonthlyFromAnnual(AnnualOf(input, s)), YieldAdj(s))
  }

  function NetWorthOf(input: Inputs, s: Scenario): NetWorth {
    NetWorth(s, Series(input.current, GoDiv(ScenarioYield(input, s), 12), input.contribution, input.horizon),
        YieldAdj(s))
  }

  method Compute(input: Inputs) returns (income: seq<Income>, netWorth: seq<NetWorth>)
    ensures |income| == |netWorth| == |ALL_SCENARIOS|
    ensures forall i :: 0 <= i < |ALL_SCENARIOS| ==>
              income[i] == IncomeOf(input, ALL_SCENARIOS[i]) && netWorth[i] == NetWorthOf(input, ALL_SCENARIOS[i])
    ensures ALL_SCENARIOS == [Pessimistic, Base, Optimistic]
  {
    var baseAnnual := input.fiiIncome + input.fixedIncome;
    var baseYield := ShareBps(baseAnnual, input.current);
    var delta := ApplyBps(input.current, SPREAD);
    income, netWorth := [], [];
    for i := 0 to |ALL_SCENARIOS|
      invariant |income| == |netWorth| == i
      invariant forall k :: 0 <= k < i ==>
                  income[k] == IncomeOf(input, ALL_SCENARIOS[k]) && netWorth[k] == NetWorthOf(input, ALL_SCENARIOS[k])
    {
      var s := ALL_SCENARIOS[i];
      var adj := YieldAdj(s);
      var annual := baseAnnual + GoDiv(delta * adj, SPREAD);
      if annual < 0 {
        annual := 0;
      }
      income := income + [Income(s, annual, MonthlyFromAnnual(annual), adj)];
      var scenarioYield := baseYield + adj;
      if scenarioYield < 0 {
        scenarioYield := 0;
      }
      var points := ProjectNetWorth(input, scenarioYield);
      netWorth := netWorth + [NetWorth(s, points, adj)];
    }
  }

  // ---------------------------------------------------------------------------------------------
  // The scenarios in figures.

  lemma SpreadIsExact(delta: int, s: Scenario)
    requires delta >= 0
    ensures GoDiv(delta * YieldAdj(s), SPREAD)
              == match s case Pessimistic => -delta case Base => 0 case Optimistic => delta
  {
    DivUnique(delta * SPREAD, SPREAD, delta);
    assert delta * -SPREAD == -(delta * SPREAD);
  }

  /**
   Each series compounds at the yield of the income on the current value, to the nearest basis point, moved by
   200 basis points and not below zero: a twelfth of it each month, down to a whole basis point.
   */
  lemma YieldOfSeries(input: Inputs, s: Scenario) returns (y: int, rate: int)
    ensures var (annual, whole) := (input.fiiIncome + input.fixedIncome, input.current);
            if whole <= 0 then y == 0
            else if annual >= 0 then -whole <= 2 * (annual * 10000 - y * whole) < whole
            else -whole < 2 * (annual * 10000 - y * whole) <= whole
    ensures var adj := if s == Pessimistic then -200 else if s == Optimistic then 200 else 0;
            if y + adj <= 0 then rate == 0 else 12 * rate <= y + adj < 12 * rate + 12
    ensures forall k :: 0 <= k <= input.horizon ==>
              NetWorthOf(input, s).points[k] == Point(k, ValueAfter(input.current, rate, input.contribution, 12 * k))
    ensures NetWorthOf(input, s).scenario == s && |NetWorthOf(input, s).points| == input.horizon + 1
    ensures NetWorthOf(input, s).yieldAdj == if s == Pessimistic then -200 else if s == Optimistic then 200 else 0
  {
    y, rate := ShareBps(BaseAnnual(input), input.current), GoDiv(ScenarioYield(input, s), 12);
  }

  /**
   The income of each scenario: the portfolio's own, moved by 2% of the current value to the nearest centavo, and
   not below zero; a month gets the nearest twelfth.
   */
  lemma IncomeInFigures(input: Inputs, s: Scenario) returns (delta: int, annual: int, monthly: int)
    ensures if input.current <= 0 then delta == 0 else -10000 <= 2 * (input.current * 200 - delta * 10000) < 10000
    ensures var sum := input.fiiIncome + input.fixedIncome
                       + if s == Pessimistic then -delta else if s == Optimistic then delta else 0;
            annual == if sum < 0 then 0 else sum
    ensures if annual == 0 then monthly == 0 else -12 <= 2 * (annual - 12 * monthly) < 12
    ensures IncomeOf(input, s)
         == Income(s, annual, monthly, if s == Pessimistic then -200 else if s == Optimistic then 200 else 0)
  {
    delta := ApplyBps(input.current, SPREAD);
    SpreadIsExact(delta, s);
    annual, monthly := AnnualOf(input, s), MonthlyFromAnnual(AnnualOf(input, s));
  }

  /** One month by hand: the yield to the nearest centavo, halves up, and the contribution. */
  lemma MonthInFigures(start: int, rate: int, contribution: int, m: nat) returns (paid: int)
    ensures var value := ValueAfter(start, rate, contribution, m);
            && ValueAfter(start, rate, contribution, m + 1) == value + paid + contribution
            && if value <= 0 || rate <= 0 then paid == 0 else -10000 <= 2 * (value * rate - paid * 10000) < 10000
    ensures ValueAfter(start, rate, contribution, 0) == start
  {
    paid := ApplyBps(ValueAfter(start, rate, contribution, m), rate);
  }

  // ---------------------------------------------------------------------------------------------
  // The accumulated rounding error.

  function Power(x: real, k: nat): real {
    if k == 0 then 1.0 else x * Power(x, k - 1)
  }

  /** 1 + x + ... + x^(m-1), by Horner's rule. */
  function PowerSum(x: real, m: nat): real {
    if m == 0 then 0.0 else 1.0 + x * PowerSum(x, m - 1)
  }

  /** The monthly growth factor: one plus the rate, which is in basis points. */
  function Growth(rateBps: int): real {
    1.0 + rateBps as real / 10000.0
  }

  /** One exact month. */
  function ExactMonth(value: real, growth: real, contribution: real): real {
    growth * value + contribution
  }

  /** Exact compounding, without rounding. */
  function Exact(start: real, growth: real, contribution: real, m: nat): real {
    if m == 0 then start else ExactMonth(Exact(start, growth, contribution, m - 1), growth, contribution)
  }

  /** Horner's rule adds up the powers. */
  lemma {:induction false} PowerSumAddsPowers(x: real, m: nat)
    ensures PowerSum(x, m + 1) == PowerSum(x, m) + Power(x, m)
  {
    if m == 0 {
    } else {
      PowerSumAddsPowers(x, m - 1);
    }
  }

  lemma ClosedMonth(x: real, start: real, c: real, exact: real, power: real, sum: real, power': real, sum': real)
    requires exact == start * power + c * sum && power' == x * power && sum' == 1.0 + x * sum
    ensures ExactMonth(exact, x, c) == start * power' + c * sum'
  {
    assert x * exact == x * (start * power) + x * (c * sum);
    assert x * (start * power) == start * power';
    assert x * (c * sum) == c * (x * sum);
  }

  /** Exact compounding in closed form. */
  lemma {:induction false} ExactClosedForm(start: real, growth: real, contribution: real, m: nat)
    ensures Exact(start, growth, contribution, m) == start * Power(growth, m) + contribution * PowerSum(growth, m)
  {
    if m == 0 {
    } else {
      ExactClosedForm(start, growth, contribution, m - 1);
      ClosedMonth(growth, start, contribution, Exact(start, growth, contribution, m - 1), Power(growth, m - 1),
                  PowerSum(growth, m - 1), Power(growth, m), PowerSum(growth, m));
    }
  }

  ghost predicate Close(a: real, b: real, bound: real) {
    -bound <= a - b <= bound
  }

  lemma {:induction false} NeverFalls(start: int, rate: int, contribution: int, m: nat, n: nat)
    requires contribution >= 0 && m <= n
    ensures ValueAfter(start, rate, contribution, m) <= ValueAfter(start, rate, contribution, n)
    decreases n
  {
    if m == n {
    } else {
      NeverFalls(start, rate, contribution, m, n - 1);
    }
  }

  /** A series that follows exact growth with an error of at most half a centavo in each month. */
  ghost predicate Tracks(values: seq<real>, growth: real, contribution: real) {
    forall k :: 0 <= k < |values| - 1 ==> Close(values[k + 1], ExactMonth(values[k], growth, contribution), 0.5)
  }

  lemma ErrorMonth(x: real, value: real, next: real, c: real, exact: real, sum: real)
    requires x >= 0.0 && Close(value, exact, 0.5 * sum) && Close(next, ExactMonth(value, x, c), 0.5)
    ensures Close(next, ExactMonth(exact, x, c), 0.5 * (1.0 + x * sum))
  {
    var e, bound := value - exact, 0.5 * sum;
    assert x * (bound - e) >= 0.0 && x * (bound + e) >= 0.0;
    assert x * e == x * value - x * exact;
    assert x * bound == 0.5 * (x * sum);
  }

  lemma {:induction false} ErrorAccumulates(values: seq<real>, growth: real, contribution: real, m: nat)
    requires m < |values| && growth >= 0.0 && Tracks(values, growth, contribution)
    ensures Close(values[m], Exact(values[0], growth, contribution, m), 0.5 * PowerSum(growth, m))
  {
    if m == 0 {
    } else {
      ErrorAccumulates(values, growth, contribution, m - 1);
      assert Close(values[m - 1 + 1], ExactMonth(values[m - 1], growth, contribution), 0.5);
      ErrorMonth(growth, values[m - 1], values[m], contribution, Exact(values[0], growth, contribution, m - 1),
          PowerSum(growth, m - 1));
    }
  }

  /** One month of the loop: the rounded value is within half a centavo of exact growth. */
  lemma MonthRounding(value: int, rateBps: int, contribution: int)
    requires value >= 0 && rateBps >= 0
    ensures Close(Month(value, rateBps, contribution) as real,
              ExactMonth(value as real, Growth(rateBps), contribution as real), 0.5)
  {
    var r := ApplyBps(value, rateBps);
    assert (value * rateBps) as real == value as real * rateBps as real;
    assert Growth(rateBps) * value as real == value as real + (value * rateBps) as real / 10000.0;
    assert value == 0 || rateBps == 0 ==> value * rateBps == 0;
  }

  /** The values of the first m months, as numbers. */
  function LoopValues(start: int, rateBps: int, contribution: int, m: nat): (values: seq<real>)
    ensures |values| == m + 1 && forall k :: 0 <= k <= m ==>
              values[k] == ValueAfter(start, rateBps, contribution, k) as real
  {
    seq(m + 1, k requires 0 <= k <= m => ValueAfter(start, rateBps, contribution, k) as real)
  }

  lemma LoopTracks(start: int, rateBps: int, contribution: int, m: nat)
    requires start >= 0 && rateBps >= 0 && contribution >= 0
    ensures Tracks(LoopValues(start, rateBps, contribution, m), Growth(rateBps), contribution as real)
  {
    var values, growth := LoopValues(start, rateBps, contribution, m), Growth(rateBps);
    forall k | 0 <= k < |values| - 1
      ensures Close(values[k + 1], ExactMonth(values[k], growth, contribution as real), 0.5)
    {
      NeverFalls(start, rateBps, contribution, 0, k);
      MonthRounding(ValueAfter(start, rateBps, contribution, k), rateBps, contribution);
      assert ValueAfter(start, rateBps, contribution, k + 1)
          == Month(ValueAfter(start, rateBps, contribution, k), rateBps, contribution);
    }
  }

  /**
   After m months the value differs from exact compounding at the same monthly rate by at most half a centavo
   per month, each half compounded over the months that follow it.
   */
  lemma RoundingError(start: int, rateBps: int, contribution: int, m: nat)
    requires start >= 0 && rateBps >= 0 && contribution >= 0
    ensures Close(ValueAfter(start, rateBps, contribution, m) as real,
                  Exact(start as real, Growth(rateBps), contribution as real, m),
                  0.5 * PowerSum(Growth(rateBps), m))
  {
    var growth := Growth(rateBps);
    var values := LoopValues(start, rateBps, contribution, m);
    LoopTracks(start, rateBps, contribution, m);
    assert growth >= 0.0;
    ErrorAccumulates(values, growth, contribution as real, m);
  }

  // ---------------------------------------------------------------------------------------------
  // Order.

  /** The value is monotone in the start, the rate and the contribution. */
  lemma {:induction false} ValueMonotone(start: int, start': int, rate: int, rate': int, c: int, c': int, m: nat)
    requires start <= start' && rate <= rate' && c <= c'
    ensures ValueAfter(start, rate, c, m) <= ValueAfter(start', rate', c', m)
  {
    if m == 0 {
    } else {
      ValueMonotone(start, start', rate, rate', c, c', m - 1);
      ApplyMonotone(ValueAfter(start, rate, c, m - 1), ValueAfter(start', rate', c', m - 1), rate, rate');
    }
  }

  /** Restarting from the value after k months continues the same series. */
  lemma {:induction false} ValueRestart(start: int, rate: int, c: int, k: nat, m: nat)
    ensures ValueAfter(ValueAfter(start, rate, c, k), rate, c, m) == ValueAfter(start, rate, c, k + m)
  {
    if m == 0 {
    } else {
      ValueRestart(start, rate, c, k, m - 1);
    }
  }

  /** A scenario's series starts at the current value; without withdrawals it never falls. */
  lemma SeriesNeverFalls(input: Inputs, s: Scenario)
    requires input.contribution >= 0
    ensures var points := NetWorthOf(input, s).points;
            && |points| == input.horizon + 1 && points[0] == Point(0, input.current)
            && forall i, j :: 0 <= i <= j <= input.horizon ==> points[i].value <= points[j].value
  {
    var rate := GoDiv(ScenarioYield(input, s), 12);
    var points := NetWorthOf(input, s).points;
    forall i, j | 0 <= i <= j <= input.horizon
      ensures points[i].value <= points[j].value
    {
      NeverFalls(input.current, rate, input.contribution, 12 * i, 12 * j);
    }
  }

  /** A shorter horizon gives a prefix, and restarting from year j's value gives the rest. */
  lemma SeriesPrefixAndTail(start: int, rate: int, c: int, years: nat, j: nat, i: nat)
    requires j + i <= years
    ensures Series(start, rate, c, j) == Series(start, rate, c, years)[..j + 1]
    ensures Series(Series(start, rate, c, years)[j].value, rate, c, years - j)[i].value
              == Series(start, rate, c, years)[j + i].value
  {
    ValueRestart(start, rate, c, 12 * j, 12 * i);
    assert 12 * j + 12 * i == 12 * (j + i);
  }

  predicate AtMost(s: Scenario, s': Scenario) {
    YieldAdj(s) <= YieldAdj(s')
  }

  /** Pessimistic <= base <= optimistic, for income and for net worth in every year. */
  lemma ScenariosOrdered(input: Inputs, s: Scenario, s': Scenario)
    requires AtMost(s, s')
    ensures IncomeOf(input, s).annual <= IncomeOf(input, s').annual
    ensures IncomeOf(input, s).monthly <= IncomeOf(input, s').monthly
    ensures forall y :: 0 <= y <= input.horizon ==>
              NetWorthOf(input, s).points[y].value <= NetWorthOf(input, s').points[y].value
  {
    var delta := ApplyBps(input.current, SPREAD);
    SpreadIsExact(delta, s);
    SpreadIsExact(delta, s');
    DivMonotone(AnnualOf(input, s) * 2 + 12, AnnualOf(input, s') * 2 + 12, 24);
    var rate, rate' := GoDiv(ScenarioYield(input, s), 12), GoDiv(ScenarioYield(input, s'), 12);
    GoDivMonotone(ScenarioYield(input, s), ScenarioYield(input, s'), 12);
    forall y | 0 <= y <= input.horizon
      ensures NetWorthOf(input, s).points[y].value <= NetWorthOf(input, s').points[y].value
    {
      ValueMonotone(input.current, input.current, rate, rate', input.contribution, input.contribution, 12 * y);
    }
  }

  /**
   The base scenario's income is the portfolio's own, and each spread moves it by the same amount until it
   reaches zero.
   */
  lemma BaseIncomeReconciles(input: Inputs)
    requires BaseAnnual(input) >= 0
    ensures IncomeOf(input, Base).annual == input.fiiIncome + input.fixedIncome
    ensures IncomeOf(input, Optimistic).annual - IncomeOf(input, Base).annual == ApplyBps(input.current, SPREAD)
    ensures IncomeOf(input, Base).annual - IncomeOf(input, Pessimistic).annual
         == if ApplyBps(input.current, SPREAD) <= BaseAnnual(input)
            then ApplyBps(input.current, SPREAD)
            else BaseAnnual(input)
  {
    SpreadIsExact(ApplyBps(input.current, SPREAD), Pessimistic);
    SpreadIsExact(ApplyBps(input.current, SPREAD), Base);
    SpreadIsExact(ApplyBps(input.current, SPREAD), Optimistic);
  }
}
