/** Splitting a contribution by gap to target: internal/rebalancing/split.go, facts.go and engine.go. */
module Split {
  import opened Arithmetic
  import opened Ratio
  import opened Apportionment
  import opened ApportionmentLaws

  datatype AssetClass = Fii | FixedIncome | Stocks | Etfs

  datatype Risk = Conservative | Moderate | Aggressive | Unset

  datatype Allocation = Allocation(total: int, byClass: map<AssetClass, int>)

  datatype AreaShare = AreaShare(assetClass: AssetClass, shareBps: int, amount: int)

  /** The two classes a contribution is distributed across. */
  const SPLIT_CLASSES: seq<AssetClass> := [Fii, FixedIncome]

  function TargetShare(risk: Risk, c: AssetClass): int {
    match (risk, c)
    case (Conservative, Fii) => 3000
    case (Conservative, FixedIncome) => 7000
    case (Aggressive, Fii) => 7000
    case (Aggressive, FixedIncome) => 3000
    case (_, Fii) => 5000
    case (_, FixedIncome) => 5000
    case (_, _) => 0
  }

  predicate SplitClass(c: AssetClass) {
    c in SPLIT_CLASSES
  }

  /** A class that is not in the map reads as 0. */
  function ValueOf(current: Allocation, c: AssetClass): int {
    if c in current.byClass then current.byClass[c] else 0
  }

  function TargetValue(current: Allocation, risk: Risk, contribution: int, c: AssetClass): int {
    ApplyBps(current.total + contribution, TargetShare(risk, c))
  }

  function Gap(current: Allocation, risk: Risk, contribution: int, c: AssetClass): int {
    TargetValue(current, risk, contribution, c) - ValueOf(current, c)
  }

  predicate AnyGap(current: Allocation, risk: Risk, contribution: int) {
    Gap(current, risk, contribution, Fii) > 0 || Gap(current, risk, contribution, FixedIncome) > 0
  }

  /** The positive gaps, or the target mix when there is none. */
  function Weights(current: Allocation, risk: Risk, contribution: int): seq<int> {
    if AnyGap(current, risk, contribution)
    then [Positive(Gap(current, risk, contribution, Fii)), Positive(Gap(current, risk, contribution, FixedIncome))]
    else [TargetShare(risk, Fii), TargetShare(risk, FixedIncome)]
  }

  function ShareOfClass(current: Allocation, risk: Risk, contribution: int, c: AssetClass): int {
    var shares := Shares(Weights(current, risk, contribution));
    match c
    case Fii => shares[0]
    case FixedIncome => shares[1]
    case _ => 0
  }

  function AmountOfClass(current: Allocation, risk: Risk, contribution: int, c: AssetClass): int {
    ApplyBps(contribution, ShareOfClass(current, risk, contribution, c))
  }

  /** What Split returns: the funded classes, in order. */
  function Areas(current: Allocation, risk: Risk, contribution: int, classes: seq<AssetClass>): seq<AreaShare> {
    if classes == [] then []
    else
      var n := |classes| - 1;
      var share := ShareOfClass(current, risk, contribution, classes[n]);
      Areas(current, risk, contribution, classes[..n])
      + if share == 0 then []
        else [AreaShare(classes[n], share, AmountOfClass(current, risk, contribution, classes[n]))]
  }

  method Split(current: Allocation, risk: Risk, contribution: int) returns (out: seq<AreaShare>)
    requires FitsInt64(Weights(current, risk, contribution))
    ensures out == Areas(current, risk, contribution, SPLIT_CLASSES)
  {
    var weights := ClassWeights(current, risk, contribution);
    var shares := AllocateBps(weights[..]);
    out := [];
    for i := 0 to |SPLIT_CLASSES|
      invariant out == Areas(current, risk, contribution, SPLIT_CLASSES[..i])
    {
      assert SPLIT_CLASSES[..i + 1][..i] == SPLIT_CLASSES[..i];
      assert shares[i] == shares[..][i] == ShareOfClass(current, risk, contribution, SPLIT_CLASSES[i]);
      if shares[i] == 0 {
        continue;
      }
      out := out + [AreaShare(SPLIT_CLASSES[i], shares[i], ApplyBps(contribution, shares[i]))];
    }
    assert SPLIT_CLASSES[..|SPLIT_CLASSES|] == SPLIT_CLASSES;
  }

  /** The first half of Split: weigh each class by how far it sits below its target, or fall back to the target mix. */
  method ClassWeights(current: Allocation, risk: Risk, contribution: int) returns (weights: array<int>)
    ensures fresh(weights) && weights[..] == Weights(current, risk, contribution)
  {
    var futureTotal := current.total + contribution;
    var n := |SPLIT_CLASSES|;
    weights := new int[n](_ => 0);
    var anyGap := false;
    for i := 0 to n
      invariant forall k :: 0 <= k < i ==> weights[k] == Positive(Gap(current, risk, contribution, SPLIT_CLASSES[k]))
      invariant forall k :: i <= k < n ==> weights[k] == 0
      invariant anyGap <==> || (i > 0 && Gap(current, risk, contribution, Fii) > 0)
                            || (i > 1 && Gap(current, risk, contribution, FixedIncome) > 0)
    {
      var c := SPLIT_CLASSES[i];
      var gap := ApplyBps(futureTotal, TargetShare(risk, c)) - ValueOf(current, c);
      if gap > 0 {
        weights[i] := gap;
        anyGap := true;
      }
    }
    if !anyGap {
      for i := 0 to n
        invariant forall k :: 0 <= k < i ==> weights[k] == TargetShare(risk, SPLIT_CLASSES[k])
      {
        weights[i] := TargetShare(risk, SPLIT_CLASSES[i]);
      }
    }
  }

  // ---------------------------------------------------------------------------------------------
  // Conservation.

  lemma TotalOfTwo(a: int, b: int)
    ensures Total([a, b]) == Positive(a) + Positive(b)
  {
    assert [a, b][..1] == [a] && [a][..0] == [];
    assert Total([a]) == Positive(a);
  }

  lemma SumOfTwo(a: int, b: int)
    ensures Sum([a, b]) == a + b
  {
    assert [a, b][..1] == [a] && [a][..0] == [];
    assert Sum([a]) == a;
  }

  lemma SharesOfTwo(a: int, b: int)
    requires a > 0 || b > 0
    ensures 0 <= Shares([a, b])[0] <= FULL && Shares([a, b])[1] == FULL - Shares([a, b])[0]
    ensures a <= 0 ==> Shares([a, b])[0] == 0
    ensures b <= 0 ==> Shares([a, b])[1] == 0
  {
    var s := Shares([a, b]);
    SharesInRange([a, b], 0);
    SharesInRange([a, b], 1);
    assert s[0] + s[1] == FULL by {
      TotalOfTwo(a, b);
      SharesExact([a, b]);
      SumOfTwo(s[0], s[1]);
      assert s == [s[0], s[1]];
    }
  }

  lemma ComplementaryShares(current: Allocation, risk: Risk, contribution: int)
    ensures 0 <= ShareOfClass(current, risk, contribution, Fii) <= FULL
    ensures ShareOfClass(current, risk, contribution, FixedIncome)
              == FULL - ShareOfClass(current, risk, contribution, Fii)
    ensures AnyGap(current, risk, contribution) ==>
              forall c :: SplitClass(c) && Gap(current, risk, contribution, c) <= 0 ==>
                  ShareOfClass(current, risk, contribution, c) == 0
  {
    var w := Weights(current, risk, contribution);
    assert w == [w[0], w[1]];
    SharesOfTwo(w[0], w[1]);
  }

  function AreaShareBps(): AreaShare -> int {
    (a: AreaShare) => a.shareBps
  }

  function AreaAmount(): AreaShare -> int {
    (a: AreaShare) => a.amount
  }

  /** One more class adds its share and its amount, also when it is not funded. */
  lemma SumsOfAreas(current: Allocation, risk: Risk, contribution: int, classes: seq<AssetClass>, c: AssetClass)
    ensures var before := Areas(current, risk, contribution, classes);
            var after := Areas(current, risk, contribution, classes + [c]);
            && SumOf(after, AreaShareBps())
                == SumOf(before, AreaShareBps()) + ShareOfClass(current, risk, contribution, c)
            && SumOf(after, AreaAmount()) == SumOf(before, AreaAmount()) + AmountOfClass(current, risk, contribution, c)
  {
    var (before, area) := (Areas(current, risk, contribution, classes),
                           AreaShare(c, ShareOfClass(current, risk, contribution, c),
                               AmountOfClass(current, risk, contribution, c)));
    assert (classes + [c])[..|classes|] == classes;
    assert Areas(current, risk, contribution, classes + [c])
        == if area.shareBps == 0 then before else before + [area] by {
      assert before + [] == before;
    }
    SumOfSnoc(before + [area], AreaShareBps(), |before|);
    SumOfSnoc(before + [area], AreaAmount(), |before|);
    assert (before + [area])[..|before|] == before && (before + [area])[..|before| + 1] == before + [area];
  }

  lemma SumsOfSplit(current: Allocation, risk: Risk, contribution: int)
    ensures var areas := Areas(current, risk, contribution, SPLIT_CLASSES);
            && SumOf(areas, AreaShareBps())
                == ShareOfClass(current, risk, contribution, Fii)
                    + ShareOfClass(current, risk, contribution, FixedIncome)
            && SumOf(areas, AreaAmount())
                == AmountOfClass(current, risk, contribution, Fii)
                    + AmountOfClass(current, risk, contribution, FixedIncome)
  {
    assert [] + [Fii] == [Fii] && [Fii] + [FixedIncome] == SPLIT_CLASSES;
    SumsOfAreas(current, risk, contribution, [], Fii);
    SumsOfAreas(current, risk, contribution, [Fii], FixedIncome);
  }

  /** The shares add up to exactly 10000; the amounts to the contribution, or to one more when both end in one half. */
  lemma SplitConserves(current: Allocation, risk: Risk, contribution: int)
    requires contribution > 0
    ensures SumOf(Areas(current, risk, contribution, SPLIT_CLASSES), AreaShareBps()) == FULL
    ensures SumOf(Areas(current, risk, contribution, SPLIT_CLASSES), AreaAmount())
         == contribution
            + if 2 * ((contribution * ShareOfClass(current, risk, contribution, Fii)) % FULL) == FULL then 1 else 0
  {
    SumsOfSplit(current, risk, contribution);
    ComplementaryShares(current, risk, contribution);
    TwoAmounts(contribution, ShareOfClass(current, risk, contribution, Fii));
  }

  lemma EqualWeights(w: int)
    requires w > 0
    ensures Shares([w, w])[0] == 5000
  {
    SharesOfPair(w, w);
    ShareUnique(w, w + w, 5000);
  }

  lemma HalfOf(contribution: int)
    ensures 2 * ((contribution * 5000) % FULL) == FULL <==> contribution % 2 == 1
  {
  }

  /** The amounts are one centavo more than the contribution. */
  ghost predicate GivesOneMore(current: Allocation, risk: Risk, contribution: int) {
    SumOf(Areas(current, risk, contribution, SPLIT_CLASSES), AreaAmount()) == contribution + 1
  }

  /**
   The double tie occurs: into an empty portfolio of a moderate or unset profile every odd contribution is given
   away with one centavo more, one centavo as two.
   */
  lemma EvenSplitGivesOneMore(current: Allocation, risk: Risk, contribution: int)
    requires contribution > 0 && current.total == 0 && ValueOf(current, Fii) == 0 == ValueOf(current, FixedIncome)
    requires risk != Conservative && risk != Aggressive
    ensures GivesOneMore(current, risk, contribution) <==> contribution % 2 == 1
  {
    var w := ApplyBps(contribution, 5000);
    assert w > 0;
    assert Weights(current, risk, contribution) == [w, w];
    assert ShareOfClass(current, risk, contribution, Fii) == 5000 by {
      EqualWeights(w);
    }
    HalfOf(contribution);
    SplitConserves(current, risk, contribution);
  }

  // ---------------------------------------------------------------------------------------------
  // No overshoot.

  /** The class values are non-negative and are the whole patrimony. */
  ghost predicate Whole(current: Allocation) {
    ValueOf(current, Fii) >= 0 && ValueOf(current, FixedIncome) >= 0
    && ValueOf(current, Fii) + ValueOf(current, FixedIncome) == current.total
  }

  lemma TargetsCover(current: Allocation, risk: Risk, contribution: int)
    requires current.total >= 0 && contribution > 0
    ensures var f := TargetValue(current, risk, contribution, Fii);
            var i := TargetValue(current, risk, contribution, FixedIncome);
            current.total + contribution <= f + i <= current.total + contribution + 1
  {
    TwoAmounts(current.total + contribution, TargetShare(risk, Fii));
  }

  /** The target-mix fallback needs class values that exceed the patrimony by at least the contribution. */
  lemma FallbackNeedsExcess(current: Allocation, risk: Risk, contribution: int)
    requires current.total >= 0 && contribution > 0
    requires ValueOf(current, Fii) + ValueOf(current, FixedIncome) < current.total + contribution
    ensures AnyGap(current, risk, contribution)
  {
    TargetsCover(current, risk, contribution);
  }

  /** A proportional share of c, rounded twice, exceeds its gap by less than excess + c/10000 + 1/2. */
  lemma AmountWithinGap(c: int, gap: int, total: int, share: int, excess: int)
    requires c > 0 && 0 < gap <= total && excess >= 0 && total >= c - excess && share >= 0
    requires Abs(share * total - gap * FULL) < total
    ensures 20000 * ApplyBps(c, share) < 20000 * (gap + excess) + 2 * c + FULL
  {
    ApplyAtMost(c, share);
    ProductBelow(c, share, total, gap);
    GapTimes(c, gap, total, excess);
    Cancel(c * share, c * gap, total, gap + excess, c);
  }

  lemma ProductBelow(c: int, share: int, total: int, gap: int)
    requires c > 0 && share * total - gap * FULL < total
    ensures (c * share) * total < FULL * (c * gap) + c * total
  {
    var x := share * total;
    assert c * x < c * (gap * FULL + total) == FULL * (c * gap) + c * total;
    assert c * x == (c * share) * total;
  }

  lemma GapTimes(c: int, gap: int, total: int, excess: int)
    requires 0 < gap <= total && excess >= 0 && c <= total + excess
    ensures c * gap <= total * (gap + excess)
  {
    assert c * gap <= (total + excess) * gap;
    assert (total + excess) * gap == total * gap + excess * gap;
    assert excess * gap <= excess * total;
  }

  lemma Cancel(x: int, y: int, total: int, bound: int, c: int)
    requires total > 0 && x * total < FULL * y + c * total && y <= total * bound
    ensures x < FULL * bound + c
  {
    assert FULL * (total * bound) + c * total == (FULL * bound + c) * total;
    MulAtMost(total, FULL * bound + c - 1, x);
  }

  lemma FundedAmount(current: Allocation, risk: Risk, contribution: int, c: AssetClass, excess: int)
    requires contribution > 0 && SplitClass(c) && excess >= 0
    requires Gap(current, risk, contribution, c) > 0
    requires Positive(Gap(current, risk, contribution, Fii)) + Positive(Gap(current, risk, contribution, FixedIncome))
               >= contribution - excess
    ensures 20000 * AmountOfClass(current, risk, contribution, c)
            < 20000 * (Gap(current, risk, contribution, c) + excess) + 2 * contribution + FULL
  {
    var w := Weights(current, risk, contribution);
    var i := if c == Fii then 0 else 1;
    TotalOfTwo(w[0], w[1]);
    assert w == [w[0], w[1]];
    SharesWithinQuota(w, i);
    SharesInRange(w, i);
    AmountWithinGap(contribution, w[i], Total(w), Shares(w)[i], excess);
  }

  /**
   When the class values exceed the patrimony by at most `excess`, a funded class ends below its target plus
   that excess plus contribution/10000 plus half a centavo.
   */
  lemma SplitBounded(current: Allocation, risk: Risk, contribution: int, c: AssetClass, excess: int)
    requires current.total >= 0 && contribution > 0 && SplitClass(c)
    requires excess >= 0 && ValueOf(current, Fii) + ValueOf(current, FixedIncome) <= current.total + excess
    requires ShareOfClass(current, risk, contribution, c) > 0
    ensures 20000 * (ValueOf(current, c) + AmountOfClass(current, risk, contribution, c))
            < 20000 * (TargetValue(current, risk, contribution, c) + excess) + 2 * contribution + FULL
  {
    ComplementaryShares(current, risk, contribution);
    TargetsCover(current, risk, contribution);
    if Gap(current, risk, contribution, c) > 0 {
      FundedAmount(current, risk, contribution, c, excess);
    } else {
      ApplyMonotone(contribution, contribution, ShareOfClass(current, risk, contribution, c), FULL);
      ApplyFull(contribution);
    }
  }

  /**
   When the class values are the whole patrimony, a class at or above its target gets nothing, and every
   funded class ends below its target plus contribution/10000 plus half a centavo.
   */
  lemma SplitNeverOvershoots(current: Allocation, risk: Risk, contribution: int, c: AssetClass)
    requires contribution > 0 && Whole(current) && SplitClass(c)
    ensures AnyGap(current, risk, contribution)
    ensures Gap(current, risk, contribution, c) <= 0 ==> ShareOfClass(current, risk, contribution, c) == 0
    ensures ShareOfClass(current, risk, contribution, c) > 0 ==>
              20000 * (ValueOf(current, c) + AmountOfClass(current, risk, contribution, c))
              < 20000 * TargetValue(current, risk, contribution, c) + 2 * contribution + FULL
  {
    FallbackNeedsExcess(current, risk, contribution);
    ComplementaryShares(current, risk, contribution);
    if ShareOfClass(current, risk, contribution, c) > 0 {
      SplitBounded(current, risk, contribution, c, 0);
    }
  }

  // ---------------------------------------------------------------------------------------------
  // The class values as the engine rebuilds them from rounded shares.

  /** The part of the base facts that the split reads; a missing entry reads as zero or empty. */
  datatype BaseFacts = BaseFacts(currentValue: int, allocationBps: map<AssetClass, int>)

  method AllocationFromFacts(base: BaseFacts) returns (current: Allocation)
    ensures current == Rebuilt(base)
  {
    var byClass: map<AssetClass, int> := map[];
    var classes := base.allocationBps.Keys;
    while classes != {}
      invariant classes <= base.allocationBps.Keys
      invariant byClass
             == map c | c in base.allocationBps.Keys - classes :: ApplyBps(base.currentValue, base.allocationBps[c])
      decreases |classes|
    {
      var c :| c in classes;
      byClass := byClass[c := ApplyBps(base.currentValue, base.allocationBps[c])];
      classes := classes - {c};
    }
    assert base.allocationBps.Keys - {} == base.allocationBps.Keys;
    return Allocation(base.currentValue, byClass);
  }

  function Rebuilt(base: BaseFacts): Allocation {
    Allocation(base.currentValue, map c | c in base.allocationBps :: ApplyBps(base.currentValue, base.allocationBps[c]))
  }

  /** The facts a dashboard with these two class values publishes: only classes that hold value. */
  function PublishedFacts(fii: int, fixedIncome: int): BaseFacts {
    var total := fii + fixedIncome;
    BaseFacts(total,
              (if fii > 0 then map[Fii := ShareBps(fii, total)] else map[])
              + if fixedIncome > 0 then map[FixedIncome := ShareBps(fixedIncome, total)] else map[])
  }

  lemma RebuiltValues(fii: int, fixedIncome: int)
    requires fii >= 0 && fixedIncome >= 0
    ensures var total, r := fii + fixedIncome, Rebuilt(PublishedFacts(fii, fixedIncome));
            && ValueOf(r, Fii) == ApplyBps(total, ShareBps(fii, total))
            && ValueOf(r, FixedIncome) == ApplyBps(total, ShareBps(fixedIncome, total))
            && r.total == total
  {
    if fii + fixedIncome > 0 {
      ShareUnique(0, fii + fixedIncome, 0);
    }
  }

  /**
   Each rebuilt value is within total/20000 + 1/2 of the true one, and together they exceed the total by at most
   total/10000 + 1.
   */
  lemma RebuiltClose(fii: int, fixedIncome: int)
    requires fii >= 0 && fixedIncome >= 0
    ensures var total, r := fii + fixedIncome, Rebuilt(PublishedFacts(fii, fixedIncome));
            && Abs(20000 * (ValueOf(r, Fii) - fii)) <= total + FULL
            && Abs(20000 * (ValueOf(r, FixedIncome) - fixedIncome)) <= total + FULL
            && FULL * (ValueOf(r, Fii) + ValueOf(r, FixedIncome) - total) <= total + FULL
  {
    RebuiltValues(fii, fixedIncome);
    if fii + fixedIncome > 0 {
      ValueRoundTrip(fii, fii + fixedIncome);
      ValueRoundTrip(fixedIncome, fii + fixedIncome);
    }
  }

  /**
   Through the engine, where the class values come back from rounded shares, a funded class ends below its
   target plus contribution/10000 plus one and a half basis points of the patrimony plus two and a half
   centavos.
   */
  lemma GroundedSplitBounded(fii: int, fixedIncome: int, risk: Risk, contribution: int, c: AssetClass)
    requires fii >= 0 && fixedIncome >= 0 && contribution > 0 && SplitClass(c)
    requires ShareOfClass(Rebuilt(PublishedFacts(fii, fixedIncome)), risk, contribution, c) > 0
    ensures var total, r := fii + fixedIncome, Rebuilt(PublishedFacts(fii, fixedIncome));
            var held := if c == Fii then fii else fixedIncome;
            20000 * (held + AmountOfClass(r, risk, contribution, c))
            < 20000 * TargetValue(r, risk, contribution, c) + 2 * contribution + 3 * total + 40000 + FULL
  {
    var total, r := fii + fixedIncome, Rebuilt(PublishedFacts(fii, fixedIncome));
    RebuiltValues(fii, fixedIncome);
    RebuiltClose(fii, fixedIncome);
    SplitBounded(r, risk, contribution, c, Positive(ValueOf(r, Fii) + ValueOf(r, FixedIncome) - total));
  }

  /**
   A target that the contribution moves is only covered at a share that is no larger when it moves by less than
   a centavo.
   */
  lemma CoveredTarget(total: int, contribution: int, target: int, share: int)
    requires total > 0 && contribution > 0 && target > 0 && share <= target
    requires ApplyBps(total + contribution, target) <= ApplyBps(total, share)
    ensures contribution * target < FULL
  {
    ApplyMonotone(total, total, share, target);
    assert (total + contribution) * target == total * target + contribution * target;
  }

  lemma FiveDivides(x: int, y: int, total: int)
    requires x * total == 5 * y && total % 5 != 0
    ensures x % 5 == 0 && (x / 5) * total == y
  {
    var q, r := x / 5, x % 5;
    Expanded(q, r, total);
    TimesIsProduct(r, total);
    FiveOnly(r, y - q * total, total);
  }

  lemma Expanded(q: int, r: int, total: int)
    ensures (5 * q + r) * total == 5 * (q * total) + r * total
  {
  }

  /** r * total, for one of the five remainders. */
  function Times(r: int, total: int): int {
    if r <= 0 then 0
    else if r == 1 then total
    else if r == 2 then 2 * total
    else if r == 3 then 3 * total
    else 4 * total
  }

  lemma TimesIsProduct(r: int, total: int)
    requires 0 <= r < 5
    ensures r * total == Times(r, total)
  {
  }

  lemma FiveOnly(r: int, z: int, total: int)
    requires 0 <= r < 5 && total % 5 != 0
    ensures Times(r, total) == 5 * z ==> r == 0
  {
  }

  /**
   An odd half-share that gives whole centavos of a total which five does not divide: 625 divides it, and 32 the
   rest.
   */
  lemma HalfShare(m: int, total: int, part: int)
    requires m * total == 20000 * part && total % 5 != 0
    ensures m % 625 == 0 && (m / 625) * total == 32 * part
  {
    FiveDivides(m, 4000 * part, total);
    FiveDivides(m / 5, 800 * part, total);
    FiveDivides(m / 5 / 5, 160 * part, total);
    FiveDivides(m / 5 / 5 / 5, 32 * part, total);
  }

  /** At most 2999.5 basis points, of an even total that five does not divide, leave the total too much room. */
  lemma HalfShareTooLow(m: int, k: int, total: int, part: int)
    requires m == 5999 - 2 * k && 0 <= k < 3000 && total > 0 && total % 10 in {2, 6}
    requires m * total == 20000 * part
    ensures total * k > 3000
  {
    HalfShare(m, total, part);
    var j := m / 625;
    assert j in {1, 3, 5, 7, 9};
    assert total >= 32 by {
      assert j * total == 32 * part;
    }
    assert k >= 187;
    MulAtMost(total, 186, k);
  }

  lemma OddTimes(share: int, total: int, part: int)
    requires (2 * share - 1) * total == 20000 * part
    ensures total % 2 == 0
  {
    Doubled(share, total);
    EvenDifference(share * total, 10000 * part, total);
  }

  lemma Doubled(share: int, total: int)
    ensures (2 * share - 1) * total == 2 * (share * total) - total
  {
  }

  lemma EvenDifference(x: int, y: int, total: int)
    requires 2 * x - total == 2 * y
    ensures total % 2 == 0
  {
    assert total == 2 * (x - y);
  }

  lemma EvenDigit(total: int)
    requires total % 10 in {2, 5, 6, 9} && total % 2 == 0
    ensures total % 10 in {2, 6}
  {
  }

  lemma TieTooLow(part: int, total: int, share: int)
    requires total > 0 && total % 10 in {2, 5, 6, 9} && 0 < share <= 3000
    requires (2 * share - 1) * total == 20000 * part
    ensures total * (3000 - share) > 3000
  {
    OddTimes(share, total, part);
    EvenDigit(total);
    HalfShareTooLow(2 * share - 1, 3000 - share, total, part);
  }

  /** The class with the target of 30%, at a share that was rounded up from a tie and is not above its target. */
  lemma TieBelowTarget(part: int, total: int, share: int, contribution: int)
    requires part >= 0 && total > 0 && 0 < share <= 3000 && contribution >= 2
    requires (2 * share - 1) * total == 20000 * part
    ensures ApplyBps(total + contribution, 3000) > ApplyBps(total, share)
  {
    if total % 10 in {2, 5, 6, 9} {
      TieTooLow(part, total, share);
    }
    if ApplyBps(total + contribution, 3000) <= ApplyBps(total, share) {
      TieRoom(total, share, contribution);
    }
  }

  lemma TieRoom(total: int, share: int, contribution: int)
    requires total > 0 && share <= 3000 && contribution >= 2
    requires ApplyBps(total + contribution, 3000) <= ApplyBps(total, share)
    ensures total * (3000 - share) <= 3000
    ensures total % 10 in {2, 5, 6, 9}
  {
    var r := ApplyBps(total + contribution, 3000);
    ShareBelow(total, share);
    ApplyBelow(total + contribution, 3000);
    ApplyAtLeast(total, share, r);
    Room(total, contribution, r, total * (3000 - share));
  }

  lemma ShareBelow(total: int, share: int)
    requires total > 0 && share <= 3000
    ensures total * share == 3000 * total - total * (3000 - share) && total * (3000 - share) >= 0
  {
  }

  lemma ApplyBelow(amount: int, bps: int)
    requires amount > 0 && bps > 0
    ensures 2 * (amount * bps) < 2 * FULL * ApplyBps(amount, bps) + FULL
  {
  }

  lemma ApplyAtLeast(amount: int, bps: int, r: int)
    requires r <= ApplyBps(amount, bps) && amount > 0
    ensures r > 0 ==> 2 * (amount * bps) >= 2 * FULL * r - FULL
  {
  }

  lemma Room(total: int, contribution: int, r: int, y: int)
    requires total > 0 && contribution >= 2 && y >= 0
    requires 6000 * (total + contribution) - 20000 * r < 10000
    requires r > 0 ==> 6000 * total - 2 * y >= 20000 * r - 10000
    ensures y <= 3000 && total % 10 in {2, 5, 6, 9}
  {
    var e := 3 * total + 5 - 10 * r;
    assert 0 <= e <= 3;
  }

  lemma TieShare(part: int, total: int)
    requires part >= 0 && total > 0 && 2 * ((part * FULL) % total) == total
    ensures ShareBps(part, total) > 0 && (2 * ShareBps(part, total) - 1) * total == 20000 * part
  {
    var x := part * FULL;
    var b := x / total;
    DivBounds(x, total);
    assert x == total * b + x % total;
    TimesNext(b, total);
    ShareUnique(part, total, b + 1);
  }

  lemma TimesNext(b: int, total: int)
    ensures (b + 1) * total == total * b + total && (2 * (b + 1) - 1) * total == 2 * (total * b) + total
  {
  }

  /** Values rebuilt from rounded shares do not cover both targets, for two centavos or more. */
  lemma TwoCentavosUncovered(part: int, other: int, contribution: int)
    requires part >= 0 && other >= 0 && part + other > 0 && contribution >= 2
    requires ShareBps(part, part + other) <= 3000
    ensures var total := part + other;
            || ApplyBps(total + contribution, 3000) > ApplyBps(total, ShareBps(part, total))
            || ApplyBps(total + contribution, 7000) > ApplyBps(total, ShareBps(other, total))
  {
    var total := part + other;
    var share := ShareBps(part, total);
    if 2 * ((part * FULL) % total) == total {
      TieShare(part, total);
      TieBelowTarget(part, total, share, contribution);
    } else {
      assert ShareBps(other, total) == FULL - share by {
        TwoShares(part, other);
      }
      TwoAmounts(total, share);
      TwoAmounts(total + contribution, 3000);
    }
  }

  /** The value that comes back from a share falls short of the target. */
  ghost predicate Short(total: int, contribution: int, target: int, share: int) {
    ApplyBps(total + contribution, target) > ApplyBps(total, share)
  }

  lemma ShortOfNothing(contribution: int, target: int)
    requires contribution >= 2 && target >= 3000
    ensures Short(0, contribution, target, 0)
  {
    ApplyMonotone(2, contribution, 3000, target);
  }

  /** When the class at `part` has a share that is not above its target. */
  lemma ShortBelow(part: int, other: int, contribution: int, target: int, rest: int)
    requires part >= 0 && other >= 0 && part + other > 0 && contribution >= 2
    requires target in {3000, 5000, 7000} && rest == FULL - target
    ensures ShareBps(part, part + other) <= target ==>
              || Short(part + other, contribution, target, ShareBps(part, part + other))
              || Short(part + other, contribution, rest, ShareBps(other, part + other))
  {
    var total := part + other;
    if ShareBps(part, total) <= target && !Short(total, contribution, target, ShareBps(part, total)) {
      CoveredTarget(total, contribution, target, ShareBps(part, total));
      assert target == 3000;
      TwoCentavosUncovered(part, other, contribution);
    }
  }

  lemma OneIsShort(fii: int, fixedIncome: int, contribution: int, target: int, rest: int)
    requires fii >= 0 && fixedIncome >= 0 && contribution >= 2
    requires target in {3000, 5000, 7000} && rest == FULL - target
    ensures || Short(fii + fixedIncome, contribution, target, ShareBps(fii, fii + fixedIncome))
            || Short(fii + fixedIncome, contribution, rest, ShareBps(fixedIncome, fii + fixedIncome))
  {
    if fii + fixedIncome == 0 {
      ShortOfNothing(contribution, target);
    } else {
      assert ShareBps(fii, fii + fixedIncome) <= target || ShareBps(fixedIncome, fii + fixedIncome) <= rest by {
        TwoShares(fii, fixedIncome);
      }
      ShortBelow(fii, fixedIncome, contribution, target, rest);
      ShortBelow(fixedIncome, fii, contribution, rest, target);
    }
  }

  lemma GapIsShort(fii: int, fixedIncome: int, risk: Risk, contribution: int, c: AssetClass)
    requires fii >= 0 && fixedIncome >= 0 && SplitClass(c)
    ensures Gap(Rebuilt(PublishedFacts(fii, fixedIncome)), risk, contribution, c) > 0
       <==> Short(fii + fixedIncome, contribution, TargetShare(risk, c),
                  ShareBps(Held(fii, fixedIncome, c), fii + fixedIncome))
  {
    RebuiltValues(fii, fixedIncome);
  }

  /**
   Through the engine, a contribution of two centavos or more always finds a class below its target, so that
   the target-mix fallback is not taken.
   */
  lemma TwoCentavosFindAGap(fii: int, fixedIncome: int, risk: Risk, contribution: int)
    requires fii >= 0 && fixedIncome >= 0 && contribution >= 2
    ensures AnyGap(Rebuilt(PublishedFacts(fii, fixedIncome)), risk, contribution)
  {
    GapIsShort(fii, fixedIncome, risk, contribution, Fii);
    GapIsShort(fii, fixedIncome, risk, contribution, FixedIncome);
    OneIsShort(fii, fixedIncome, contribution, TargetShare(risk, Fii), TargetShare(risk, FixedIncome));
  }

  /** With these class values and a contribution of one centavo no class is below its target. */
  lemma FallbackReached()
    ensures !AnyGap(Rebuilt(PublishedFacts(5999, 14001)), Conservative, 1)
  {
    RebuiltValues(5999, 14001);
    ShareUnique(5999, 20000, 3000);
    ShareUnique(14001, 20000, 7001);
  }

  /** A class at or above its target, by the values that the split is given, is funded. */
  ghost predicate FundsAboveTarget(current: Allocation, risk: Risk, contribution: int) {
    exists c :: SplitClass(c) && Gap(current, risk, contribution, c) <= 0
                && ShareOfClass(current, risk, contribution, c) != 0
  }

  /** Exactly the fallback funds a class at or above its target. */
  lemma FallbackFundsAboveTarget(current: Allocation, risk: Risk, contribution: int)
    ensures FundsAboveTarget(current, risk, contribution) <==> !AnyGap(current, risk, contribution)
  {
    ComplementaryShares(current, risk, contribution);
    if !AnyGap(current, risk, contribution) {
      var c := if ShareOfClass(current, risk, contribution, Fii) != 0 then Fii else FixedIncome;
      assert SplitClass(c) && Gap(current, risk, contribution, c) <= 0;
    }
  }

  /**
   By the rebuilt values the engine funds only classes below target, for every portfolio and profile, exactly
   when two centavos or more come in.
   */
  lemma GroundedSplitFundsGaps(contribution: int)
    requires contribution > 0
    ensures (forall fii, fixedIncome, risk :: fii >= 0 && fixedIncome >= 0 ==>
               !FundsAboveTarget(Rebuilt(PublishedFacts(fii, fixedIncome)), risk, contribution))
       <==> contribution >= 2
  {
    if contribution >= 2 {
      forall fii, fixedIncome, risk | fii >= 0 && fixedIncome >= 0
        ensures !FundsAboveTarget(Rebuilt(PublishedFacts(fii, fixedIncome)), risk, contribution)
      {
        TwoCentavosFindAGap(fii, fixedIncome, risk, contribution);
        FallbackFundsAboveTarget(Rebuilt(PublishedFacts(fii, fixedIncome)), risk, contribution);
      }
    } else {
      FallbackReached();
      FallbackFundsAboveTarget(Rebuilt(PublishedFacts(5999, 14001)), Conservative, 1);
      assert FundsAboveTarget(Rebuilt(PublishedFacts(5999, 14001)), Conservative, contribution);
    }
  }

  // ---------------------------------------------------------------------------------------------
  // Which classes are funded, and how that looks by the values of the portfolio itself.

  /** Two remainders that are not 0 add up to the whole, and the larger one wins, the first one on a tie. */
  lemma OneWinner(a: int, b: int)
    requires a >= 0 && b >= 0 && a + b > 0
    ensures Total([a, b]) == a + b
    ensures Remainder(a, a + b) > 0 ==> Wins([a, b], 0) == (2 * Remainder(a, a + b) >= a + b)
  {
    var w, total := [a, b], a + b;
    TotalOfTwo(a, b);
    var r, q := Remainder(a, total), Remainder(b, total);
    if r > 0 {
      assert q == total - r && Base(a, total) + Base(b, total) == FULL - 1 by {
        TwoRemainders(a, b);
      }
      assert !(Wins(w, 0) && Wins(w, 1)) && (Wins(w, 0) || Wins(w, 1)) by {
        ShareOf(w, 0);
        ShareOf(w, 1);
        SharesOfTwo(a, b);
      }
      if 2 * r >= total && Wins(w, 1) {
        WinnersFirst(w, 0, 1);
      }
      if 2 * r < total && Wins(w, 0) {
        WinnersFirst(w, 1, 0);
      }
    }
  }

  lemma TwoRemainders(a: int, b: int)
    requires a >= 0 && b >= 0 && a + b > 0
    ensures Remainder(a, a + b) > 0 ==>
              && Remainder(b, a + b) == a + b - Remainder(a, a + b)
              && Base(a, a + b) + Base(b, a + b) == FULL - 1
  {
    var total := a + b;
    OneWholeOver(total, Base(a, total), Base(b, total), Remainder(a, total), Remainder(b, total));
  }

  lemma OneWholeOver(total: int, x: int, y: int, r: int, q: int)
    requires total > 0 && 0 <= r < total && 0 <= q < total
    ensures (x * total + r) + (y * total + q) == total * FULL && r > 0 ==> x + y == FULL - 1 && r + q == total
  {
    var k := FULL - x - y;
    assert total * k == total * FULL - x * total - y * total;
    MulAtMost(total, 0, k);
    MulAtMost(total, k, 0);
    MulAtMost(total, 1, k);
  }

  /** Of two weights the first one gets its nearest share, halves up, and the second one the rest. */
  lemma SharesOfPair(a: int, b: int)
    requires a >= 0 && b >= 0 && a + b > 0
    ensures Shares([a, b])[0] == ShareBps(a, a + b)
    ensures Shares([a, b])[1] == FULL - ShareBps(a, a + b)
  {
    var total := a + b;
    OneWinner(a, b);
    ShareOf([a, b], 0);
    FloorOrOneMore([a, b], 0);
    SharesOfTwo(a, b);
    NearestShare(a, total, Base(a, total), Remainder(a, total), Shares([a, b])[0]);
  }

  lemma NearestShare(a: int, total: int, base: int, r: int, share: int)
    requires a >= 0 && 0 <= r < total && a * FULL == base * total + r
    requires share == base + if r > 0 && 2 * r >= total then 1 else 0
    ensures ShareBps(a, total) == share
  {
    assert (base + 1) * total == base * total + total;
    ShareUnique(a, total, share);
  }

  /** A weight that is large enough for a share: half a basis point of the sum, and for the second class more. */
  predicate Enough(c: AssetClass, weight: int, sum: int) {
    if c == Fii then 20000 * weight >= sum else 20000 * weight > sum
  }

  lemma PairFunded(a: int, b: int)
    requires a >= 0 && b >= 0 && a + b > 0
    ensures Shares([a, b])[0] != 0 <==> Enough(Fii, a, a + b)
    ensures Shares([a, b])[1] != 0 <==> Enough(FixedIncome, b, a + b)
  {
    SharesOfPair(a, b);
    ShareIsZero(a, a + b);
    ShareIsFull(a, b);
  }

  lemma ShareIsZero(a: int, total: int)
    requires a >= 0 && total > 0
    ensures ShareBps(a, total) == 0 <==> 20000 * a < total
  {
    if 20000 * a < total {
      ShareUnique(a, total, 0);
    }
  }

  lemma ShareIsFull(a: int, b: int)
    requires a >= 0 && b >= 0 && a + b > 0
    ensures ShareBps(a, a + b) == FULL <==> 20000 * b <= a + b
  {
    var total := a + b;
    assert FULL * total == FULL * a + FULL * b;
    if 20000 * b <= total {
      ShareUnique(a, total, FULL);
    }
  }

  function SumOfGaps(current: Allocation, risk: Risk, contribution: int): int {
    Positive(Gap(current, risk, contribution, Fii)) + Positive(Gap(current, risk, contribution, FixedIncome))
  }

  /** A class is funded exactly when the fallback is taken, or its gap is positive and large enough for a share. */
  lemma FundedExactly(current: Allocation, risk: Risk, contribution: int, c: AssetClass)
    requires SplitClass(c)
    ensures ShareOfClass(current, risk, contribution, c) != 0
       <==> || !AnyGap(current, risk, contribution)
            || (Gap(current, risk, contribution, c) > 0
                && Enough(c, Gap(current, risk, contribution, c), SumOfGaps(current, risk, contribution)))
  {
    var w := Weights(current, risk, contribution);
    assert w == [w[0], w[1]];
    PairFunded(w[0], w[1]);
  }

  // ---------------------------------------------------------------------------------------------
  // The split in figures.

  /** The list in terms of the share of the FIIs: a class without a share is not in it. */
  lemma AreasOfTwo(current: Allocation, risk: Risk, contribution: int)
    ensures var s := ShareOfClass(current, risk, contribution, Fii);
            Areas(current, risk, contribution, SPLIT_CLASSES)
              == (if s == 0 then [] else [AreaShare(Fii, s, ApplyBps(contribution, s))])
                  + if s == FULL then [] else [AreaShare(FixedIncome, FULL - s, ApplyBps(contribution, FULL - s))]
  {
    ComplementaryShares(current, risk, contribution);
    assert SPLIT_CLASSES[..1] == [Fii] && [Fii][..0] == [];
    assert Areas(current, risk, contribution, []) == [];
  }

  lemma TargetFigures(current: Allocation, risk: Risk, contribution: int)
    requires current.total + contribution > 0
    ensures var future := current.total + contribution;
            var target := if risk == Conservative then 3000 else if risk == Aggressive then 7000 else 5000;
            && Nearest(ValueOf(current, Fii) + Gap(current, risk, contribution, Fii), future * target, 10000)
            && Nearest(ValueOf(current, FixedIncome) + Gap(current, risk, contribution, FixedIncome),
                       future * (10000 - target), 10000)
  {
  }

  lemma ShareFigures(current: Allocation, risk: Risk, contribution: int)
    ensures var target := if risk == Conservative then 3000 else if risk == Aggressive then 7000 else 5000;
            var (a, b) := (Gap(current, risk, contribution, Fii), Gap(current, risk, contribution, FixedIncome));
            var share := ShareOfClass(current, risk, contribution, Fii);
            if a <= 0 && b <= 0 then share == target
            else if b <= 0 then share == 10000
            else if a <= 0 then share == 0
            else Nearest(share, a * 10000, a + b)
  {
    var w := Weights(current, risk, contribution);
    assert w == [w[0], w[1]];
    SharesOfPair(w[0], w[1]);
    ComplementaryShares(current, risk, contribution);
    if !AnyGap(current, risk, contribution) {
      ShareUnique(w[0], FULL, w[0]);
    }
  }

  lemma AmountFigures(contribution: int, share: int)
    requires contribution > 0 && share >= 0
    ensures Nearest(ApplyBps(contribution, share), contribution * share, 10000)
  {
  }

  /**
   The whole split in numbers. The FII target is 30% for a conservative profile, 70% for an aggressive one, and
   50% otherwise, of what the patrimony is after the contribution, and fixed income has the rest; the gaps are what
   is missing to them. The FIIs get their share of the positive gaps, or their target when there is none, fixed
   income gets the rest, and a class without a share is not listed.
   */
  lemma SplitInFigures(current: Allocation, risk: Risk, contribution: int)
    returns (fiiGap: int, fixedGap: int, share: int, fiiAmount: int, fixedAmount: int)
    requires contribution > 0 && current.total + contribution > 0
    ensures var future := current.total + contribution;
            var target := if risk == Conservative then 3000 else if risk == Aggressive then 7000 else 5000;
            && Nearest(ValueOf(current, Fii) + fiiGap, future * target, 10000)
            && Nearest(ValueOf(current, FixedIncome) + fixedGap, future * (10000 - target), 10000)
            && if fiiGap <= 0 && fixedGap <= 0 then share == target
               else if fixedGap <= 0 then share == 10000
               else if fiiGap <= 0 then share == 0
               else Nearest(share, fiiGap * 10000, fiiGap + fixedGap)
    ensures 0 <= share <= 10000
    ensures Nearest(fiiAmount, contribution * share, 10000)
    ensures Nearest(fixedAmount, contribution * (10000 - share), 10000)
    ensures Areas(current, risk, contribution, SPLIT_CLASSES)
         == (if share == 0 then [] else [AreaShare(Fii, share, fiiAmount)])
            + if share == 10000 then [] else [AreaShare(FixedIncome, 10000 - share, fixedAmount)]
  {
    fiiGap := Gap(current, risk, contribution, Fii);
    fixedGap := Gap(current, risk, contribution, FixedIncome);
    share := ShareOfClass(current, risk, contribution, Fii);
    fiiAmount, fixedAmount := ApplyBps(contribution, share), ApplyBps(contribution, FULL - share);
    TargetFigures(current, risk, contribution);
    ShareFigures(current, risk, contribution);
    ComplementaryShares(current, risk, contribution);
    AmountFigures(contribution, share);
    AmountFigures(contribution, FULL - share);
    AreasOfTwo(current, risk, contribution);
  }

  lemma TenthsOf(k: int, part: int, target: int)
    requires k > 0 && (part, target) in {(3 * k, 3000), (5 * k, 5000), (7 * k, 7000)}
    ensures ApplyBps(10 * k, target) == part && ShareBps(part, 10 * k) == target
  {
    if target == 3000 {
      ShareUnique(3 * k, 10 * k, 3000);
    } else if target == 5000 {
      ShareUnique(5 * k, 10 * k, 5000);
    } else {
      ShareUnique(7 * k, 10 * k, 7000);
    }
  }

  lemma EmptySplit(current: Allocation, risk: Risk, k: int, part: int, rest: int)
    requires k > 0 && current.total == 0 && ValueOf(current, Fii) == 0 == ValueOf(current, FixedIncome)
    requires (part, TargetShare(risk, Fii)) in {(3 * k, 3000), (5 * k, 5000), (7 * k, 7000)} && rest == 10 * k - part
    ensures Areas(current, risk, 10 * k, SPLIT_CLASSES)
         == [AreaShare(Fii, TargetShare(risk, Fii), part), AreaShare(FixedIncome, TargetShare(risk, FixedIncome), rest)]
  {
    TenthsOf(k, part, TargetShare(risk, Fii));
    TenthsOf(k, rest, TargetShare(risk, FixedIncome));
    assert Weights(current, risk, 10 * k) == [part, rest];
    SharesOfPair(part, rest);
    AreasOfTwo(current, risk, 10 * k);
  }

  /** Into an empty portfolio the contribution goes by the targets: 3 to 7, 7 to 3, or half and half. */
  lemma EmptySplitByTargets(current: Allocation, risk: Risk, k: int)
    requires k > 0 && current.total == 0 && ValueOf(current, Fii) == 0 == ValueOf(current, FixedIncome)
    ensures Areas(current, risk, 10 * k, SPLIT_CLASSES)
         == if risk == Conservative then [AreaShare(Fii, 3000, 3 * k), AreaShare(FixedIncome, 7000, 7 * k)]
            else if risk == Aggressive then [AreaShare(Fii, 7000, 7 * k), AreaShare(FixedIncome, 3000, 3 * k)]
            else [AreaShare(Fii, 5000, 5 * k), AreaShare(FixedIncome, 5000, 5 * k)]
  {
    if risk == Conservative {
      EmptySplit(current, risk, k, 3 * k, 7 * k);
    } else if risk == Aggressive {
      EmptySplit(current, risk, k, 7 * k, 3 * k);
    } else {
      EmptySplit(current, risk, k, 5 * k, 5 * k);
    }
  }

  /** What the portfolio itself holds in a class. */
  function Held(fii: int, fixedIncome: int, c: AssetClass): int {
    if c == Fii then fii else fixedIncome
  }

  /** The engine funds a class that the portfolio itself holds at or above its target. */
  ghost predicate FundsFullClass(fii: int, fixedIncome: int, risk: Risk, contribution: int, c: AssetClass) {
    var r := Rebuilt(PublishedFacts(fii, fixedIncome));
    && Held(fii, fixedIncome, c) >= TargetValue(r, risk, contribution, c)
    && ShareOfClass(r, risk, contribution, c) != 0
  }

  /** The target lies above the rebuilt value and not above the held one, and this gap is large enough for a share. */
  ghost predicate GapOfRounding(fii: int, fixedIncome: int, risk: Risk, contribution: int, c: AssetClass) {
    var r := Rebuilt(PublishedFacts(fii, fixedIncome));
    && ValueOf(r, c) < TargetValue(r, risk, contribution, c) <= Held(fii, fixedIncome, c)
    && Enough(c, TargetValue(r, risk, contribution, c) - ValueOf(r, c), SumOfGaps(r, risk, contribution))
  }

  /** With two centavos or more that happens exactly when rounding alone opens the gap. */
  lemma FullClassExactly(fii: int, fixedIncome: int, risk: Risk, contribution: int, c: AssetClass)
    requires fii >= 0 && fixedIncome >= 0 && contribution >= 2 && SplitClass(c)
    ensures FundsFullClass(fii, fixedIncome, risk, contribution, c)
       <==> GapOfRounding(fii, fixedIncome, risk, contribution, c)
  {
    TwoCentavosFindAGap(fii, fixedIncome, risk, contribution);
    FundedExactly(Rebuilt(PublishedFacts(fii, fixedIncome)), risk, contribution, c);
  }

  /** No funded class is held above its target by more than half a basis point of the patrimony less half a centavo. */
  lemma FullClassBounded(fii: int, fixedIncome: int, risk: Risk, contribution: int, c: AssetClass)
    requires fii >= 0 && fixedIncome >= 0 && contribution >= 2 && SplitClass(c)
    requires ShareOfClass(Rebuilt(PublishedFacts(fii, fixedIncome)), risk, contribution, c) != 0
    ensures var target := TargetValue(Rebuilt(PublishedFacts(fii, fixedIncome)), risk, contribution, c);
            20000 * (Held(fii, fixedIncome, c) - target) <= fii + fixedIncome - FULL
  {
    TwoCentavosFindAGap(fii, fixedIncome, risk, contribution);
    FundedExactly(Rebuilt(PublishedFacts(fii, fixedIncome)), risk, contribution, c);
    RebuiltClose(fii, fixedIncome);
  }

  /** So up to 10000 centavos the engine funds only classes that the portfolio itself holds below target. */
  lemma SmallPortfoliosFundGaps(fii: int, fixedIncome: int, risk: Risk, contribution: int, c: AssetClass)
    requires fii >= 0 && fixedIncome >= 0 && fii + fixedIncome <= FULL && contribution >= 2 && SplitClass(c)
    ensures !FundsFullClass(fii, fixedIncome, risk, contribution, c)
  {
    if FundsFullClass(fii, fixedIncome, risk, contribution, c) {
      FullClassBounded(fii, fixedIncome, risk, contribution, c);
      FullClassExactly(fii, fixedIncome, risk, contribution, c);
      ExactShares(fii, fixedIncome);
    }
  }

  /** A patrimony of 10000 centavos has exact shares. */
  lemma ExactShares(fii: int, fixedIncome: int)
    requires fii >= 0 && fixedIncome >= 0 && fii + fixedIncome == FULL
    ensures var r := Rebuilt(PublishedFacts(fii, fixedIncome));
            ValueOf(r, Fii) == fii && ValueOf(r, FixedIncome) == fixedIncome
  {
    RebuiltValues(fii, fixedIncome);
    ShareUnique(fii, FULL, fii);
    ShareUnique(fixedIncome, FULL, fixedIncome);
  }

  /** A portfolio whose FII value loses d centavos in its share, which just stays below the tie. */
  function Lossy(d: nat): (int, int) {
    (3000 * (2 * d + 1) + d, 7000 * (2 * d + 1) - d)
  }

  lemma LossyShares(d: nat)
    ensures var (fii, fixedIncome) := Lossy(d);
            && fixedIncome > 0 && fii + fixedIncome == 10000 * (2 * d + 1)
            && ShareBps(fii, fii + fixedIncome) == 3000 && ShareBps(fixedIncome, fii + fixedIncome) == 7000
  {
    var (fii, fixedIncome) := Lossy(d);
    ShareUnique(fii, fii + fixedIncome, 3000);
    ShareUnique(fixedIncome, fii + fixedIncome, 7000);
  }

  lemma LossyRebuilt(d: nat)
    ensures var (fii, fixedIncome) := Lossy(d);
            var r := Rebuilt(PublishedFacts(fii, fixedIncome));
            fixedIncome > 0 && r.total == fii + fixedIncome == 10000 * (2 * d + 1)
            && ValueOf(r, Fii) == 3000 * (2 * d + 1) && ValueOf(r, FixedIncome) == 7000 * (2 * d + 1)
  {
    var (fii, fixedIncome) := Lossy(d);
    LossyShares(d);
    RebuiltValues(fii, fixedIncome);
  }

  lemma ApplyShift(k: int, contribution: int, bps: int)
    requires k >= 0 && contribution > 0 && bps > 0
    ensures ApplyBps(10000 * k + contribution, bps) == bps * k + ApplyBps(contribution, bps)
  {
    assert (10000 * k + contribution) * bps == 10000 * (bps * k) + contribution * bps;
    assert bps * k >= 0;
  }

  lemma LossyGaps(d: nat, contribution: int)
    requires contribution > 0
    ensures var (fii, fixedIncome) := Lossy(d);
            var r := Rebuilt(PublishedFacts(fii, fixedIncome));
            && TargetValue(r, Conservative, contribution, Fii) == 3000 * (2 * d + 1) + ApplyBps(contribution, 3000)
            && Gap(r, Conservative, contribution, Fii) == ApplyBps(contribution, 3000)
            && Gap(r, Conservative, contribution, FixedIncome) == ApplyBps(contribution, 7000)
  {
    LossyRebuilt(d);
    ApplyShift(2 * d + 1, contribution, 3000);
    ApplyShift(2 * d + 1, contribution, 7000);
  }

  lemma LossyIsFunded(d: nat, contribution: int)
    requires contribution >= 2 && d == ApplyBps(contribution, 3000) + 1
    ensures var (fii, fixedIncome) := Lossy(d);
            FundsFullClass(fii, fixedIncome, Conservative, contribution, Fii)
  {
    var (fii, fixedIncome) := Lossy(d);
    LossyRebuilt(d);
    LossyGaps(d, contribution);
    TwoAmounts(contribution, 3000);
    FundedExactly(Rebuilt(PublishedFacts(fii, fixedIncome)), Conservative, contribution, Fii);
  }

  lemma OneCentavoFundsFullClass()
    ensures FundsFullClass(5999, 14001, Conservative, 1, FixedIncome)
  {
    FallbackReached();
    RebuiltValues(5999, 14001);
    FundedExactly(Rebuilt(PublishedFacts(5999, 14001)), Conservative, 1, FixedIncome);
  }

  /** No contribution rules it out: each one funds, in some portfolio, a class that is held at or above its target. */
  lemma EveryContributionFundsFullClass(contribution: int)
    requires contribution > 0
    ensures exists fii, fixedIncome, c ::
              fii >= 0 && fixedIncome >= 0 && SplitClass(c)
              && FundsFullClass(fii, fixedIncome, Conservative, contribution, c)
  {
    if contribution == 1 {
      OneCentavoFundsFullClass();
      assert SplitClass(FixedIncome) && FundsFullClass(5999, 14001, Conservative, contribution, FixedIncome);
    } else {
      var d := ApplyBps(contribution, 3000) + 1;
      var (fii, fixedIncome) := Lossy(d);
      LossyIsFunded(d, contribution);
      assert SplitClass(Fii) && FundsFullClass(fii, fixedIncome, Conservative, contribution, Fii);
    }
  }

  /** One such case: FIIs already 1000 centavos above their target of 30003000 get 3000 of 10000 more. */
  lemma FullClassFunded(fii: int, fixedIncome: int, contribution: int)
    requires fii == 30004000 && fixedIncome == 69996000 && contribution == 10000
    ensures var r := Rebuilt(PublishedFacts(fii, fixedIncome));
            && TargetValue(r, Conservative, contribution, Fii) == 30003000 == fii - 1000
            && AmountOfClass(r, Conservative, contribution, Fii) == 3000
            && FundsFullClass(fii, fixedIncome, Conservative, contribution, Fii)
  {
    var r := Rebuilt(PublishedFacts(fii, fixedIncome));
    RebuiltValues(fii, fixedIncome);
    ShareUnique(fii, 100000000, 3000);
    ShareUnique(fixedIncome, 100000000, 7000);
    assert Weights(r, Conservative, contribution) == [3000, 7000];
    SharesOfPair(3000, 7000);
    ShareUnique(3000, 10000, 3000);
  }

  // ---------------------------------------------------------------------------------------------
  // The illustrative shares of the candidates.

  datatype Candidate = Candidate(ticker: string, share: int)

  function EvenShare(n: nat, bps: int, i: nat): int
    requires n > 0
  {
    bps / n + if i < bps - bps / n * n then 1 else 0
  }

  /** assignIllustrativeShares: nothing without candidates or without a share; otherwise an even division in place. */
  method AssignIllustrativeShares(candidates: array<Candidate>, bps: int)
    modifies candidates
    ensures candidates.Length == 0 || bps <= 0 ==> candidates[..] == old(candidates[..])
    ensures bps > 0 ==> forall k :: 0 <= k < candidates.Length ==>
              candidates[k] == old(candidates[k]).(share := EvenShare(candidates.Length, bps, k))
  {
    var n := candidates.Length;
    if n == 0 || bps <= 0 {
      return;
    }
    var base := bps / n;
    var remainder := bps - base * n;
    for i := 0 to n
      invariant forall k :: 0 <= k < i ==> candidates[k] == old(candidates[k]).(share := EvenShare(n, bps, k))
      invariant forall k :: i <= k < n ==> candidates[k] == old(candidates[k])
    {
      candidates[i] := candidates[i].(share := base);
      if i < remainder {
        candidates[i] := candidates[i].(share := candidates[i].share + 1);
      }
    }
  }

  function EvenShares(n: nat, bps: int, m: nat): (s: seq<int>)
    requires n > 0
    ensures |s| == m && forall i :: 0 <= i < m ==> s[i] == EvenShare(n, bps, i)
  {
    if m == 0 then [] else EvenShares(n, bps, m - 1) + [EvenShare(n, bps, m - 1)]
  }

  lemma MulMinusOne(m: int, b: int)
    ensures (m - 1) * b == m * b - b
  {
  }

  lemma {:induction false} EvenPrefix(n: nat, bps: int, m: nat)
    requires n > 0 && bps >= 0
    ensures var remainder := bps - bps / n * n;
            Sum(EvenShares(n, bps, m)) == m * (bps / n) + if m < remainder then m else remainder
  {
    DivBounds(bps, n);
    if m == 0 {
    } else {
      EvenPrefix(n, bps, m - 1);
      assert EvenShares(n, bps, m)[..m - 1] == EvenShares(n, bps, m - 1);
      MulMinusOne(m, bps / n);
    }
  }

  /** The even division gives out exactly the area's share, in parts that never grow and differ by at most 1. */
  lemma EvenSharesConserve(n: nat, bps: int)
    requires n > 0 && bps >= 0
    ensures Sum(EvenShares(n, bps, n)) == bps
    ensures forall i, j :: 0 <= i <= j < n ==> 0 <= EvenShare(n, bps, i) - EvenShare(n, bps, j) <= 1
  {
    DivBounds(bps, n);
    EvenPrefix(n, bps, n);
  }
}
