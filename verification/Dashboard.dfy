/** The dashboard figures of internal/dashboard/compute.go. */
module Dashboard {
  import opened Arithmetic
  import opened Ratio
  import opened Split

  /** The listed sectors, and any other name a quote may carry. */
  datatype Sector = Logistics | Offices | Shopping | Hybrid | Paper | Other | Unlisted(name: string)

  const SECTOR_ORDER: seq<Sector> := [Logistics, Offices, Shopping, Hybrid, Paper, Other]

  datatype Quote = Quote(price: int, lastDividend: int, sector: Sector)

  datatype FiiHolding = FiiHolding(ticker: string, quantity: int, averagePrice: int)

  datatype FixedIncomeHolding = FixedIncomeHolding(invested: int, rateBps: int, createdAt: int, daily: bool)

  datatype Holdings = Holdings(fii: seq<FiiHolding>, fixedIncome: seq<FixedIncomeHolding>)

  type Quotes = map<string, Quote>

  datatype Summary = Summary(invested: int, current: int, monthlyIncome: int, growth: int, growthBps: int)

  datatype ClassSlice = ClassSlice(assetClass: AssetClass, value: int, share: int)

  datatype SectorSlice = SectorSlice(sector: Sector, value: int, share: int)

  datatype Dashboard = Dashboard(summary: Summary, allocation: seq<ClassSlice>, sectors: seq<SectorSlice>,
      stale: seq<string>)

  /** Nanoseconds in a day. */
  const DAY: int := 24 * 60 * 60 * 1_000_000_000

  function DaysBetween(from: int, to: int): (days: int)
    ensures to <= from ==> days == 0
    ensures from <= to ==> days * 86_400_000_000_000 <= to - from < (days + 1) * 86_400_000_000_000
  {
    if to - from < 0 then 0 else (to - from) / DAY
  }

  // ---------------------------------------------------------------------------------------------
  // One holding.

  function InvestedFii(h: FiiHolding): int {
    h.averagePrice * h.quantity
  }

  /** A holding without a quote is valued at cost and counted in the sector Other. */
  function CurrentFii(h: FiiHolding, quotes: Quotes): int {
    if h.ticker in quotes then quotes[h.ticker].price * h.quantity else InvestedFii(h)
  }

  function SectorOf(h: FiiHolding, quotes: Quotes): Sector {
    if h.ticker in quotes then quotes[h.ticker].sector else Other
  }

  function IncomeFii(h: FiiHolding, quotes: Quotes): int {
    if h.ticker in quotes then quotes[h.ticker].lastDividend * h.quantity else 0
  }

  function CurrentFixed(h: FixedIncomeHolding, now: int): int {
    h.invested + AccrueSimpleInterest(h.invested, h.rateBps, DaysBetween(h.createdAt, now))
  }

  // ---------------------------------------------------------------------------------------------
  // Measures over all holdings.

  function FiiCost(): FiiHolding -> int {
    h => InvestedFii(h)
  }

  function FiiValue(quotes: Quotes): FiiHolding -> int {
    h => CurrentFii(h, quotes)
  }

  function FiiIncome(quotes: Quotes): FiiHolding -> int {
    h => IncomeFii(h, quotes)
  }

  function ValueInSector(quotes: Quotes, s: Sector): FiiHolding -> int {
    h => if SectorOf(h, quotes) == s then CurrentFii(h, quotes) else 0
  }

  function FixedCost(): FixedIncomeHolding -> int {
    (h: FixedIncomeHolding) => h.invested
  }

  function FixedValue(now: int): FixedIncomeHolding -> int {
    h => CurrentFixed(h, now)
  }

  function SectorsHeld(fii: seq<FiiHolding>, quotes: Quotes): set<Sector> {
    set i | 0 <= i < |fii| :: SectorOf(fii[i], quotes)
  }

  function Stale(fii: seq<FiiHolding>, quotes: Quotes): seq<string> {
    if fii == [] then []
    else
      var n := |fii| - 1;
      Stale(fii[..n], quotes) + if fii[n].ticker in quotes then [] else [fii[n].ticker]
  }

  function FiiTotal(h: Holdings, quotes: Quotes): int {
    SumOf(h.fii, FiiValue(quotes))
  }

  function FixedTotal(h: Holdings, now: int): int {
    SumOf(h.fixedIncome, FixedValue(now))
  }

  function SummaryOf(h: Holdings, quotes: Quotes, now: int): Summary {
    var invested := SumOf(h.fii, FiiCost()) + SumOf(h.fixedIncome, FixedCost());
    var current := FiiTotal(h, quotes) + FixedTotal(h, now);
    Summary(invested, current, SumOf(h.fii, FiiIncome(quotes)), current - invested,
        ShareBps(current - invested, invested))
  }

  function AllocationOf(fii: int, fixedIncome: int, total: int): seq<ClassSlice> {
    [ClassSlice(Fii, fii, ShareBps(fii, total)), ClassSlice(FixedIncome, fixedIncome, ShareBps(fixedIncome, total)),
     ClassSlice(Stocks, 0, 0), ClassSlice(Etfs, 0, 0)]
  }

  /** The sectors of the order that are held, with their values. */
  function SectorSlices(order: seq<Sector>, fii: seq<FiiHolding>, quotes: Quotes, total: int): seq<SectorSlice> {
    if order == [] then []
    else
      var n := |order| - 1;
      var value := SumOf(fii, ValueInSector(quotes, order[n]));
      SectorSlices(order[..n], fii, quotes, total)
      + if order[n] in SectorsHeld(fii, quotes) then [SectorSlice(order[n], value, ShareBps(value, total))] else []
  }

  function DashboardOf(h: Holdings, quotes: Quotes, now: int): Dashboard {
    var fii, fixedIncome := FiiTotal(h, quotes), FixedTotal(h, now);
    Dashboard(SummaryOf(h, quotes, now), AllocationOf(fii, fixedIncome, fii + fixedIncome),
              SectorSlices(SECTOR_ORDER, h.fii, quotes, fii), Stale(h.fii, quotes))
  }

  // ---------------------------------------------------------------------------------------------
  // The source's loops.

  /** The running map holds the value of each sector seen so far. */
  ghost predicate SectorMap(m: map<Sector, int>, fii: seq<FiiHolding>, quotes: Quotes) {
    m.Keys == SectorsHeld(fii, quotes) && forall s :: s in m ==> m[s] == SumOf(fii, ValueInSector(quotes, s))
  }

  lemma {:induction false} NotHeld(fii: seq<FiiHolding>, quotes: Quotes, s: Sector)
    requires s !in SectorsHeld(fii, quotes)
    ensures SumOf(fii, ValueInSector(quotes, s)) == 0
  {
    if fii == [] {
    } else {
      var n := |fii| - 1;
      assert SectorsHeld(fii[..n], quotes) <= SectorsHeld(fii, quotes);
      NotHeld(fii[..n], quotes, s);
    }
  }

  lemma SectorMapStep(m: map<Sector, int>, fii: seq<FiiHolding>, quotes: Quotes, i: nat)
    requires i < |fii| && SectorMap(m, fii[..i], quotes)
    ensures var s := SectorOf(fii[i], quotes);
            SectorMap(m[s := (if s in m then m[s] else 0) + CurrentFii(fii[i], quotes)], fii[..i + 1], quotes)
  {
    var held := SectorOf(fii[i], quotes);
    var before, after := fii[..i], fii[..i + 1];
    assert after == before + [fii[i]];
    assert SectorsHeld(after, quotes) == SectorsHeld(before, quotes) + {held} by {
      assert after[i] == fii[i];
      assert forall k :: 0 <= k < i ==> after[k] == before[k];
    }
    if held !in m {
      NotHeld(before, quotes, held);
    }
    forall s | s in SectorsHeld(after, quotes)
      ensures SumOf(after, ValueInSector(quotes, s))
           == SumOf(before, ValueInSector(quotes, s)) + if s == held then CurrentFii(fii[i], quotes) else 0
    {
      SumOfSnoc(fii, ValueInSector(quotes, s), i);
    }
  }

  lemma FiiSnoc(fii: seq<FiiHolding>, quotes: Quotes, i: nat)
    requires i < |fii|
    ensures SumOf(fii[..i + 1], FiiCost()) == SumOf(fii[..i], FiiCost()) + InvestedFii(fii[i])
    ensures SumOf(fii[..i + 1], FiiValue(quotes)) == SumOf(fii[..i], FiiValue(quotes)) + CurrentFii(fii[i], quotes)
    ensures SumOf(fii[..i + 1], FiiIncome(quotes)) == SumOf(fii[..i], FiiIncome(quotes)) + IncomeFii(fii[i], quotes)
    ensures Stale(fii[..i + 1], quotes)
              == Stale(fii[..i], quotes) + if fii[i].ticker in quotes then [] else [fii[i].ticker]
  {
    assert fii[..i + 1][..i] == fii[..i];
  }

  /** The body of that loop: one holding at its quote, or at cost without one. */
  method Valued(h: FiiHolding, quotes: Quotes) returns (cost: int, value: int, sector: Sector, paid: int)
    ensures cost == InvestedFii(h) && value == CurrentFii(h, quotes)
    ensures sector == SectorOf(h, quotes) && paid == IncomeFii(h, quotes)
  {
    cost := h.averagePrice * h.quantity;
    if h.ticker in quotes {
      var q := quotes[h.ticker];
      value, sector, paid := q.price * h.quantity, q.sector, q.lastDividend * h.quantity;
    } else {
      value, sector, paid := cost, Other, 0;
    }
  }

  method FiiLoop(fii: seq<FiiHolding>, quotes: Quotes)
    returns (invested: int, current: int, income: int, stale: seq<string>, sectorValue: map<Sector, int>)
    ensures invested == SumOf(fii, FiiCost()) && current == SumOf(fii, FiiValue(quotes))
            && income == SumOf(fii, FiiIncome(quotes))
    ensures stale == Stale(fii, quotes) && SectorMap(sectorValue, fii, quotes)
  {
    invested, current, income, stale, sectorValue := 0, 0, 0, [], map[];
    for i := 0 to |fii|
      invariant invested == SumOf(fii[..i], FiiCost())
      invariant current == SumOf(fii[..i], FiiValue(quotes))
      invariant income == SumOf(fii[..i], FiiIncome(quotes))
      invariant stale == Stale(fii[..i], quotes)
      invariant SectorMap(sectorValue, fii[..i], quotes)
    {
      FiiSnoc(fii, quotes, i);
      SectorMapStep(sectorValue, fii, quotes, i);
      var h := fii[i];
      var cost, value, sector, paid := Valued(h, quotes);
      invested := invested + cost;
      income := income + paid;
      if h.ticker !in quotes {
        stale := stale + [h.ticker];
      }
      current := current + value;
      sectorValue := sectorValue[sector := (if sector in sectorValue then sectorValue[sector] else 0) + value];
    }
    assert fii[..|fii|] == fii;
  }

  method Sectors(value: map<Sector, int>, fiiTotal: int, ghost fii: seq<FiiHolding>, ghost quotes: Quotes)
    returns (out: seq<SectorSlice>)
    requires SectorMap(value, fii, quotes)
    ensures out == SectorSlices(SECTOR_ORDER, fii, quotes, fiiTotal)
  {
    out := [];
    for i := 0 to |SECTOR_ORDER|
      invariant out == SectorSlices(SECTOR_ORDER[..i], fii, quotes, fiiTotal)
    {
      assert SECTOR_ORDER[..i + 1][..i] == SECTOR_ORDER[..i];
      var s := SECTOR_ORDER[i];
      if s in value {
        out := out + [SectorSlice(s, value[s], ShareBps(value[s], fiiTotal))];
      }
    }
    assert SECTOR_ORDER[..|SECTOR_ORDER|] == SECTOR_ORDER;
  }

  method Compute(h: Holdings, quotes: Quotes, now: int) returns (d: Dashboard)
    ensures d == DashboardOf(h, quotes, now)
  {
    var totalInvested, fiiCurrent, monthlyIncome, stale, sectorValue := FiiLoop(h.fii, quotes);
    var fixedCurrent := 0;
    for i := 0 to |h.fixedIncome|
      invariant totalInvested == SumOf(h.fii, FiiCost()) + SumOf(h.fixedIncome[..i], FixedCost())
      invariant fixedCurrent == SumOf(h.fixedIncome[..i], FixedValue(now))
    {
      SumOfSnoc(h.fixedIncome, FixedCost(), i);
      SumOfSnoc(h.fixedIncome, FixedValue(now), i);
      var f := h.fixedIncome[i];
      totalInvested := totalInvested + f.invested;
      var accrued := AccrueSimpleInterest(f.invested, f.rateBps, DaysBetween(f.createdAt, now));
      fixedCurrent := fixedCurrent + f.invested + accrued;
    }
    assert h.fixedIncome[..|h.fixedIncome|] == h.fixedIncome;
    var totalCurrent := fiiCurrent + fixedCurrent;
    var growth := totalCurrent - totalInvested;
    var sectors := Sectors(sectorValue, fiiCurrent, h.fii, quotes);
    d := Dashboard(Summary(totalInvested, totalCurrent, monthlyIncome, growth, ShareBps(growth, totalInvested)),
                   AllocationOf(fiiCurrent, fixedCurrent, totalCurrent), sectors, stale);
  }

  // ---------------------------------------------------------------------------------------------
  // Reconciliation.

  function SliceValue(): ClassSlice -> int {
    (s: ClassSlice) => s.value
  }

  function SectorSliceValue(): SectorSlice -> int {
    (s: SectorSlice) => s.value
  }

  /** The class values add up to the current total. */
  lemma ClassesReconcile(h: Holdings, quotes: Quotes, now: int)
    ensures SumOf(DashboardOf(h, quotes, now).allocation, SliceValue()) == SummaryOf(h, quotes, now).current
  {
    var a := DashboardOf(h, quotes, now).allocation;
    SumOfSnoc(a, SliceValue(), 0);
    SumOfSnoc(a, SliceValue(), 1);
    SumOfSnoc(a, SliceValue(), 2);
    SumOfSnoc(a, SliceValue(), 3);
    assert a[..4] == a && a[..0] == [];
  }

  /** The value held in sectors that are not in the order, and so not in the breakdown. */
  function ValueOutside(quotes: Quotes): FiiHolding -> int {
    h => if SectorOf(h, quotes) in SECTOR_ORDER then 0 else CurrentFii(h, quotes)
  }

  function ValueWithin(quotes: Quotes, order: seq<Sector>): FiiHolding -> int {
    h => if SectorOf(h, quotes) in order then CurrentFii(h, quotes) else 0
  }

  ghost predicate NoRepeats(order: seq<Sector>) {
    forall i, j :: 0 <= i < j < |order| ==> order[i] != order[j]
  }

  lemma {:induction false} SumOfAdds(fii: seq<FiiHolding>, f: FiiHolding -> int, g: FiiHolding -> int,
      both: FiiHolding -> int)
    requires forall h :: both(h) == f(h) + g(h)
    ensures SumOf(fii, both) == SumOf(fii, f) + SumOf(fii, g)
  {
    if fii == [] {
    } else {
      SumOfAdds(fii[..|fii| - 1], f, g, both);
    }
  }

  lemma {:induction false} ZeroEverywhere(fii: seq<FiiHolding>, f: FiiHolding -> int)
    requires forall h :: f(h) == 0
    ensures SumOf(fii, f) == 0
  {
    if fii == [] {
    } else {
      ZeroEverywhere(fii[..|fii| - 1], f);
    }
  }

  lemma {:induction false} SlicesSum(order: seq<Sector>, fii: seq<FiiHolding>, quotes: Quotes, total: int)
    requires NoRepeats(order)
    ensures SumOf(SectorSlices(order, fii, quotes, total), SectorSliceValue()) == SumOf(fii, ValueWithin(quotes, order))
  {
    if order == [] {
      ZeroEverywhere(fii, ValueWithin(quotes, order));
    } else {
      var n := |order| - 1;
      var s, init := order[n], SectorSlices(order[..n], fii, quotes, total);
      SlicesSum(order[..n], fii, quotes, total);
      assert order == order[..n] + [s];
      assert s !in order[..n];
      SumOfAdds(fii, ValueWithin(quotes, order[..n]), ValueInSector(quotes, s), ValueWithin(quotes, order));
      if s in SectorsHeld(fii, quotes) {
        var slice := SectorSlice(s, SumOf(fii, ValueInSector(quotes, s)),
            ShareBps(SumOf(fii, ValueInSector(quotes, s)), total));
        SumOfConcat(init, [slice], SectorSliceValue());
        SumOfOne(slice, SectorSliceValue());
      } else {
        NotHeld(fii, quotes, s);
        assert init + [] == init;
      }
    }
  }

  /** The sector values add up to the FII total exactly when nothing, on balance, is held outside the listed sectors. */
  lemma SectorsReconcile(h: Holdings, quotes: Quotes, now: int)
    ensures SumOf(DashboardOf(h, quotes, now).sectors, SectorSliceValue()) == FiiTotal(h, quotes)
       <==> SumOf(h.fii, ValueOutside(quotes)) == 0
  {
    SlicesSum(SECTOR_ORDER, h.fii, quotes, FiiTotal(h, quotes));
    SumOfAdds(h.fii, ValueWithin(quotes, SECTOR_ORDER), ValueOutside(quotes), FiiValue(quotes));
  }

  /** With quotes in listed sectors only, which is all that ingestion writes, they always add up. */
  lemma ListedSectorsReconcile(h: Holdings, quotes: Quotes, now: int)
    requires forall t :: t in quotes ==> quotes[t].sector in SECTOR_ORDER
    ensures SumOf(DashboardOf(h, quotes, now).sectors, SectorSliceValue()) == FiiTotal(h, quotes)
  {
    assert Other == SECTOR_ORDER[5];
    ZeroEverywhere(h.fii, ValueOutside(quotes));
    SectorsReconcile(h, quotes, now);
  }

  // ---------------------------------------------------------------------------------------------
  // Shares.

  /** What the parsers of the domain guarantee: positive quantities, and amounts and prices that are not negative. */
  ghost predicate Sound(h: Holdings, quotes: Quotes) {
    && (forall i :: 0 <= i < |h.fii| ==> h.fii[i].quantity > 0 && h.fii[i].averagePrice >= 0)
    && (forall i :: 0 <= i < |h.fixedIncome| ==> h.fixedIncome[i].invested >= 0)
    && (forall t :: t in quotes ==> quotes[t].price >= 0)
  }

  lemma SoundTotals(h: Holdings, quotes: Quotes, now: int)
    requires Sound(h, quotes)
    ensures FiiTotal(h, quotes) >= 0 && FixedTotal(h, now) >= 0
    ensures forall s :: SumOf(h.fii, ValueInSector(quotes, s)) >= 0
  {
    forall i | 0 <= i < |h.fii|
      ensures CurrentFii(h.fii[i], quotes) >= 0
    {
      var f := h.fii[i];
      assert f.averagePrice * f.quantity >= 0;
      assert f.ticker in quotes ==> quotes[f.ticker].price * f.quantity >= 0;
    }
    SumOfNonNegative(h.fii, FiiValue(quotes));
    SumOfNonNegative(h.fixedIncome, FixedValue(now));
    forall s
      ensures SumOf(h.fii, ValueInSector(quotes, s)) >= 0
    {
      SumOfNonNegative(h.fii, ValueInSector(quotes, s));
    }
  }

  /**
   With a positive total the two class shares add up to 10000, or to 10001 when both end in exactly half a basis
   point.
   */
  lemma ClassSharesReconcile(h: Holdings, quotes: Quotes, now: int)
    requires Sound(h, quotes) && SummaryOf(h, quotes, now).current > 0
    ensures var a, total := DashboardOf(h, quotes, now).allocation, SummaryOf(h, quotes, now).current;
            a[0].share + a[1].share == if 2 * ((FiiTotal(h, quotes) * FULL) % total) == total then FULL + 1 else FULL
  {
    SoundTotals(h, quotes, now);
    TwoShares(FiiTotal(h, quotes), FixedTotal(h, now));
  }

  function ValuesOf(slices: seq<SectorSlice>): (v: seq<int>)
    ensures |v| == |slices| && forall i :: 0 <= i < |slices| ==> v[i] == slices[i].value
    ensures Sum(v) == SumOf(slices, SectorSliceValue())
  {
    if slices == [] then []
    else
      var n := |slices| - 1;
      var init := ValuesOf(slices[..n]);
      assert (init + [slices[n].value])[..n] == init;
      init + [slices[n].value]
  }

  function SharesIn(slices: seq<SectorSlice>): (v: seq<int>)
    ensures |v| == |slices| && forall i :: 0 <= i < |slices| ==> v[i] == slices[i].share
  {
    if slices == [] then [] else SharesIn(slices[..|slices| - 1]) + [slices[|slices| - 1].share]
  }

  lemma {:induction false} SliceShares(order: seq<Sector>, fii: seq<FiiHolding>, quotes: Quotes, total: int)
    requires forall s :: SumOf(fii, ValueInSector(quotes, s)) >= 0
    ensures var slices := SectorSlices(order, fii, quotes, total);
            |slices| <= |order| && forall i :: 0 <= i < |slices| ==>
                slices[i].value >= 0 && slices[i].share == ShareBps(slices[i].value, total)
  {
    if order == [] {
    } else {
      SliceShares(order[..|order| - 1], fii, quotes, total);
    }
  }

  lemma {:induction false} SharesInAreSharesOf(slices: seq<SectorSlice>, total: int)
    requires forall i :: 0 <= i < |slices| ==> slices[i].share == ShareBps(slices[i].value, total)
    ensures SharesIn(slices) == SharesOf(ValuesOf(slices), total)
  {
    if slices == [] {
    } else {
      var n := |slices| - 1;
      SharesInAreSharesOf(slices[..n], total);
      assert ValuesOf(slices)[..n] == ValuesOf(slices[..n]);
    }
  }

  /**
   The sector shares of a reconciled breakdown add up to 10000, give or take half a basis point per sector: at
   most 3.
   */
  lemma SectorSharesReconcile(h: Holdings, quotes: Quotes, now: int)
    requires Sound(h, quotes) && FiiTotal(h, quotes) > 0 && SumOf(h.fii, ValueOutside(quotes)) == 0
    ensures Abs(Sum(SharesIn(DashboardOf(h, quotes, now).sectors)) - FULL) <= 3
  {
    SoundTotals(h, quotes, now);
    SectorsReconcile(h, quotes, now);
    SlicesReconcile(h.fii, quotes, FiiTotal(h, quotes));
  }

  lemma SlicesReconcile(fii: seq<FiiHolding>, quotes: Quotes, total: int)
    requires total > 0 && forall s :: SumOf(fii, ValueInSector(quotes, s)) >= 0
    requires SumOf(SectorSlices(SECTOR_ORDER, fii, quotes, total), SectorSliceValue()) == total
    ensures Abs(Sum(SharesIn(SectorSlices(SECTOR_ORDER, fii, quotes, total))) - FULL) <= 3
  {
    var slices := SectorSlices(SECTOR_ORDER, fii, quotes, total);
    SliceShares(SECTOR_ORDER, fii, quotes, total);
    SharesInAreSharesOf(slices, total);
    SixShares(ValuesOf(slices), total);
  }

  lemma SixShares(parts: seq<int>, total: int)
    requires total > 0 && Sum(parts) == total && |parts| <= 6
    requires forall i :: 0 <= i < |parts| ==> parts[i] >= 0
    ensures Abs(Sum(SharesOf(parts, total)) - FULL) <= 3
  {
    SharesOfParts(parts, total);
    WithinThree(Sum(SharesOf(parts, total)), total, |parts|);
  }

  lemma WithinThree(sum: int, total: int, n: nat)
    requires total > 0 && n <= 6 && Abs(2 * (sum * total - total * FULL)) <= n * total
    ensures Abs(sum - FULL) <= 3
  {
    var x := sum - FULL;
    assert n * total <= 6 * total;
    assert total * x == sum * total - total * FULL;
    assert -(3 * total) <= total * x <= 3 * total;
    MulAtMost(total, 3, x);
    MulAtMost(total, x, -3);
  }

  // ---------------------------------------------------------------------------------------------
  // Order and additivity.

  lemma TotalsPermuted(h: Holdings, h': Holdings, quotes: Quotes, now: int)
    requires multiset(h.fii) == multiset(h'.fii) && multiset(h.fixedIncome) == multiset(h'.fixedIncome)
    ensures FiiTotal(h, quotes) == FiiTotal(h', quotes) && FixedTotal(h, now) == FixedTotal(h', now)
    ensures SummaryOf(h, quotes, now) == SummaryOf(h', quotes, now)
  {
    SumOfPermutation(h.fii, h'.fii, FiiCost());
    SumOfPermutation(h.fii, h'.fii, FiiValue(quotes));
    SumOfPermutation(h.fii, h'.fii, FiiIncome(quotes));
    SumOfPermutation(h.fixedIncome, h'.fixedIncome, FixedCost());
    SumOfPermutation(h.fixedIncome, h'.fixedIncome, FixedValue(now));
  }

  /** Rearranging the holdings changes nothing but the order of the stale tickers. */
  lemma OrderDoesNotMatter(h: Holdings, h': Holdings, quotes: Quotes, now: int)
    requires multiset(h.fii) == multiset(h'.fii) && multiset(h.fixedIncome) == multiset(h'.fixedIncome)
    ensures DashboardOf(h, quotes, now).(stale := []) == DashboardOf(h', quotes, now).(stale := [])
  {
    TotalsPermuted(h, h', quotes, now);
    SlicesPermuted(SECTOR_ORDER, h.fii, h'.fii, quotes, FiiTotal(h, quotes));
  }

  lemma SectorsPermuted(fii: seq<FiiHolding>, fii': seq<FiiHolding>, quotes: Quotes)
    requires multiset(fii) == multiset(fii')
    ensures SectorsHeld(fii, quotes) <= SectorsHeld(fii', quotes)
  {
    forall i | 0 <= i < |fii|
      ensures SectorOf(fii[i], quotes) in SectorsHeld(fii', quotes)
    {
      assert fii[i] in multiset(fii');
      var j :| 0 <= j < |fii'| && fii'[j] == fii[i];
    }
  }

  lemma {:induction false} SlicesPermuted(order: seq<Sector>, fii: seq<FiiHolding>, fii': seq<FiiHolding>,
      quotes: Quotes, total: int)
    requires multiset(fii) == multiset(fii')
    ensures SectorSlices(order, fii, quotes, total) == SectorSlices(order, fii', quotes, total)
  {
    if order == [] {
    } else {
      var n := |order| - 1;
      SlicesPermuted(order[..n], fii, fii', quotes, total);
      SumOfPermutation(fii, fii', ValueInSector(quotes, order[n]));
      SectorsPermuted(fii, fii', quotes);
      SectorsPermuted(fii', fii, quotes);
    }
  }

  function Combined(a: Holdings, b: Holdings): Holdings {
    Holdings(a.fii + b.fii, a.fixedIncome + b.fixedIncome)
  }

  /** The figures of two portfolios together are the sums of their figures. */
  lemma PortfoliosAdd(a: Holdings, b: Holdings, quotes: Quotes, now: int, s: Sector)
    ensures var (x, y, z) := (SummaryOf(a, quotes, now), SummaryOf(b, quotes, now),
              SummaryOf(Combined(a, b), quotes, now));
            && z.invested == x.invested + y.invested && z.current == x.current + y.current
            && z.monthlyIncome == x.monthlyIncome + y.monthlyIncome && z.growth == x.growth + y.growth
    ensures FiiTotal(Combined(a, b), quotes) == FiiTotal(a, quotes) + FiiTotal(b, quotes)
    ensures FixedTotal(Combined(a, b), now) == FixedTotal(a, now) + FixedTotal(b, now)
    ensures SumOf(a.fii + b.fii, ValueInSector(quotes, s))
              == SumOf(a.fii, ValueInSector(quotes, s)) + SumOf(b.fii, ValueInSector(quotes, s))
  {
    SumOfConcat(a.fii, b.fii, FiiCost());
    SumOfConcat(a.fii, b.fii, FiiValue(quotes));
    SumOfConcat(a.fii, b.fii, FiiIncome(quotes));
    SumOfConcat(a.fii, b.fii, ValueInSector(quotes, s));
    SumOfConcat(a.fixedIncome, b.fixedIncome, FixedCost());
    SumOfConcat(a.fixedIncome, b.fixedIncome, FixedValue(now));
  }

  // ---------------------------------------------------------------------------------------------
  // The dashboard in figures: one holding, and then any number.

  /** A FII alone: its quantity at the average price, at the price, and at the last dividend of its quote, if any. */
  lemma OneFii(f: FiiHolding, quotes: Quotes, now: int)
    ensures var d := DashboardOf(Holdings([f], []), quotes, now);
            && d.summary.invested == f.averagePrice * f.quantity
            && if f.ticker in quotes then
                 var q := quotes[f.ticker];
                 && d.summary.current == q.price * f.quantity && d.summary.monthlyIncome == q.lastDividend * f.quantity
                 && d.stale == []
               else
                 && d.summary.current == f.averagePrice * f.quantity && d.summary.monthlyIncome == 0
                 && d.stale == [f.ticker]
  {
    SumOfOne(f, FiiCost());
    SumOfOne(f, FiiValue(quotes));
    SumOfOne(f, FiiIncome(quotes));
    assert Stale([f][..0], quotes) == [];
  }

  /** Its whole value counts in the sector of its quote, or in Other without one. */
  lemma OneSector(f: FiiHolding, quotes: Quotes, now: int, s: Sector)
    ensures var d, held := DashboardOf(Holdings([f], []), quotes, now),
                           if f.ticker in quotes then quotes[f.ticker].sector else Other;
            && SumOf([f], ValueInSector(quotes, s)) == (if s == held then d.summary.current else 0)
            && SectorsHeld([f], quotes) == {held}
  {
    SumOfOne(f, FiiValue(quotes));
    SumOfOne(f, ValueInSector(quotes, s));
    assert [f][0] == f;
  }

  /** A fixed income alone: the amount invested, with simple interest for the whole days since, on a year of 365. */
  lemma OneFixedIncome(f: FixedIncomeHolding, quotes: Quotes, now: int) returns (days: int, interest: int)
    ensures var d := DashboardOf(Holdings([], [f]), quotes, now);
            && d.summary.invested == f.invested && d.summary.current == f.invested + interest
            && d.summary.monthlyIncome == 0 && d.stale == [] && d.sectors == []
    ensures if now <= f.createdAt then days == 0
            else days * 86_400_000_000_000 <= now - f.createdAt < (days + 1) * 86_400_000_000_000
    ensures if f.invested <= 0 || f.rateBps <= 0 || days <= 0 then interest == 0
            else Nearest(interest, f.invested * f.rateBps * days, 3650000)
  {
    days := DaysBetween(f.createdAt, now);
    interest := AccrueSimpleInterest(f.invested, f.rateBps, days);
    SumOfOne(f, FixedCost());
    SumOfOne(f, FixedValue(now));
    NoSlices(SECTOR_ORDER, quotes, 0);
  }

  lemma {:induction false} NoSlices(order: seq<Sector>, quotes: Quotes, total: int)
    ensures SectorSlices(order, [], quotes, total) == []
  {
    if order == [] {
    } else {
      NoSlices(order[..|order| - 1], quotes, total);
    }
  }

  /** A growth in basis points of what was invested: the nearest one, halves away from zero. */
  lemma GrowthInFigures(h: Holdings, quotes: Quotes, now: int)
    ensures var s := DashboardOf(h, quotes, now).summary;
            && s.growth == s.current - s.invested
            && if s.invested <= 0 then s.growthBps == 0
               else if s.growth >= 0 then Nearest(s.growthBps, s.growth * 10000, s.invested)
               else Nearest(-s.growthBps, -s.growth * 10000, s.invested)
  {
    var s := DashboardOf(h, quotes, now).summary;
    if s.invested > 0 && s.growth < 0 {
      assert s.growthBps == -ShareBps(-s.growth, s.invested);
    }
  }

  /** The four classes in order; the first two are worth what their holdings alone are worth, the others nothing. */
  lemma ClassesInFigures(h: Holdings, quotes: Quotes, now: int)
    ensures var (a, total) := (DashboardOf(h, quotes, now).allocation, SummaryOf(h, quotes, now).current);
            && |a| == 4 && a[0].assetClass == Fii && a[1].assetClass == FixedIncome
            && a[2] == ClassSlice(Stocks, 0, 0) && a[3] == ClassSlice(Etfs, 0, 0)
            && a[0].value == SummaryOf(Holdings(h.fii, []), quotes, now).current
            && a[1].value == SummaryOf(Holdings([], h.fixedIncome), quotes, now).current
            && (total <= 0 ==> a[0].share == 0 == a[1].share)
            && forall k :: 0 <= k < 2 && total > 0 && a[k].value >= 0 ==>
                 Nearest(a[k].share, a[k].value * 10000, total)
  {
  }

  /** The place of a sector in the breakdown, counted from 1; other names have none. */
  function Place(s: Sector): nat {
    match s
    case Logistics => 1
    case Offices => 2
    case Shopping => 3
    case Hybrid => 4
    case Paper => 5
    case Other => 6
    case Unlisted(_) => 0
  }

  ghost predicate InPlace(slices: seq<SectorSlice>) {
    forall i, j :: 0 <= i < j < |slices| ==> Place(slices[i].sector) < Place(slices[j].sector)
  }

  ghost predicate HasSlice(slices: seq<SectorSlice>, s: Sector) {
    exists i :: 0 <= i < |slices| && slices[i].sector == s
  }

  lemma HasOneMore(slices: seq<SectorSlice>, last: SectorSlice, s: Sector)
    ensures HasSlice(slices + [last], s) <==> HasSlice(slices, s) || s == last.sector
  {
    var more := slices + [last];
    if HasSlice(slices, s) {
      var i :| 0 <= i < |slices| && slices[i].sector == s;
      assert more[i].sector == s;
    }
    if s == last.sector {
      assert more[|slices|].sector == s;
    }
  }

  lemma SlicesSnoc(order: seq<Sector>, s: Sector, fii: seq<FiiHolding>, quotes: Quotes, total: int)
    ensures var (value, slices) := (SumOf(fii, ValueInSector(quotes, s)), SectorSlices(order, fii, quotes, total));
            SectorSlices(order + [s], fii, quotes, total)
              == if s in SectorsHeld(fii, quotes) then slices + [SectorSlice(s, value, ShareBps(value, total))]
                  else slices
  {
    assert (order + [s])[..|order|] == order;
    assert SectorSlices(order, fii, quotes, total) + [] == SectorSlices(order, fii, quotes, total);
  }

  lemma {:induction false} SlicesListed(order: seq<Sector>, fii: seq<FiiHolding>, quotes: Quotes, total: int, s: Sector)
    ensures HasSlice(SectorSlices(order, fii, quotes, total), s) <==> s in order && s in SectorsHeld(fii, quotes)
  {
    if order == [] {
    } else {
      var s', front := order[|order| - 1], order[..|order| - 1];
      var value := SumOf(fii, ValueInSector(quotes, s'));
      assert order == front + [s'];
      SlicesListed(front, fii, quotes, total, s);
      SlicesSnoc(front, s', fii, quotes, total);
      HasOneMore(SectorSlices(front, fii, quotes, total), SectorSlice(s', value, ShareBps(value, total)), s);
    }
  }

  ghost predicate Rising(order: seq<Sector>) {
    forall i, j :: 0 <= i < j < |order| ==> Place(order[i]) < Place(order[j])
  }

  /** The slices come from the order, each with the value held in its sector and its share. */
  ghost predicate SlicesOf(slices: seq<SectorSlice>, order: seq<Sector>, fii: seq<FiiHolding>, quotes: Quotes,
      total: int) {
    forall i :: 0 <= i < |slices| ==>
      slices[i].sector in order && slices[i].value == SumOf(fii, ValueInSector(quotes, slices[i].sector))
      && slices[i].share == ShareBps(slices[i].value, total)
  }

  lemma RisingSnoc(order: seq<Sector>, s: Sector, x: Sector)
    requires Rising(order + [s])
    ensures Rising(order)
    ensures x in order ==> Place(x) < Place(s)
  {
    var more := order + [s];
    assert forall i :: 0 <= i < |order| ==> more[i] == order[i];
    if x in order {
      var j :| 0 <= j < |order| && order[j] == x;
      assert Place(more[j]) < Place(more[|order|]);
    }
  }

  lemma SliceAppended(slices: seq<SectorSlice>, last: SectorSlice, order: seq<Sector>, fii: seq<FiiHolding>,
      quotes: Quotes, total: int)
    requires SlicesOf(slices, order, fii, quotes, total) && InPlace(slices) && Rising(order + [last.sector])
    requires SlicesOf([last], [last.sector], fii, quotes, total)
    ensures SlicesOf(slices + [last], order + [last.sector], fii, quotes, total) && InPlace(slices + [last])
  {
    var more := slices + [last];
    assert [last][0] == last;
    forall i | 0 <= i < |slices|
      ensures more[i] == slices[i] && Place(slices[i].sector) < Place(last.sector)
    {
      assert slices[i].sector in order;
      RisingSnoc(order, last.sector, slices[i].sector);
    }
  }

  lemma {:induction false} SlicesInPlace(order: seq<Sector>, fii: seq<FiiHolding>, quotes: Quotes, total: int)
    requires Rising(order)
    ensures SlicesOf(SectorSlices(order, fii, quotes, total), order, fii, quotes, total)
    ensures InPlace(SectorSlices(order, fii, quotes, total))
  {
    if order == [] {
    } else {
      var s, front := order[|order| - 1], order[..|order| - 1];
      var value := SumOf(fii, ValueInSector(quotes, s));
      assert order == front + [s];
      RisingSnoc(front, s, s);
      SlicesInPlace(front, fii, quotes, total);
      SlicesSnoc(front, s, fii, quotes, total);
      if s in SectorsHeld(fii, quotes) {
        var last := SectorSlice(s, value, ShareBps(value, total));
        SliceAppended(SectorSlices(front, fii, quotes, total), last, front, fii, quotes, total);
      }
    }
  }

  /**
   The breakdown lists each of the six sectors that some holding is in, once and in the fixed order, with the value
   of its holdings and their share of the FII total.
   */
  lemma SectorsInFigures(h: Holdings, quotes: Quotes, now: int, s: Sector)
    ensures var slices, total := DashboardOf(h, quotes, now).sectors, FiiTotal(h, quotes);
            && InPlace(slices)
            && (HasSlice(slices, s) <==> s in SectorsHeld(h.fii, quotes) && Place(s) > 0)
            && (forall i :: 0 <= i < |slices| ==>
                  slices[i].value == SumOf(h.fii, ValueInSector(quotes, slices[i].sector)))
            && (total <= 0 ==> forall i :: 0 <= i < |slices| ==> slices[i].share == 0)
            && forall i :: 0 <= i < |slices| && total > 0 && slices[i].value >= 0 ==>
                 Nearest(slices[i].share, slices[i].value * 10000, total)
  {
    SlicesInPlace(SECTOR_ORDER, h.fii, quotes, FiiTotal(h, quotes));
    SlicesListed(SECTOR_ORDER, h.fii, quotes, FiiTotal(h, quotes), s);
    assert s in SECTOR_ORDER <==> Place(s) > 0 by {
      assert SECTOR_ORDER[0] == Logistics && SECTOR_ORDER[1] == Offices && SECTOR_ORDER[2] == Shopping
          && SECTOR_ORDER[3] == Hybrid && SECTOR_ORDER[4] == Paper && SECTOR_ORDER[5] == Other;
    }
  }

  /** The stale tickers of two portfolios together are those of the first, and then those of the second. */
  lemma {:induction false} StaleAdd(a: seq<FiiHolding>, b: seq<FiiHolding>, quotes: Quotes)
    ensures Stale(a + b, quotes) == Stale(a, quotes) + Stale(b, quotes)
  {
    if b == [] {
      assert a + b == a;
    } else {
      var n := |b| - 1;
      StaleAdd(a, b[..n], quotes);
      StaleSnoc(b[..n], b[n], quotes);
      StaleSnoc(a + b[..n], b[n], quotes);
      assert b == b[..n] + [b[n]] && a + b == (a + b[..n]) + [b[n]];
    }
  }

  lemma StaleSnoc(fii: seq<FiiHolding>, f: FiiHolding, quotes: Quotes)
    ensures Stale(fii + [f], quotes) == Stale(fii, quotes) + if f.ticker in quotes then [] else [f.ticker]
  {
    assert (fii + [f])[..|fii|] == fii;
  }

  /** The sectors held in two portfolios together are those held in either. */
  lemma SectorsAdd(a: seq<FiiHolding>, b: seq<FiiHolding>, quotes: Quotes)
    ensures SectorsHeld(a + b, quotes) == SectorsHeld(a, quotes) + SectorsHeld(b, quotes)
  {
    var both := a + b;
    assert forall i :: 0 <= i < |a| ==> both[i] == a[i];
    assert forall i :: 0 <= i < |b| ==> both[|a| + i] == b[i];
    assert forall i :: |a| <= i < |both| ==> both[i] == b[i - |a|];
  }
}
