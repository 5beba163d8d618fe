/** What the apportionment guarantees: exactness, quota, order, scaling, stability and optimality. */
module ApportionmentLaws {
  import opened Arithmetic
  import opened Ratio
  import opened Apportionment

  // ---------------------------------------------------------------------------------------------
  // The counting argument: the leftover is smaller than the number of positive remainders.

  function RemOf(): Rem -> int {
    (x: Rem) => x.r
  }

  lemma {:induction false} Accounting(weights: seq<int>, total: int)
    requires total > 0
    ensures total * Sum(Bases(weights, total)) + SumOf(Remainders(weights, total), RemOf()) == FULL * Total(weights)
  {
    if weights == [] {
    } else {
      var n := |weights| - 1;
      var bases, rems := Bases(weights, total), Remainders(weights, total);
      Accounting(weights[..n], total);
      assert bases[..n] == Bases(weights[..n], total);
      assert rems[..n] == Remainders(weights[..n], total);
      OneMoreWeight(total, Sum(bases[..n]), bases[n], Positive(weights[n]), rems[n].r);
    }
  }

  lemma OneMoreWeight(total: int, sum: int, base: int, weight: int, r: int)
    requires weight * FULL == base * total + r
    ensures total * (sum + base) + r == total * sum + FULL * weight
  {
    assert total * (sum + base) == total * sum + base * total;
  }

  lemma {:induction false} InsertSum(s: seq<Rem>, x: Rem)
    ensures SumOf(Insert(s, x), RemOf()) == SumOf(s, RemOf()) + x.r
  {
    var n := |s| - 1;
    if s == [] || s[n].r >= x.r {
      assert (s + [x])[..|s|] == s;
    } else {
      InsertSum(s[..n], x);
      var t := Insert(s[..n], x);
      assert (t + [s[n]])[..|t|] == t;
    }
  }

  lemma {:induction false} SortSum(s: seq<Rem>)
    ensures SumOf(StableDesc(s), RemOf()) == SumOf(s, RemOf())
  {
    if s == [] {
    } else {
      var n := |s| - 1;
      SortSum(s[..n]);
      InsertSum(StableDesc(s[..n]), s[n]);
    }
  }

  /** m remainders below total, and nothing after them, cannot add up to m * total. */
  lemma {:induction false} FewRemainders(s: seq<Rem>, total: int, m: nat)
    requires total > 0 && forall i :: 0 <= i < |s| ==> 0 <= s[i].r < total && (i >= m ==> s[i].r == 0)
    ensures 0 <= SumOf(s, RemOf()) <= m * (total - 1)
  {
    var n := |s| - 1;
    if s != [] && |s| <= m {
      FewRemainders(s[..n], total, m - 1);
      assert (m - 1) * (total - 1) == m * (total - 1) - (total - 1);
    } else if s != [] {
      FewRemainders(s[..n], total, m);
    } else {
      assert 0 <= m * (total - 1);
    }
  }

  ghost function Order(weights: seq<int>): (s: seq<Rem>)
    requires Total(weights) > 0
    ensures |s| == |weights|
  {
    StableDesc(Remainders(weights, Total(weights)))
  }

  lemma OrderEntries(weights: seq<int>)
    requires Total(weights) > 0
    ensures Ordered(Order(weights))
    ensures forall x :: x in Order(weights) ==> x.idx < |weights| && x.r == Remainder(weights[x.idx], Total(weights))
    ensures forall i :: 0 <= i < |weights| ==> Rem(i, Remainder(weights[i], Total(weights))) in Order(weights)
  {
    var rems := Remainders(weights, Total(weights));
    StableDescOrdered(rems);
    forall i | 0 <= i < |weights|
      ensures Rem(i, Remainder(weights[i], Total(weights))) in Order(weights)
    {
      assert rems[i] in rems;
    }
  }

  lemma FewerThan(total: int, m: int, n: int)
    requires total > 0 && n > 0 && 0 <= total * m <= n * (total - 1)
    ensures 0 <= m < n
  {
    MulAtMost(total, m, 0);
    MulAtMost(total, n - 1, m);
    assert total * (n - 1) == total * n - total && n * (total - 1) == total * n - n;
  }

  lemma NextPositive(s: seq<Rem>, total: int, m: nat)
    requires 0 < m < |s| && total > 0 && SumOf(s, RemOf()) == total * m
    requires forall i :: 0 <= i < |s| ==> 0 <= s[i].r < total
    requires forall i, j :: 0 <= i < j < |s| ==> s[i].r >= s[j].r
    ensures s[m].r > 0
  {
    assert m * (total - 1) == total * m - m;
    if s[m].r == 0 {
      FewRemainders(s, total, m);
    }
  }

  /** In descending order, remainders below total that add up to m * total have more than m positive ones in front. */
  lemma ManyPositive(s: seq<Rem>, total: int, m: int)
    requires s != [] && total > 0 && SumOf(s, RemOf()) == total * m
    requires forall i :: 0 <= i < |s| ==> 0 <= s[i].r < total
    requires forall i, j :: 0 <= i < j < |s| ==> s[i].r >= s[j].r
    ensures 0 <= m < |s|
    ensures m > 0 ==> forall j :: 0 <= j <= m ==> s[j].r > 0
  {
    var n := |s|;
    FewRemainders(s, total, n);
    FewerThan(total, m, n);
    if m > 0 {
      NextPositive(s, total, m);
    }
  }

  lemma OrderSum(weights: seq<int>)
    requires Total(weights) > 0
    ensures SumOf(Order(weights), RemOf()) == Total(weights) * Leftover(weights, Total(weights))
  {
    var total := Total(weights);
    var bases := Sum(Bases(weights, total));
    Accounting(weights, total);
    SortSum(Remainders(weights, total));
    MulMinus(total, bases);
  }

  lemma MulMinus(a: int, b: int)
    ensures a * (FULL - b) == FULL * a - a * b
  {
  }

  /**
   Nothing is lost: the leftover is a proper count, and unless it is 0 there are more positive remainders than
   it counts, so that each of the winners has one.
   */
  lemma LeftoverBounds(weights: seq<int>)
    requires Total(weights) > 0
    ensures 0 <= Leftover(weights, Total(weights)) < |weights|
    ensures Leftover(weights, Total(weights)) > 0 ==>
              forall j :: 0 <= j <= Leftover(weights, Total(weights)) ==> Order(weights)[j].r > 0
  {
    var order := Order(weights);
    OrderSum(weights);
    OrderEntries(weights);
    assert forall i :: 0 <= i < |order| ==> order[i] in order;
    assert forall i, j :: 0 <= i < j < |order| ==> Before(order[i], order[j]);
    ManyPositive(order, Total(weights), Leftover(weights, Total(weights)));
  }

  // ---------------------------------------------------------------------------------------------
  // Each share is its floor, plus one for the winners.

  ghost predicate Wins(weights: seq<int>, i: nat)
    requires Total(weights) > 0
  {
    exists j :: 0 <= j < Leftover(weights, Total(weights)) && j < |weights| && Order(weights)[j].idx == i
  }

  lemma {:induction false} BumpAt(shares: seq<int>, order: seq<Rem>, k: nat, i: nat)
    requires k <= |order| && i < |shares|
    requires forall x :: x in order ==> x.idx < |shares|
    requires forall a, b :: 0 <= a < b < |order| ==> order[a].idx != order[b].idx
    ensures Bump(shares, order, k)[i] == shares[i] + if exists j :: 0 <= j < k && order[j].idx == i then 1 else 0
  {
    if k == 0 {
    } else {
      BumpAt(shares, order, k - 1, i);
      if order[k - 1].idx == i {
        assert forall j :: 0 <= j < k - 1 ==> order[j].idx != i;
      }
    }
  }

  lemma {:induction false} BumpSum(shares: seq<int>, order: seq<Rem>, k: nat)
    requires k <= |order|
    requires forall x :: x in order ==> x.idx < |shares|
    ensures Sum(Bump(shares, order, k)) == Sum(shares) + k
  {
    if k == 0 {
    } else {
      BumpSum(shares, order, k - 1);
      var s, i := Bump(shares, order, k - 1), order[k - 1].idx;
      SumUpdate(s, i, s[i] + 1);
    }
  }

  lemma ShareOf(weights: seq<int>, i: nat)
    requires Total(weights) > 0 && i < |weights|
    ensures Shares(weights)[i] == Base(weights[i], Total(weights)) + if Wins(weights, i) then 1 else 0
  {
    LeftoverBounds(weights);
    OrderEntries(weights);
    var order := Order(weights);
    forall a, b | 0 <= a < b < |order|
      ensures order[a].idx != order[b].idx
    {
      assert order[a] in order && order[b] in order && Before(order[a], order[b]);
    }
    BumpAt(Bases(weights, Total(weights)), order, Leftover(weights, Total(weights)), i);
  }

  /** The winners are the first entries in the stable order. */
  lemma WinnersFirst(weights: seq<int>, i: nat, j: nat)
    requires Total(weights) > 0 && i < |weights| && j < |weights|
    ensures Wins(weights, j)
            && Before(Rem(i, Remainder(weights[i], Total(weights))), Rem(j, Remainder(weights[j], Total(weights)))) ==>
              Wins(weights, i)
  {
    if Wins(weights, j) {
      OrderEntries(weights);
      var order, x := Order(weights), Rem(i, Remainder(weights[i], Total(weights)));
      var b :| 0 <= b < Leftover(weights, Total(weights)) && b < |weights| && order[b].idx == j;
      assert order[b] in order;
      assert x in order;
      var a :| 0 <= a < |order| && order[a] == x;
      PlacedBefore(order, a, b);
    }
  }

  lemma PlacedBefore(order: seq<Rem>, a: nat, b: nat)
    requires Ordered(order) && a < |order| && b < |order|
    ensures Before(order[a], order[b]) ==> a < b
  {
  }

  lemma WinnersPositive(weights: seq<int>, i: nat)
    requires Total(weights) > 0 && i < |weights|
    ensures Wins(weights, i) ==> Remainder(weights[i], Total(weights)) > 0
  {
    if Wins(weights, i) {
      LeftoverBounds(weights);
      OrderEntries(weights);
      var j :| 0 <= j < Leftover(weights, Total(weights)) && j < |weights| && Order(weights)[j].idx == i;
      assert Order(weights)[j] in Order(weights);
    }
  }

  // ---------------------------------------------------------------------------------------------
  // The laws.

  /** The shares add up to exactly 10000, or are all zero when no weight is positive. */
  lemma SharesExact(weights: seq<int>)
    ensures Sum(Shares(weights)) == if Total(weights) > 0 then FULL else 0
  {
    if Total(weights) > 0 {
      LeftoverBounds(weights);
      OrderEntries(weights);
      BumpSum(Bases(weights, Total(weights)), Order(weights), Leftover(weights, Total(weights)));
    } else {
      ZeroSum(|weights|);
      assert Shares(weights) == seq(|weights|, i => 0);
    }
  }

  lemma {:induction false} ZeroSum(n: nat)
    ensures Sum(seq(n, i => 0)) == 0
  {
    if n == 0 {
    } else {
      ZeroSum(n - 1);
      assert seq(n, i => 0)[..n - 1] == seq(n - 1, i => 0);
    }
  }

  lemma QuotaAtMostFull(p: int, total: int, b: int, r: int)
    requires p <= total && 0 <= r < total && p * FULL == b * total + r
    ensures b < FULL || (b == FULL && r == 0)
  {
    MulAtMost(total, FULL, b);
  }

  lemma FloorOrOneMore(weights: seq<int>, i: nat)
    requires Total(weights) > 0 && i < |weights|
    ensures var share, b := Shares(weights)[i], Base(weights[i], Total(weights));
            share == b || (share == b + 1 && Remainder(weights[i], Total(weights)) > 0)
  {
    ShareOf(weights, i);
    if Wins(weights, i) {
      WinnersPositive(weights, i);
    }
  }

  /** How far a share is from the weight's exact quota, as a multiple of 1/total. */
  function Miss(share: int, weight: int, total: int): nat {
    Abs(share * total - Positive(weight) * FULL)
  }

  lemma WithinQuota(w: int, total: int, share: int)
    requires total > 0
    requires share == Base(w, total) || (share == Base(w, total) + 1 && Remainder(w, total) > 0)
    ensures Miss(share, w, total) < total
  {
    MissOf(Positive(w) * FULL, Base(w, total), Remainder(w, total), total, share);
  }

  lemma MissOf(quota: int, b: int, r: int, total: int, share: int)
    requires 0 <= r < total && quota == b * total + r
    requires share == b || (share == b + 1 && r > 0)
    ensures Abs(share * total - quota) < total
  {
    assert (b + 1) * total == b * total + total;
  }

  /** Each share is the floor or the ceiling of its exact quota. */
  lemma SharesWithinQuota(weights: seq<int>, i: nat)
    requires Total(weights) > 0 && i < |weights|
    ensures Miss(Shares(weights)[i], weights[i], Total(weights)) < Total(weights)
  {
    FloorOrOneMore(weights, i);
    WithinQuota(weights[i], Total(weights), Shares(weights)[i]);
  }

  /** Every share is a proper share, and a non-positive weight gets none. */
  lemma SharesInRange(weights: seq<int>, i: nat)
    requires i < |weights|
    ensures 0 <= Shares(weights)[i] <= FULL
    ensures weights[i] <= 0 ==> Shares(weights)[i] == 0
  {
    if Total(weights) > 0 {
      var w, total := weights[i], Total(weights);
      FloorOrOneMore(weights, i);
      WeightWithin(weights, i);
      QuotaAtMostFull(Positive(w), total, Base(w, total), Remainder(w, total));
    }
  }

  lemma {:induction false} WeightWithin(weights: seq<int>, i: nat)
    requires i < |weights|
    ensures Positive(weights[i]) <= Total(weights)
  {
    var n := |weights| - 1;
    if i == n {
    } else {
      WeightWithin(weights[..n], i);
    }
  }

  /** A larger weight never gets a smaller share; equal weights differ by at most 1, in favour of the lower index. */
  lemma SharesOrdered(weights: seq<int>, i: nat, j: nat)
    requires i < |weights| && j < |weights|
    ensures weights[i] > weights[j] ==> Shares(weights)[i] >= Shares(weights)[j]
    ensures weights[i] == weights[j] && i < j ==> 0 <= Shares(weights)[i] - Shares(weights)[j] <= 1
  {
    var total := Total(weights);
    if total > 0 && weights[i] >= weights[j] {
      ShareOf(weights, i);
      ShareOf(weights, j);
      DivMonotone(Positive(weights[j]) * FULL, Positive(weights[i]) * FULL, total);
      if Base(weights[i], total) == Base(weights[j], total) && Wins(weights, j) {
        WinnersPositive(weights, j);
        if weights[i] > weights[j] || i < j {
          WinnersFirst(weights, i, j);
        }
      }
    }
  }

  // ---------------------------------------------------------------------------------------------
  // Scaling and idempotence.

  function Scaled(weights: seq<int>, k: int): (s: seq<int>)
    ensures |s| == |weights|
  {
    seq(|weights|, i requires 0 <= i < |weights| => weights[i] * k)
  }

  function ScaledRems(s: seq<Rem>, k: int): (t: seq<Rem>)
    ensures |t| == |s|
  {
    seq(|s|, i requires 0 <= i < |s| => Rem(s[i].idx, s[i].r * k))
  }

  lemma {:induction false} ScaledTotal(weights: seq<int>, k: int)
    requires k > 0
    ensures Total(Scaled(weights, k)) == Total(weights) * k
  {
    if weights == [] {
    } else {
      var n := |weights| - 1;
      assert Scaled(weights, k)[..n] == Scaled(weights[..n], k);
      ScaledTotal(weights[..n], k);
      ScaledPositive(weights[n], k);
      assert (Total(weights[..n]) + Positive(weights[n])) * k == Total(weights[..n]) * k + Positive(weights[n]) * k;
    }
  }

  lemma ScaledPositive(w: int, k: int)
    requires k > 0
    ensures Positive(w * k) == Positive(w) * k
  {
    if w <= 0 {
      assert w * k <= 0;
    } else {
      assert w * k > 0;
    }
  }

  lemma ScaledQuota(w: int, total: int, k: int)
    requires k > 0 && total > 0
    ensures total * k > 0 && Base(w * k, total * k) == Base(w, total)
            && Remainder(w * k, total * k) == Remainder(w, total) * k
  {
    ScaledPositive(w, k);
    ScaledDivision(Positive(w) * FULL, total, k);
    assert Positive(w) * k * FULL == Positive(w) * FULL * k;
  }

  lemma ScaledDivision(x: int, d: int, k: int)
    requires k > 0 && d > 0
    ensures d * k > 0 && x * k / (d * k) == x / d && x * k % (d * k) == (x % d) * k
  {
    var q, r := x / d, x % d;
    assert x * k == (d * q + r) * k == d * k * q + r * k;
    assert 0 <= r * k < d * k by {
      MulAtMost(k, r, d);
    }
    DivUnique(x * k, d * k, q);
  }

  lemma {:induction false} ScaledInsert(s: seq<Rem>, x: Rem, k: int)
    requires k > 0
    ensures Insert(ScaledRems(s, k), Rem(x.idx, x.r * k)) == ScaledRems(Insert(s, x), k)
  {
    var n := |s| - 1;
    if s == [] {
    } else {
      var a, b := s[n].r, x.r;
      assert a >= b <==> a * k >= b * k by {
        if a >= b {
          assert a * k >= b * k;
        } else {
          assert a * k < b * k;
        }
      }
      if a < b {
        ScaledInsert(s[..n], x, k);
        assert ScaledRems(s, k)[..n] == ScaledRems(s[..n], k);
      }
    }
  }

  lemma {:induction false} ScaledSort(s: seq<Rem>, k: int)
    requires k > 0
    ensures StableDesc(ScaledRems(s, k)) == ScaledRems(StableDesc(s), k)
  {
    if s == [] {
    } else {
      var n := |s| - 1;
      assert ScaledRems(s, k)[..n] == ScaledRems(s[..n], k);
      ScaledSort(s[..n], k);
      ScaledInsert(StableDesc(s[..n]), s[n], k);
    }
  }

  lemma {:induction false} BumpIgnoresSize(shares: seq<int>, order: seq<Rem>, k: nat, n: nat)
    requires k > 0 && n <= |order|
    requires forall x :: x in order ==> x.idx < |shares|
    ensures forall x :: x in ScaledRems(order, k) ==> x.idx < |shares|
    ensures Bump(shares, ScaledRems(order, k), n) == Bump(shares, order, n)
  {
    forall x | x in ScaledRems(order, k)
      ensures x.idx < |shares|
    {
      var i :| 0 <= i < |order| && ScaledRems(order, k)[i] == x;
      assert order[i] in order;
    }
    if n == 0 {
    } else {
      BumpIgnoresSize(shares, order, k, n - 1);
    }
  }

  lemma ScaledParts(weights: seq<int>, k: int, total: int, scaledTotal: int)
    requires k > 0 && total > 0 && scaledTotal == total * k
    ensures scaledTotal > 0
    ensures Bases(Scaled(weights, k), scaledTotal) == Bases(weights, total)
    ensures Remainders(Scaled(weights, k), scaledTotal) == ScaledRems(Remainders(weights, total), k)
  {
    assert total * k > 0;
    forall i | 0 <= i < |weights|
      ensures Base(Scaled(weights, k)[i], scaledTotal) == Base(weights[i], total)
      ensures Remainder(Scaled(weights, k)[i], scaledTotal) == Remainder(weights[i], total) * k
    {
      ScaledQuota(weights[i], total, k);
    }
  }

  /** The same floors and proportional remainders give the same shares. */
  lemma SameShares(weights: seq<int>, scaled: seq<int>, k: int)
    requires k > 0 && Total(weights) > 0 && Total(scaled) > 0
    requires Bases(scaled, Total(scaled)) == Bases(weights, Total(weights))
    requires Remainders(scaled, Total(scaled)) == ScaledRems(Remainders(weights, Total(weights)), k)
    ensures Shares(scaled) == Shares(weights)
  {
    ScaledSort(Remainders(weights, Total(weights)), k);
    LeftoverBounds(weights);
    OrderEntries(weights);
    BumpIgnoresSize(Bases(weights, Total(weights)), Order(weights), k, Leftover(weights, Total(weights)));
  }

  /** Only proportions matter: scaling every weight by a positive factor changes nothing. */
  lemma SharesScaleFree(weights: seq<int>, k: int)
    requires k > 0
    ensures Shares(Scaled(weights, k)) == Shares(weights)
  {
    ScaledTotal(weights, k);
    if Total(weights) > 0 {
      ScaledParts(weights, k, Total(weights), Total(Scaled(weights, k)));
      SameShares(weights, Scaled(weights, k), k);
    } else {
      assert Total(weights) * k == 0;
    }
  }

  lemma {:induction false} TotalOfNonNegative(weights: seq<int>)
    requires forall i :: 0 <= i < |weights| ==> weights[i] >= 0
    ensures Total(weights) == Sum(weights)
  {
    if weights == [] {
    } else {
      TotalOfNonNegative(weights[..|weights| - 1]);
    }
  }

  /** Allocating by an allocation's own shares returns those shares. */
  lemma SharesIdempotent(weights: seq<int>)
    ensures Shares(Shares(weights)) == Shares(weights)
  {
    var s := Shares(weights);
    forall i | 0 <= i < |s|
      ensures 0 <= s[i]
    {
      SharesInRange(weights, i);
    }
    SharesExact(weights);
    TotalOfNonNegative(s);
    if Total(weights) > 0 {
      assert Total(s) == FULL;
      assert Bases(s, FULL) == s;
      assert Leftover(s, FULL) == 0;
    }
  }

  // ---------------------------------------------------------------------------------------------
  // Optimality.

  /** The total distance of the shares from the exact quotas, scaled by the total weight. */
  function Distance(shares: seq<int>, weights: seq<int>, total: int): nat
    requires |shares| == |weights|
  {
    if shares == [] then 0
    else
      var n := |shares| - 1;
      Distance(shares[..n], weights[..n], total) + Miss(shares[n], weights[n], total)
  }

  /** A remainder that separates winners from losers. */
  lemma Threshold(weights: seq<int>) returns (theta: int)
    requires Total(weights) > 0
    ensures 0 <= theta <= Total(weights)
    ensures forall i :: 0 <= i < |weights| ==>
              if Wins(weights, i) then Remainder(weights[i], Total(weights)) >= theta
              else Remainder(weights[i], Total(weights)) <= theta
  {
    var total := Total(weights);
    var order, leftover := Order(weights), Leftover(weights, total);
    LeftoverBounds(weights);
    OrderEntries(weights);
    theta := if leftover == 0 then total else order[leftover - 1].r;
    if leftover > 0 {
      assert order[leftover - 1] in order;
    }
    forall i | 0 <= i < |weights|
      ensures if Wins(weights, i) then Remainder(weights[i], total) >= theta else Remainder(weights[i], total) <= theta
    {
      var a :| 0 <= a < |order| && order[a] == Rem(i, Remainder(weights[i], total));
      if Wins(weights, i) {
        var b :| 0 <= b < leftover && b < |weights| && order[b].idx == i;
        assert order[b] in order;
        assert b < leftover - 1 ==> Before(order[b], order[leftover - 1]);
      } else if leftover > 0 {
        assert a >= leftover;
        assert Before(order[leftover - 1], order[a]);
      }
    }
  }

  /** A loser moved by d basis points, with remainder r: the price holds in both directions. */
  lemma LoserPrice(r: int, total: int, theta: int, d: int)
    requires 0 <= r <= theta <= total
    ensures Abs(d * total - r) - r >= (total - 2 * theta) * d
  {
    assert (total - 2 * theta) * d == d * total - 2 * (theta * d);
    if d >= 1 {
      assert theta <= theta * d;
    } else {
      assert d * total <= 0;
      assert (total - theta) * d <= 0;
      assert (total - theta) * d == d * total - theta * d;
    }
  }

  /** A winner lies above its quota by total - r: the mirror image of a loser. */
  lemma WinnerPrice(r: int, total: int, theta: int, d: int)
    requires 0 <= theta <= r <= total
    ensures Abs(d * total + (total - r)) - (total - r) >= (total - 2 * theta) * d
  {
    LoserPrice(total - r, total, total - theta, -d);
    assert (-d) * total - (total - r) == -(d * total + (total - r));
    assert (total - 2 * (total - theta)) * (-d) == (total - 2 * theta) * d;
  }

  /** Moving one share from s to t costs at least the same price per basis point, whoever moves and whichever way. */
  lemma PricePerPoint(b: int, r: int, total: int, theta: int, s: int, t: int)
    requires 0 <= r < total && 0 <= theta <= total
    requires (s == b && r <= theta) || (s == b + 1 && r >= theta)
    ensures Abs(t * total - (b * total + r)) - Abs(s * total - (b * total + r)) >= (total - 2 * theta) * (t - s)
  {
    assert t * total == s * total + (t - s) * total;
    if s == b {
      LoserPrice(r, total, theta, t - s);
    } else {
      assert s * total == b * total + total;
      WinnerPrice(r, total, theta, t - s);
    }
  }

  lemma {:induction false} DistanceByPrice(weights: seq<int>, shares: seq<int>, other: seq<int>, total: int, theta: int)
    requires total > 0 && 0 <= theta <= total && |weights| == |shares| == |other|
    requires forall i :: 0 <= i < |weights| ==>
               || (shares[i] == Base(weights[i], total) && Remainder(weights[i], total) <= theta)
               || (shares[i] == Base(weights[i], total) + 1 && Remainder(weights[i], total) >= theta)
    ensures Distance(other, weights, total) - Distance(shares, weights, total)
              >= (total - 2 * theta) * (Sum(other) - Sum(shares))
  {
    if weights == [] {
    } else {
      var n := |weights| - 1;
      DistanceByPrice(weights[..n], shares[..n], other[..n], total, theta);
      PricePerPoint(Base(weights[n], total), Remainder(weights[n], total), total, theta, shares[n], other[n]);
      var price, before, last := total - 2 * theta, Sum(other[..n]) - Sum(shares[..n]), other[n] - shares[n];
      assert price * (before + last) == price * before + price * last;
    }
  }

  /** No other way of writing 10000 as a sum of integers is closer to the exact quotas. */
  lemma SharesOptimal(weights: seq<int>, other: seq<int>)
    requires Total(weights) > 0
    requires |other| == |weights| && Sum(other) == FULL
    ensures Distance(Shares(weights), weights, Total(weights)) <= Distance(other, weights, Total(weights))
  {
    var theta := Threshold(weights);
    forall i | 0 <= i < |weights|
      ensures Shares(weights)[i] == Base(weights[i], Total(weights)) + if Wins(weights, i) then 1 else 0
    {
      ShareOf(weights, i);
    }
    SharesExact(weights);
    DistanceByPrice(weights, Shares(weights), other, Total(weights), theta);
  }
}
