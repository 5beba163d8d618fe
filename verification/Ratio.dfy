/** Basis-point shares and amounts: internal/platform/money/ratio.go, its straight-line part. */
module Ratio {
  import opened Arithmetic

  const FULL: int := 10000

  /** q is num/den, rounded to the nearest integer, halves up. */
  ghost predicate Nearest(q: int, num: int, den: int) {
    -den <= 2 * (num - q * den) < den
  }

  /** part/whole in basis points: the nearest integer, halves away from zero; 0 for a non-positive whole. */
  function ShareBps(part: int, whole: int): (share: int)
    ensures whole <= 0 ==> share == 0
    ensures whole > 0 && part >= 0 ==> -whole <= 2 * (part * FULL - share * whole) < whole && share >= 0
    ensures whole > 0 && part < 0 ==> share == -ShareBps(-part, whole)
    decreases part < 0
  {
    if whole <= 0 then 0
    else if part < 0 then -ShareBps(-part, whole)
    else
      DivBounds(2 * part * FULL + whole, 2 * whole);
      (2 * part * FULL + whole) / (2 * whole)
  }

  /** amount * bps / 10000: the nearest integer, halves up; 0 unless both are positive. */
  function ApplyBps(amount: int, bps: int): (r: int)
    ensures amount <= 0 || bps <= 0 ==> r == 0
    ensures amount > 0 && bps > 0 ==> -FULL <= 2 * (amount * bps - r * FULL) < FULL
    ensures r >= 0
  {
    if amount <= 0 || bps <= 0 then 0 else (2 * (amount * bps) + FULL) / (2 * FULL)
  }

  const YEAR: int := FULL * 365

  /** principal * rate * days / (10000 * 365): the nearest integer, halves up; 0 unless all are positive. */
  function AccrueSimpleInterest(principal: int, rateBps: int, days: int): (r: int)
    ensures r >= 0
    ensures principal <= 0 || rateBps <= 0 || days <= 0 ==> r == 0
    ensures principal > 0 && rateBps > 0 && days > 0 ==>
              -3650000 <= 2 * (principal * rateBps * days - r * 3650000) < 3650000
  {
    if principal <= 0 || rateBps <= 0 || days <= 0 then 0
    else
      var num := principal * rateBps * days;
      assert principal * rateBps > 0;
      assert num > 0;
      (2 * num + YEAR) / (2 * YEAR)
  }

  /** The two bounds of ShareBps pin it down. */
  lemma ShareUnique(part: int, whole: int, share: int)
    requires part >= 0 && whole > 0
    requires -whole <= 2 * (part * FULL - share * whole) < whole
    ensures ShareBps(part, whole) == share
  {
    assert (2 * whole) * share == 2 * (share * whole);
    DivUnique(2 * part * FULL + whole, 2 * whole, share);
  }

  lemma ShareMonotone(part: int, part': int, whole: int)
    requires part <= part'
    ensures ShareBps(part, whole) <= ShareBps(part', whole)
  {
    if whole > 0 {
      if part >= 0 {
        DivMonotone(2 * part * FULL + whole, 2 * part' * FULL + whole, 2 * whole);
      } else if part' < 0 {
        DivMonotone(2 * (-part') * FULL + whole, 2 * (-part) * FULL + whole, 2 * whole);
      }
    }
  }

  lemma ApplyMonotone(amount: int, amount': int, bps: int, bps': int)
    requires amount <= amount' && bps <= bps'
    ensures ApplyBps(amount, bps) <= ApplyBps(amount', bps')
  {
    if amount > 0 && bps > 0 {
      assert amount * bps <= amount' * bps <= amount' * bps';
    }
  }

  lemma ApplyAtMost(amount: int, bps: int)
    requires amount > 0 && bps >= 0
    ensures 2 * FULL * ApplyBps(amount, bps) <= 2 * (amount * bps) + FULL
  {
  }

  lemma ApplyFull(amount: int)
    requires amount >= 0
    ensures ApplyBps(amount, FULL) == amount
  {
  }

  /** Two parts of a whole: their shares add up to 10000, or to 10001 when both end in exactly half a basis point. */
  lemma TwoShares(p: int, q: int)
    requires p >= 0 && q >= 0 && p + q > 0
    ensures var w := p + q;
            ShareBps(p, w) + ShareBps(q, w) == if 2 * ((p * FULL) % w) == w then FULL + 1 else FULL
  {
    var w := p + q;
    var b, r := (p * FULL) / w, (p * FULL) % w;
    assert p * FULL == b * w + r;
    assert q * FULL == (FULL - b) * w - r;
    if 2 * r < w {
      assert (FULL - b) * w == FULL * w - b * w;
      ShareUnique(p, w, b);
      ShareUnique(q, w, FULL - b);
    } else {
      assert (b + 1) * w == b * w + w;
      ShareUnique(p, w, b + 1);
      if 2 * r == w {
        ShareUnique(q, w, FULL - b);
      } else {
        assert (FULL - (b + 1)) * w == FULL * w - b * w - w;
        ShareUnique(q, w, FULL - (b + 1));
      }
    }
  }

  /** The double tie occurs: one centavo of 20000 is half a basis point, and the other 19999 end in one as well. */
  lemma SharesOfTie()
    ensures ShareBps(1, 20000) + ShareBps(19999, 20000) == FULL + 1
  {
    TwoShares(1, 19999);
  }

  lemma SplitHalves(c: int, x: int, y: int)
    requires x + y == c * FULL
    ensures (2 * x + FULL) / (2 * FULL) + (2 * y + FULL) / (2 * FULL) == if 2 * (x % FULL) == FULL then c + 1 else c
  {
  }

  /**
   Two complementary shares of an amount: the parts add up to it, or to one more when both end in exactly one
   half.
   */
  lemma TwoAmounts(c: int, s: int)
    requires c > 0 && 0 <= s <= FULL
    ensures ApplyBps(c, s) + ApplyBps(c, FULL - s) == if 2 * ((c * s) % FULL) == FULL then c + 1 else c
  {
    var t := FULL - s;
    assert c * t == c * FULL - c * s;
    if 0 < s < FULL {
      assert c * s > 0 && c * t > 0;
      SplitHalves(c, c * s, c * t);
    } else {
      ApplyFull(c);
    }
  }

  /** The shares of several parts of one whole. */
  function SharesOf(parts: seq<int>, whole: int): seq<int> {
    if parts == [] then [] else SharesOf(parts[..|parts| - 1], whole) + [ShareBps(parts[|parts| - 1], whole)]
  }

  /** Each share is off by at most half a basis point, so n of them are off by at most n/2. */
  lemma {:induction false} SharesOfParts(parts: seq<int>, whole: int)
    requires whole > 0 && forall i :: 0 <= i < |parts| ==> parts[i] >= 0
    ensures Abs(2 * (Sum(SharesOf(parts, whole)) * whole - Sum(parts) * FULL)) <= |parts| * whole
  {
    if parts == [] {
    } else {
      var n := |parts| - 1;
      SharesOfParts(parts[..n], whole);
      var shares := SharesOf(parts[..n], whole);
      assert (shares + [ShareBps(parts[n], whole)])[..|shares|] == shares;
      AddError(Sum(shares), Sum(parts[..n]), n, ShareBps(parts[n], whole), parts[n], whole);
    }
  }

  lemma AddError(shares: int, parts: int, n: nat, share: int, part: int, whole: int)
    requires Abs(2 * (shares * whole - parts * FULL)) <= n * whole
    requires Abs(2 * (share * whole - part * FULL)) <= whole
    ensures Abs(2 * ((shares + share) * whole - (parts + part) * FULL)) <= (n + 1) * whole
  {
    assert (shares + share) * whole == shares * whole + share * whole;
    assert (n + 1) * whole == n * whole + whole;
  }

  /** Value -> share -> value loses at most whole/20000 + 1/2. */
  lemma ValueRoundTrip(p: int, w: int)
    requires p >= 0 && w > 0
    ensures Abs(20000 * (ApplyBps(w, ShareBps(p, w)) - p)) <= w + FULL
  {
    var s := ShareBps(p, w);
    assert s * w == w * s;
    if s == 0 {
      assert s * w == 0;
    }
  }

  /** Share -> value -> share is the identity on every share up to the whole exactly for amounts of at least 10000. */
  lemma ShareRoundTrip(amount: int)
    ensures (forall b :: 0 <= b <= FULL ==> ShareBps(ApplyBps(amount, b), amount) == b) <==> amount >= FULL
    ensures amount >= FULL ==> forall b :: b >= 0 ==> ShareBps(ApplyBps(amount, b), amount) == b
  {
    if amount >= FULL {
      forall b | b >= 0
        ensures ShareBps(ApplyBps(amount, b), amount) == b
      {
        ShareSurvives(amount, b);
      }
    } else if amount <= 0 {
      assert ShareBps(ApplyBps(amount, 1), amount) != 1;
    } else if forall b :: 0 <= b <= FULL ==> ShareBps(ApplyBps(amount, b), amount) == b {
      ApplyGrows(amount, FULL);
      ApplyFull(amount);
    }
  }

  lemma ShareSurvives(amount: int, b: int)
    requires amount >= FULL && b >= 0
    ensures ShareBps(ApplyBps(amount, b), amount) == b
  {
    var p := ApplyBps(amount, b);
    if b == 0 {
      ShareUnique(0, amount, 0);
    } else {
      assert b * amount == amount * b;
      assert amount == FULL ==> amount * b == FULL * b;
      ShareUnique(p, amount, b);
    }
  }

  /** If no two shares give the same amount, the amounts grow at least as fast as the shares. */
  lemma {:induction false} ApplyGrows(amount: int, b: nat)
    requires amount > 0 && b <= FULL
    requires forall b :: 0 <= b <= FULL ==> ShareBps(ApplyBps(amount, b), amount) == b
    ensures ApplyBps(amount, b) >= b
  {
    if b == 0 {
    } else {
      ApplyGrows(amount, b - 1);
      ApplyMonotone(amount, amount, b - 1, b);
      assert ShareBps(ApplyBps(amount, b - 1), amount) == b - 1;
      assert ShareBps(ApplyBps(amount, b), amount) == b;
    }
  }

  /** The sum of products of the paired entries. */
  function Dot(values: seq<int>, weights: seq<int>): int
    requires |values| == |weights|
  {
    if values == [] then 0
    else
      var n := |values| - 1;
      Dot(values[..n], weights[..n]) + values[n] * weights[n]
  }

  /** What WeightedMeanBps computes; entries without a partner do not take part. */
  function WeightedMean(values: seq<int>, weights: seq<int>): int {
    var n := if |weights| < |values| then |weights| else |values|;
    var num := Dot(values[..n], weights[..n]);
    if num <= 0 then 0 else (2 * num + FULL) / (2 * FULL)
  }

  method WeightedMeanBps(values: seq<int>, weights: seq<int>) returns (mean: int)
    ensures mean == WeightedMean(values, weights)
  {
    var n := |values|;
    if |weights| < n {
      n := |weights|;
    }
    var num := 0;
    for i := 0 to n
      invariant num == Dot(values[..i], weights[..i])
    {
      assert values[..i + 1][..i] == values[..i] && weights[..i + 1][..i] == weights[..i];
      num := num + values[i] * weights[i];
    }
    if num <= 0 {
      return 0;
    }
    return (2 * num + FULL) / (2 * FULL);
  }

  /** A pair contributes its product, and the pairs of two lists add up. */
  lemma {:induction false} DotAddsProducts(values: seq<int>, weights: seq<int>, v: int, w: int, values': seq<int>,
                                           weights': seq<int>)
    requires |values| == |weights| && |values'| == |weights'|
    ensures Dot([v], [w]) == v * w
    ensures Dot(values + values', weights + weights') == Dot(values, weights) + Dot(values', weights')
  {
    assert [v][..0] == [] && [w][..0] == [];
    if values' == [] {
      assert values + values' == values && weights + weights' == weights;
    } else {
      var m, n := |values'| - 1, |values + values'| - 1;
      DotAddsProducts(values, weights, v, w, values'[..m], weights'[..m]);
      assert (values + values')[..n] == values + values'[..m] && (weights + weights')[..n] == weights + weights'[..m];
    }
  }

  /**
   The mean is the sum of products over 10000, the nearest integer, halves up; 0 for a sum that is not positive.
   Entries without a partner do not count.
   */
  lemma MeanOfPairs(values: seq<int>, weights: seq<int>, more: seq<int>)
    requires |values| == |weights|
    ensures var mean, sum := WeightedMean(values, weights), Dot(values, weights);
            if sum <= 0 then mean == 0 else -10000 <= 2 * (sum - mean * 10000) < 10000
    ensures WeightedMean(values + more, weights) == WeightedMean(values, weights + more)
         == WeightedMean(values, weights)
  {
    var n := |values|;
    assert values[..n] == values && weights[..n] == weights;
    assert (values + more)[..n] == values && (weights + more)[..n] == weights;
  }

  lemma {:induction false} DotBetween(values: seq<int>, weights: seq<int>, lo: int, hi: int)
    requires |values| == |weights|
    requires forall i :: 0 <= i < |values| ==> lo <= values[i] <= hi && weights[i] >= 0
    ensures lo * Sum(weights) <= Dot(values, weights) <= hi * Sum(weights)
  {
    if values == [] {
    } else {
      var n := |values| - 1;
      DotBetween(values[..n], weights[..n], lo, hi);
      ScaleBetween(lo, values[n], hi, weights[n], Sum(weights[..n]));
    }
  }

  lemma ScaleBetween(lo: int, v: int, hi: int, w: int, rest: int)
    requires lo <= v <= hi && w >= 0
    ensures lo * w <= v * w <= hi * w
    ensures lo * (rest + w) == lo * rest + lo * w && hi * (rest + w) == hi * rest + hi * w
  {
  }

  /** Weights that add up to 10000: the mean lies between any bounds on the values. */
  lemma MeanBetween(values: seq<int>, weights: seq<int>, lo: int, hi: int)
    requires |values| == |weights| && Sum(weights) == FULL && 0 <= lo
    requires forall i :: 0 <= i < |values| ==> lo <= values[i] <= hi && weights[i] >= 0
    ensures lo <= WeightedMean(values, weights) <= hi
  {
    DotBetween(values, weights, lo, hi);
    assert values[..|values|] == values && weights[..|values|] == weights;
    assert values != [] ==> lo <= values[0] <= hi;
    assert weights != [];
  }

  lemma {:induction false} DotMonotone(values: seq<int>, values': seq<int>, weights: seq<int>)
    requires |values| == |values'| == |weights|
    requires forall i :: 0 <= i < |values| ==> values[i] <= values'[i] && weights[i] >= 0
    ensures Dot(values, weights) <= Dot(values', weights)
  {
    if values == [] {
    } else {
      var n := |values| - 1;
      DotMonotone(values[..n], values'[..n], weights[..n]);
      var v, v', w := values[n], values'[n], weights[n];
      assert v * w <= v' * w;
    }
  }

  lemma MeanMonotone(values: seq<int>, values': seq<int>, weights: seq<int>)
    requires |values| == |values'| == |weights|
    requires forall i :: 0 <= i < |values| ==> values[i] <= values'[i] && weights[i] >= 0
    ensures WeightedMean(values, weights) <= WeightedMean(values', weights)
  {
    DotMonotone(values, values', weights);
    var n := |values|;
    assert values[..n] == values && values'[..n] == values' && weights[..n] == weights;
  }
}
