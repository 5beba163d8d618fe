/** Largest-remainder apportionment of 10000 basis points: AllocateBps of internal/platform/money/ratio.go. */
module Apportionment {
  import opened Arithmetic
  import opened Ratio

  /** An entry's index and the remainder of its exact quota. */
  datatype Rem = Rem(idx: nat, r: int)

  /** Negative weights count as 0. */
  function Positive(w: int): nat {
    if w > 0 then w else 0
  }

  function Total(weights: seq<int>): nat {
    if weights == [] then 0 else Total(weights[..|weights| - 1]) + Positive(weights[|weights| - 1])
  }

  function Base(w: int, total: int): (b: nat)
    requires total > 0
    ensures w <= 0 ==> b == 0
  {
    DivBounds(Positive(w) * FULL, total);
    Positive(w) * FULL / total
  }

  function Remainder(w: int, total: int): (r: int)
    requires total > 0
    ensures w <= 0 ==> r == 0
    ensures 0 <= r < total && Positive(w) * FULL == Base(w, total) * total + r
  {
    Positive(w) * FULL % total
  }

  function Bases(weights: seq<int>, total: int): (s: seq<int>)
    requires total > 0
    ensures |s| == |weights|
  {
    seq(|weights|, i requires 0 <= i < |weights| => Base(weights[i], total))
  }

  function Remainders(weights: seq<int>, total: int): (s: seq<Rem>)
    requires total > 0
    ensures |s| == |weights|
  {
    seq(|weights|, i requires 0 <= i < |weights| => Rem(i, Remainder(weights[i], total)))
  }

  // ---------------------------------------------------------------------------------------------
  // The stable sort by descending remainder.

  /** Where a stable insertion puts x: after every entry whose remainder is not smaller. */
  function Insert(s: seq<Rem>, x: Rem): (t: seq<Rem>)
    ensures |t| == |s| + 1
    ensures forall y :: y in t <==> y in s || y == x
  {
    var n := |s| - 1;
    if s == [] || s[n].r >= x.r then s + [x]
    else
      assert s == s[..n] + [s[n]];
      Insert(s[..n], x) + [s[n]]
  }

  function StableDesc(s: seq<Rem>): (t: seq<Rem>)
    ensures |t| == |s|
    ensures forall y :: y in t <==> y in s
  {
    if s == [] then []
    else
      assert s == s[..|s| - 1] + [s[|s| - 1]];
      Insert(StableDesc(s[..|s| - 1]), s[|s| - 1])
  }

  /** The order of a stable sort: a larger remainder first, and the lower index on ties. */
  predicate Before(a: Rem, b: Rem) {
    a.r > b.r || (a.r == b.r && a.idx < b.idx)
  }

  ghost predicate Ordered(s: seq<Rem>) {
    forall i, j :: 0 <= i < j < |s| ==> Before(s[i], s[j])
  }

  lemma {:induction false} InsertAt(s: seq<Rem>, x: Rem, j: nat)
    requires j <= |s|
    requires forall k :: j <= k < |s| ==> s[k].r < x.r
    requires j > 0 ==> s[j - 1].r >= x.r
    ensures Insert(s, x) == s[..j] + [x] + s[j..]
    decreases |s|
  {
    if j < |s| {
      var n := |s| - 1;
      InsertAt(s[..n], x, j);
      assert s[..n][..j] == s[..j];
      assert s[..n][j..] + [s[n]] == s[j..];
    } else {
      assert s[..j] == s;
    }
  }

  lemma {:induction false} InsertOrdered(s: seq<Rem>, x: Rem)
    requires Ordered(s)
    requires forall y :: y in s ==> y.idx < x.idx
    ensures Ordered(Insert(s, x))
  {
    var n := |s| - 1;
    if s != [] && s[n].r < x.r {
      InsertOrdered(s[..n], x);
      var t := Insert(s[..n], x);
      forall i | 0 <= i < |t|
        ensures Before(t[i], s[n])
      {
        assert t[i] in t;
        if t[i] != x {
          assert t[i] in s[..n];
        }
      }
    } else if s != [] {
      assert s[n] in s;
    }
  }

  lemma {:induction false} StableDescOrdered(s: seq<Rem>)
    requires forall i :: 0 <= i < |s| ==> s[i].idx == i
    ensures Ordered(StableDesc(s))
  {
    if s == [] {
    } else {
      var n := |s| - 1;
      StableDescOrdered(s[..n]);
      InsertOrdered(StableDesc(s[..n]), s[n]);
    }
  }

  lemma Sunk(after: seq<Rem>, before: seq<Rem>, x: Rem, j: nat)
    requires j <= |before| && |after| == |before| + 1 && after[j] == x
    requires forall k :: 0 <= k < j ==> after[k] == before[k]
    requires forall k :: j <= k < |before| ==> after[k + 1] == before[k]
    ensures after == before[..j] + [x] + before[j..]
  {
    forall k | j < k < |after|
      ensures after[k] == before[k - 1]
    {
      assert after[k - 1 + 1] == before[k - 1];
    }
  }

  /** One step of an in-place stable insertion sort: rems[i] moves left to its place. */
  method SinkInto(rems: array<Rem>, i: nat)
    requires i < rems.Length
    modifies rems
    ensures rems[..i + 1] == Insert(old(rems[..i]), old(rems[i]))
    ensures rems[i + 1..] == old(rems[i + 1..])
  {
    ghost var done := rems[..i];
    var x := rems[i];
    var j := i;
    while j > 0 && rems[j - 1].r < x.r
      invariant j <= i
      invariant forall k :: 0 <= k < j ==> rems[k] == done[k]
      invariant forall k :: j <= k < i ==> rems[k + 1] == done[k] && done[k].r < x.r
      invariant forall k :: i < k < rems.Length ==> rems[k] == old(rems[k])
    {
      rems[j] := rems[j - 1];
      j := j - 1;
    }
    rems[j] := x;
    InsertAt(done, x, j);
    Sunk(rems[..i + 1], done, x, j);
  }

  /** sort.SliceStable with the comparison of the source. */
  method SliceStable(rems: array<Rem>)
    modifies rems
    ensures rems[..] == StableDesc(old(rems[..]))
  {
    ghost var was := rems[..];
    for i := 0 to rems.Length
      invariant rems[..i] == StableDesc(was[..i])
      invariant rems[i..] == was[i..]
    {
      assert rems[i] == was[i] by {
        assert rems[i..][0] == was[i..][0];
      }
      assert rems[i + 1..] == was[i + 1..] by {
        assert rems[i..][1..] == was[i..][1..];
      }
      assert was[..i + 1][..i] == was[..i];
      SinkInto(rems, i);
    }
    assert was[..rems.Length] == was;
    assert rems[..rems.Length] == rems[..];
  }

  // ---------------------------------------------------------------------------------------------
  // The allocation.

  /** The k largest remainders each get one more basis point. */
  function Bump(shares: seq<int>, order: seq<Rem>, k: nat): (s: seq<int>)
    requires k <= |order|
    requires forall x :: x in order ==> x.idx < |shares|
    ensures |s| == |shares|
  {
    if k == 0 then shares
    else
      var s := Bump(shares, order, k - 1);
      var i := order[k - 1].idx;
      s[i := s[i] + 1]
  }

  function Leftover(weights: seq<int>, total: int): int
    requires total > 0
  {
    FULL - Sum(Bases(weights, total))
  }

  /** What AllocateBps computes. */
  function Shares(weights: seq<int>): (s: seq<int>)
    ensures |s| == |weights|
  {
    var total := Total(weights);
    if total == 0 then seq(|weights|, i => 0)
    else
      var order := StableDesc(Remainders(weights, total));
      var leftover := Leftover(weights, total);
      var k := if leftover < 0 then 0 else if leftover < |order| then leftover else |order|;
      Bump(Bases(weights, total), order, k)
  }

  /** The source computes in int64, and relies on the total and every scaled weight fitting. */
  ghost predicate FitsInt64(weights: seq<int>) {
    Total(weights) <= MAX_INT64 && forall i :: 0 <= i < |weights| ==> weights[i] * FULL <= MAX_INT64
  }

  method AllocateBps(weights: seq<int>) returns (shares: array<int>)
    requires FitsInt64(weights)
    ensures fresh(shares) && shares[..] == Shares(weights)
  {
    var n := |weights|;
    shares := new int[n](_ => 0);
    var total := 0;
    for i := 0 to n
      invariant total == Total(weights[..i])
    {
      assert weights[..i + 1][..i] == weights[..i];
      var w := weights[i];
      if w > 0 {
        total := total + w;
      }
    }
    assert weights[..n] == weights;
    if total <= 0 {
      return;
    }

    var rems := new Rem[n](_ => Rem(0, 0));
    var distributed := FloorShares(weights, total, shares, rems);
    SliceStable(rems);
    BumpLargest(shares, rems, FULL - distributed);
  }

  /** The middle loop of AllocateBps: floor each share and remember the remainders. */
  method FloorShares(weights: seq<int>, total: int, shares: array<int>, rems: array<Rem>) returns (distributed: int)
    requires total > 0 && FitsInt64(weights)
    requires shares.Length == rems.Length == |weights| && forall k :: 0 <= k < shares.Length ==> shares[k] == 0
    modifies shares, rems
    ensures shares[..] == Bases(weights, total)
    ensures rems[..] == Remainders(weights, total)
    ensures distributed == Sum(Bases(weights, total))
  {
    ghost var bases := Bases(weights, total);
    distributed := 0;
    for i := 0 to |weights|
      invariant distributed == Sum(bases[..i])
      invariant forall k :: 0 <= k < i ==> shares[k] == bases[k]
      invariant forall k :: 0 <= k < i ==> rems[k] == Rem(k, Remainder(weights[k], total))
      invariant forall k :: i <= k < |weights| ==> shares[k] == 0
    {
      SumSnoc(bases, i);
      rems[i] := Rem(i, 0);
      var w := weights[i];
      if w <= 0 {
        assert bases[i] == Base(w, total) == 0 && Remainder(w, total) == 0;
        continue;
      }
      var num := w * FULL;
      assert 0 <= num <= MAX_INT64;
      shares[i] := num / total;
      distributed := distributed + num / total;
      rems[i] := Rem(i, num % total);
    }
    assert bases[..|weights|] == bases == shares[..];
  }

  /** The closing loop of AllocateBps: the first `leftover` entries get one more basis point each. */
  method BumpLargest(shares: array<int>, rems: array<Rem>, leftover: int)
    requires shares.Length == rems.Length
    requires forall x :: x in rems[..] ==> x.idx < shares.Length
    modifies shares
    ensures shares[..] == Bump(old(shares[..]), rems[..],
                                 if leftover < 0 then 0 else if leftover < rems.Length then leftover else rems.Length)
  {
    var k := 0;
    while k < leftover && k < rems.Length
      invariant 0 <= k <= rems.Length && (k > 0 ==> k <= leftover)
      invariant shares[..] == Bump(old(shares[..]), rems[..], k)
    {
      assert rems[k] in rems[..];
      var i := rems[k].idx;
      shares[i] := shares[i] + 1;
      k := k + 1;
    }
  }
}
