/** Integer arithmetic shared by the model: Go's truncating division, half-up rounding, finite sums, and set sizes. */
module Arithmetic {

  const MAX_INT64: int := 0x7fff_ffff_ffff_ffff

  function Max(a: int, b: int): int {
    if a > b then a else b
  }

  function Abs(a: int): nat {
    if a < 0 then -a else a
  }

  /** Go's `/` on integers: it truncates toward zero, where Dafny's is Euclidean. */
  function GoDiv(a: int, b: int): (q: int)
    requires b > 0
    ensures Abs(q) == Abs(a) / b
    ensures (a >= 0 ==> q >= 0) && (a <= 0 ==> q <= 0)
  {
    if a >= 0 then a / b else -((-a) / b)
  }

  lemma GoDivMonotone(a: int, a': int, b: int)
    requires b > 0 && a <= a'
    ensures GoDiv(a, b) <= GoDiv(a', b)
  {
    if a >= 0 {
      DivMonotone(a, a', b);
    } else if a' < 0 {
      DivMonotone(-a', -a, b);
    } else {
      DivBounds(-a, b);
      DivBounds(a', b);
    }
  }

  lemma DivBounds(x: int, d: int)
    requires d > 0
    ensures d * (x / d) <= x < d * (x / d) + d
    ensures x >= 0 ==> x / d >= 0
  {
  }

  lemma MulAtMost(d: int, p: int, q: int)
    requires d > 0
    ensures p < q ==> d * p + d <= d * q
  {
    if p < q {
      assert d * (p + 1) <= d * q;
    }
  }

  /** A quotient is the only integer within its bounds. */
  lemma DivUnique(x: int, d: int, q: int)
    requires d > 0
    requires d * q <= x < d * q + d
    ensures x / d == q
  {
    var p := x / d;
    DivBounds(x, d);
    MulAtMost(d, p, q);
    MulAtMost(d, q, p);
  }

  lemma DivMonotone(x: int, y: int, d: int)
    requires d > 0 && x <= y
    ensures x / d <= y / d
  {
    DivBounds(x, d);
    DivBounds(y, d);
    MulAtMost(d, y / d, x / d);
  }

  /** Sum of a sequence, taken from the left so that loops can follow it. */
  function Sum(s: seq<int>): int {
    if s == [] then 0 else Sum(s[..|s| - 1]) + s[|s| - 1]
  }

  lemma SumSnoc(s: seq<int>, i: nat)
    requires i < |s|
    ensures Sum(s[..i + 1]) == Sum(s[..i]) + s[i]
  {
    assert s[..i + 1][..i] == s[..i];
  }

  lemma {:induction false} SumUpdate(s: seq<int>, i: nat, v: int)
    requires i < |s|
    ensures Sum(s[i := v]) == Sum(s) - s[i] + v
  {
    var n := |s| - 1;
    if i == n {
      assert s[i := v][..n] == s[..n];
    } else {
      assert s[i := v][..n] == s[..n][i := v];
      SumUpdate(s[..n], i, v);
    }
  }

  /** Sum of a measure over a sequence. */
  function SumOf<T>(s: seq<T>, f: T -> int): int {
    if s == [] then 0 else SumOf(s[..|s| - 1], f) + f(s[|s| - 1])
  }

  lemma SumOfSnoc<T>(s: seq<T>, f: T -> int, i: nat)
    requires i < |s|
    ensures SumOf(s[..i + 1], f) == SumOf(s[..i], f) + f(s[i])
  {
    assert s[..i + 1][..i] == s[..i];
  }

  lemma {:induction false} SumOfConcat<T>(a: seq<T>, b: seq<T>, f: T -> int)
    ensures SumOf(a + b, f) == SumOf(a, f) + SumOf(b, f)
  {
    if b == [] {
      assert a + b == a;
    } else {
      var n := |b| - 1;
      assert (a + b)[..|a + b| - 1] == a + b[..n];
      SumOfConcat(a, b[..n], f);
    }
  }

  lemma SumOfOne<T>(x: T, f: T -> int)
    ensures SumOf([x], f) == f(x)
  {
    assert [x][..0] == [];
  }

  lemma SumOfFour<T>(a: T, b: T, c: T, d: T, f: T -> int)
    ensures SumOf([a, b, c, d], f) == f(a) + f(b) + f(c) + f(d)
  {
    var s := [a, b, c, d];
    assert s[..3][..2] == s[..2] && s[..2][..1] == s[..1] && s[..1][..0] == [];
    assert SumOf(s[..1], f) == f(a);
    assert SumOf(s[..2], f) == f(a) + f(b);
  }

  /** Rearranging the terms does not change a sum. */
  lemma {:induction false} SumOfPermutation<T>(a: seq<T>, b: seq<T>, f: T -> int)
    requires multiset(a) == multiset(b)
    ensures SumOf(a, f) == SumOf(b, f)
    decreases |a|
  {
    if a == [] {
      assert |b| == |multiset(b)| == 0;
    } else {
      var n := |a| - 1;
      var x := a[n];
      assert x in multiset(b);
      var j :| 0 <= j < |b| && b[j] == x;
      var front, back := b[..j], b[j + 1..];
      assert a == a[..n] + [x];
      assert b == front + ([x] + back);
      assert multiset(b) == multiset(front) + multiset([x] + back);
      assert multiset([x] + back) == multiset{x} + multiset(back);
      assert multiset(front + back) == multiset(b) - multiset{x};
      assert multiset(a[..n]) == multiset(a) - multiset{x};
      SumOfPermutation(a[..n], front + back, f);
      SumOfConcat(front, back, f);
      SumOfConcat(front, [x] + back, f);
      SumOfConcat([x], back, f);
      SumOfOne(x, f);
    }
  }

  lemma {:induction false} SumOfNonNegative<T>(s: seq<T>, f: T -> int)
    requires forall i :: 0 <= i < |s| ==> f(s[i]) >= 0
    ensures SumOf(s, f) >= 0
  {
    if s == [] {
    } else {
      SumOfNonNegative(s[..|s| - 1], f);
    }
  }

  lemma {:induction false} SubsetSize<T>(a: set<T>, b: set<T>)
    requires a <= b
    ensures |a| <= |b|
  {
    if a == {} {
    } else {
      var x :| x in a;
      SubsetSize(a - {x}, b - {x});
    }
  }
}
