/** Decimal digits: what a digit string denotes, and how a number is written. */
module Decimal {
  import opened Arithmetic

  predicate IsDigit(c: char) {
    '0' <= c <= '9'
  }

  function DigitValue(c: char): (d: nat)
    requires IsDigit(c)
    ensures d < 10
  {
    c as int - '0' as int
  }

  function DigitChar(d: nat): (c: char)
    requires d < 10
    ensures IsDigit(c) && DigitValue(c) == d
  {
    ('0' as int + d) as char
  }

  ghost predicate AllDigits(s: string) {
    forall i :: 0 <= i < |s| ==> IsDigit(s[i])
  }

  function Pow10(k: nat): (p: nat)
    ensures p > 0
  {
    if k == 0 then 1 else 10 * Pow10(k - 1)
  }

  /** The number a digit string denotes; 0 for the empty string. */
  function NatOf(s: string): nat
    requires AllDigits(s)
  {
    if s == [] then 0 else 10 * NatOf(s[..|s| - 1]) + DigitValue(s[|s| - 1])
  }

  /** The number in decimal, without leading zeros. */
  function Digits(n: nat): (s: string)
    ensures AllDigits(s) && s != [] && NatOf(s) == n
  {
    if n < 10 then [DigitChar(n)]
    else
      var init := Digits(n / 10);
      var s := init + [DigitChar(n % 10)];
      assert s[..|s| - 1] == init;
      s
  }

  function Zeros(k: nat): (s: string)
    ensures |s| == k && AllDigits(s)
  {
    if k == 0 then "" else Zeros(k - 1) + "0"
  }

  /** The number with k zeros behind it. */
  function Shifted(n: nat, k: nat): nat {
    n * Pow10(k)
  }

  lemma {:induction false} NatOfConcat(a: string, b: string)
    requires AllDigits(a) && AllDigits(b)
    ensures AllDigits(a + b) && NatOf(a + b) == Shifted(NatOf(a), |b|) + NatOf(b)
  {
    if b == [] {
      assert a + b == a;
    } else {
      var n := |b| - 1;
      NatOfConcat(a, b[..n]);
      assert (a + b)[..|a + b| - 1] == a + b[..n];
      ShiftedMore(NatOf(a), n);
    }
  }

  lemma ShiftedMore(n: nat, k: nat)
    ensures Shifted(n, k + 1) == 10 * Shifted(n, k)
  {
    assert n * (10 * Pow10(k)) == 10 * (n * Pow10(k));
  }

  lemma {:induction false} NatOfBound(s: string)
    requires AllDigits(s)
    ensures NatOf(s) < Pow10(|s|)
  {
    if s == [] {
    } else {
      NatOfBound(s[..|s| - 1]);
    }
  }

  lemma {:induction false} NatOfZeros(k: nat)
    ensures NatOf(Zeros(k)) == 0
  {
    if k == 0 {
    } else {
      NatOfZeros(k - 1);
      assert Zeros(k)[..k - 1] == Zeros(k - 1);
    }
  }

  /** digits * 10^(scale - frac), the nearest integer, halves up. */
  function HalfUp(digits: nat, frac: nat, scale: nat): nat {
    if frac <= scale then digits * Pow10(scale - frac)
    else
      var d := Pow10(frac - scale);
      DivBounds(2 * digits + d, 2 * d);
      (2 * digits + d) / (2 * d)
  }

  /** At most one half from the exact quotient, and a half goes up; where nothing is dropped nothing is lost. */
  lemma HalfUpNearest(digits: nat, frac: nat, scale: nat)
    ensures frac > scale ==>
              var d: int := Pow10(frac - scale);
              -d <= 2 * (digits - HalfUp(digits, frac, scale) * d) < d
    ensures HalfUp(digits, scale, scale) == digits
    ensures frac < scale ==> HalfUp(digits, frac, scale) == 10 * HalfUp(digits, frac + 1, scale)
  {
    if frac > scale {
      var d := Pow10(frac - scale);
      DivBounds(2 * digits + d, 2 * d);
      HalfTimes(HalfUp(digits, frac, scale), d);
    } else if frac < scale {
      ShiftedMore(digits, scale - frac - 1);
    }
  }

  lemma HalfTimes(q: int, d: int)
    ensures (2 * d) * q == 2 * (q * d)
  {
  }

  /** The first dropped digit alone decides the rounding. */
  lemma FirstDroppedDigit(kept: string, dropped: string)
    requires AllDigits(kept) && AllDigits(dropped) && dropped != []
    ensures AllDigits(kept + dropped)
    ensures var d := Pow10(|dropped|);
            (2 * NatOf(kept + dropped) + d) / (2 * d) == NatOf(kept) + if dropped[0] >= '5' then 1 else 0
  {
    var rest := dropped[1..];
    NatOfConcat(kept, dropped);
    NatOfBound(rest);
    FirstOf(dropped);
    RoundsAt(NatOf(kept), DigitValue(dropped[0]), NatOf(rest), |rest|, NatOf(dropped), NatOf(kept + dropped));
  }

  lemma NatOfOne(s: string)
    requires AllDigits(s) && |s| == 1
    ensures NatOf(s) == DigitValue(s[0])
  {
    assert s[..0] == [];
  }

  lemma FirstOf(s: string)
    requires AllDigits(s) && s != []
    ensures NatOf(s) == Shifted(DigitValue(s[0]), |s| - 1) + NatOf(s[1..])
  {
    var head, rest := s[..1], s[1..];
    assert s == head + rest;
    NatOfOne(head);
    NatOfConcat(head, rest);
  }

  lemma RoundsAt(kept: nat, first: nat, rest: nat, k: nat, dropped: nat, all: nat)
    requires first < 10 && rest < Pow10(k)
    requires dropped == Shifted(first, k) + rest && all == Shifted(kept, k + 1) + dropped
    ensures var d := Pow10(k + 1);
            (2 * all + d) / (2 * d) == kept + if first >= 5 then 1 else 0
  {
    var p, d, up := Pow10(k), Pow10(k + 1), if first >= 5 then 1 else 0;
    Halves(first, rest, p, Shifted(first, k) + rest);
    assert (2 * d) * (kept + up) == 2 * (kept * d) + 2 * d * up;
    DivUnique(2 * all + d, 2 * d, kept + up);
  }

  lemma Halves(first: int, rest: int, p: int, dropped: int)
    requires p > 0 && 0 <= first < 10 && 0 <= rest < p && dropped == first * p + rest
    ensures if first >= 5 then 10 * p <= 2 * dropped < 20 * p else 0 <= 2 * dropped < 10 * p
  {
    assert first >= 5 ==> first * p >= 5 * p;
    assert first <= 4 ==> first * p <= 4 * p;
    assert 0 <= first * p <= 9 * p;
  }
}
