/** The pt-BR printer and parser of web/lib/money.ts, and their agreement with DecimalToMinor. */
module PtBr {
  import opened Arithmetic
  import opened Decimal
  import opened Text
  import opened Options
  import MinorUnits

  // ---------------------------------------------------------------------------------------------
  // Printing.

  function Pad2(n: nat): (s: string)
    requires n < 100
    ensures |s| == 2 && AllDigits(s)
  {
    [DigitChar(n / 10), DigitChar(n % 10)]
  }

  function Pad3(n: nat): (s: string)
    requires n < 1000
    ensures |s| == 3 && AllDigits(s)
  {
    [DigitChar(n / 100)] + Pad2(n % 100)
  }

  /** toLocaleString("pt-BR") of a non-negative integer: a dot in front of every group of three digits but the first. */
  function Grouped(n: nat): string {
    if n < 1000 then Digits(n) else Grouped(n / 1000) + "." + Pad3(n % 1000)
  }

  function Sign(n: int): string {
    if n < 0 then "-" else ""
  }

  /** centavosToInputString and bpsToInputString: the same text for the same integer. */
  function InputString(n: int): string {
    Sign(n) + Grouped(Abs(n) / 100) + "," + Pad2(Abs(n) % 100)
  }

  /** formatShareBps in front of its percent sign: no fraction when it is zero, and no trailing zero in it. */
  function ShareString(n: int): string {
    var whole, frac := Abs(n) / 100, Abs(n) % 100;
    Sign(n) + Grouped(whole)
    + if frac == 0 then "" else "," + if frac % 10 == 0 then Pad2(frac)[..1] else Pad2(frac)
  }

  // ---------------------------------------------------------------------------------------------
  // Parsing.

  /** \d{1,3}(\.\d{3})* */
  ghost predicate GroupedDigits(s: string) {
    || (1 <= |s| <= 3 && AllDigits(s))
    || (|s| > 4 && AllDigits(s[|s| - 3..]) && s[|s| - 4] == '.' && GroupedDigits(s[..|s| - 4]))
  }

  function Unsigned(t: string): string {
    if t != "" && t[0] == '-' then t[1..] else t
  }

  /** The two alternatives of the regular expression: grouped or plain digits, then perhaps a comma and digits. */
  ghost predicate Numeric(t: string) {
    var (whole, frac) := MinorUnits.Cut(Unsigned(t), ',');
    && (GroupedDigits(whole) || (whole != "" && AllDigits(whole)))
    && (',' in Unsigned(t) ==> frac != "" && AllDigits(frac))
  }

  function WithSign(neg: bool, n: int): int {
    if neg then -n else n
  }

  /** floor(x + 1/2) for x = num/den: Math.round. */
  function Round(num: int, den: nat): int
    requires den > 0
  {
    (2 * num + den) / (2 * den)
  }

  /** Math.round(100 * Number(text)), over exact rationals, once the grouping dots are removed. */
  ghost function Parse(input: string): Option<int> {
    var t := Trim(input, IsJsSpace);
    if !Numeric(t) then None
    else
      var (whole, frac) := MinorUnits.Cut(Unsigned(t), ',');
      GroupedIsClean(whole);
      var digits := MinorUnits.Remove(whole, '.') + frac;
      DigitsConcat(MinorUnits.Remove(whole, '.'), frac);
      var n := NatOf(digits);
      Some(Round(100 * WithSign(t[0] == '-', n), Pow10(|frac|)))
  }

  lemma DigitsConcat(a: string, b: string)
    requires AllDigits(a) && AllDigits(b)
    ensures AllDigits(a + b)
  {
  }

  lemma {:induction false} GroupedIsClean(s: string)
    requires GroupedDigits(s) || AllDigits(s)
    ensures AllDigits(MinorUnits.Remove(s, '.'))
    ensures AllDigits(s) ==> MinorUnits.Remove(s, '.') == s
  {
    if AllDigits(s) {
      MinorUnits.RemoveDots(s);
      MinorUnits.DigitsOnly(s);
    } else {
      var a, b := s[..|s| - 4], s[|s| - 3..];
      GroupedIsClean(a);
      GroupedIsClean(b);
      assert s == a + ['.'] + b;
      RemoveDot(a, b);
    }
  }

  lemma RemoveDot(a: string, b: string)
    ensures MinorUnits.Remove(a + "." + b, '.') == MinorUnits.Remove(a, '.') + MinorUnits.Remove(b, '.')
  {
    var dot := ".";
    MinorUnits.RemoveConcat(a + dot, b, '.');
    MinorUnits.RemoveConcat(a, dot, '.');
    assert MinorUnits.Remove(dot, '.') == "" by {
      assert dot[..0] == "";
    }
  }

  // ---------------------------------------------------------------------------------------------
  // Printed text.

  lemma Pad2Value(n: nat)
    requires n < 100
    ensures NatOf(Pad2(n)) == n
  {
    var s := Pad2(n);
    assert s[..1][..0] == [] && s[..1] == [s[0]];
    assert NatOf(s[..1]) == n / 10;
  }

  lemma Pad3Value(n: nat)
    requires n < 1000
    ensures NatOf(Pad3(n)) == n
  {
    var c := [DigitChar(n / 100)];
    assert c[..0] == [];
    Pad2Value(n % 100);
    NatOfConcat(c, Pad2(n % 100));
    assert Pow10(2) == 10 * Pow10(1) == 100;
  }

  lemma {:induction false} DigitsShort(n: nat)
    requires n < 1000
    ensures |Digits(n)| <= 3
  {
    if n < 10 {
    } else {
      assert n >= 100 ==> |Digits(n / 10 / 10)| == 1;
      assert |Digits(n / 10)| <= 2;
    }
  }

  /** The grouped text satisfies the grouping grammar and denotes the number. */
  lemma {:induction false} GroupedText(n: nat)
    ensures GroupedDigits(Grouped(n))
    ensures AllDigits(MinorUnits.Remove(Grouped(n), '.')) && NatOf(MinorUnits.Remove(Grouped(n), '.')) == n
    ensures ',' !in Grouped(n) && IsDigit(Grouped(n)[0])
  {
    if n < 1000 {
      DigitsShort(n);
      GroupedIsClean(Digits(n));
    } else {
      var a, b := Grouped(n / 1000), Pad3(n % 1000);
      GroupedText(n / 1000);
      Pad3Value(n % 1000);
      assert Pow10(3) == 10 * Pow10(2) == 100 * Pow10(1) == 1000;
      AnotherGroup(a, b);
    }
  }

  lemma AnotherGroup(a: string, b: string)
    requires GroupedDigits(a) && |a| > 0 && |b| == 3 && AllDigits(b) && AllDigits(MinorUnits.Remove(a, '.'))
    ensures GroupedDigits(a + "." + b)
    ensures AllDigits(MinorUnits.Remove(a + "." + b, '.'))
    ensures NatOf(MinorUnits.Remove(a + "." + b, '.')) == NatOf(MinorUnits.Remove(a, '.')) * Pow10(3) + NatOf(b)
  {
    var s := a + "." + b;
    assert s[..|s| - 4] == a && s[|s| - 3..] == b;
    GroupedIsClean(b);
    RemoveDot(a, b);
    NatOfConcat(MinorUnits.Remove(a, '.'), b);
  }

  /** A grouped number with a fraction, or none, and a sign in front. */
  function Body(whole: nat, frac: string): string {
    if frac == "" then Grouped(whole) else Grouped(whole) + [','] + frac
  }

  function Printed(neg: bool, body: string): string {
    if neg then "-" + body else body
  }

  lemma BodyText(whole: nat, frac: string)
    requires AllDigits(frac)
    ensures MinorUnits.Cut(Body(whole, frac), ',') == (Grouped(whole), frac)
    ensures ',' in Body(whole, frac) <==> frac != ""
  {
    GroupedText(whole);
    if frac != "" {
      MinorUnits.CutUnique(Grouped(whole), frac, ',');
    }
  }

  ghost predicate DigitEnds(s: string) {
    s != "" && IsDigit(s[0]) && IsDigit(s[|s| - 1])
  }

  lemma BodyEnds(whole: nat, frac: string)
    requires AllDigits(frac)
    ensures DigitEnds(Body(whole, frac))
  {
    GroupedText(whole);
    GroupedEnds(whole);
    assert frac != "" ==> IsDigit(frac[|frac| - 1]);
  }

  lemma SignedText(neg: bool, body: string)
    requires DigitEnds(body)
    ensures var t := Printed(neg, body);
            && t != "" && (t[0] == '-' <==> neg)
            && Unsigned(t) == body && MinorUnits.Signed(t) == (neg, body)
            && Trim(t, IsJsSpace) == t && Trim(t, IsGoSpace) == t
  {
    var t := Printed(neg, body);
    assert IsDigit(t[|t| - 1]);
    assert neg ==> t[1..] == body;
    TrimNothing(t, IsJsSpace);
    TrimNothing(t, IsGoSpace);
  }

  lemma {:induction false} GroupedEnds(n: nat)
    ensures Grouped(n) != "" && IsDigit(Grouped(n)[|Grouped(n)| - 1])
  {
  }

  /** The digits of a number and of its fraction, as one number. */
  function AllTheDigits(whole: nat, frac: string): nat
    requires AllDigits(frac)
  {
    whole * Pow10(|frac|) + NatOf(frac)
  }

  lemma GroupedThen(whole: nat, frac: string)
    requires AllDigits(frac)
    ensures AllDigits(MinorUnits.Remove(Grouped(whole), '.') + frac)
    ensures NatOf(MinorUnits.Remove(Grouped(whole), '.') + frac) == AllTheDigits(whole, frac)
  {
    GroupedText(whole);
    NatOfConcat(MinorUnits.Remove(Grouped(whole), '.'), frac);
  }

  lemma PrintedIsNumeric(neg: bool, whole: nat, frac: string)
    requires AllDigits(frac)
    ensures Numeric(Printed(neg, Body(whole, frac)))
  {
    BodyEnds(whole, frac);
    SignedText(neg, Body(whole, frac));
    BodyText(whole, frac);
    GroupedText(whole);
  }

  /** The printed text parses to its value. */
  lemma PrintedParses(neg: bool, whole: nat, frac: string)
    requires AllDigits(frac)
    ensures Parse(Printed(neg, Body(whole, frac)))
              == Some(Round(100 * WithSign(neg, AllTheDigits(whole, frac)), Pow10(|frac|)))
  {
    PrintedIsNumeric(neg, whole, frac);
    BodyEnds(whole, frac);
    SignedText(neg, Body(whole, frac));
    BodyText(whole, frac);
    GroupedThen(whole, frac);
  }

  /** What InputString and ShareString print, in one form. */
  lemma PrintedForms(n: int)
    ensures InputString(n) == Printed(n < 0, Body(Abs(n) / 100, Pad2(Abs(n) % 100)))
    ensures ShareString(n) == Printed(n < 0, Body(Abs(n) / 100, ShareFraction(Abs(n) % 100)))
  {
    var g, two, f := Grouped(Abs(n) / 100), Pad2(Abs(n) % 100), ShareFraction(Abs(n) % 100);
    assert Sign(n) + g + "," + two == Sign(n) + (g + [','] + two);
    assert Sign(n) + g + ("," + f) == Sign(n) + (g + [','] + f);
    assert Sign(n) + g + "" == Sign(n) + g;
    assert "" + (g + [','] + two) == g + [','] + two && "" + (g + [','] + f) == g + [','] + f && "" + g == g;
  }

  function ShareFraction(frac: nat): (s: string)
    requires frac < 100
    ensures AllDigits(s)
  {
    if frac == 0 then "" else if frac % 10 == 0 then Pad2(frac)[..1] else Pad2(frac)
  }

  lemma RoundExact(n: int, den: nat)
    requires den > 0
    ensures Round(n * den, den) == n
  {
    assert 2 * (n * den) + den == (2 * den) * n + den;
    DivUnique(2 * (n * den) + den, 2 * den, n);
  }

  lemma Powers()
    ensures Pow10(0) == 1 && Pow10(1) == 10 && Pow10(2) == 100 && Pow10(3) == 1000
  {
    assert Pow10(2) == 10 * Pow10(1) && Pow10(3) == 10 * Pow10(2);
  }

  lemma TwoDigits(whole: nat, frac: nat)
    requires frac < 100
    ensures AllTheDigits(whole, Pad2(frac)) == 100 * whole + frac
  {
    Pad2Value(frac);
    Powers();
  }

  lemma PrintedComesBack(neg: bool, whole: nat, frac: string, n: int)
    requires AllDigits(frac) && 100 * WithSign(neg, AllTheDigits(whole, frac)) == n * Pow10(|frac|)
    ensures Numeric(Printed(neg, Body(whole, frac)))
    ensures Parse(Printed(neg, Body(whole, frac))) == Some(n)
  {
    PrintedIsNumeric(neg, whole, frac);
    PrintedParses(neg, whole, frac);
    RoundExact(n, Pow10(|frac|));
  }

  /** Every integer survives printing and parsing. */
  lemma InputStringRoundTrip(n: int)
    ensures Numeric(InputString(n))
    ensures Parse(InputString(n)) == Some(n)
  {
    var whole, frac := Abs(n) / 100, Abs(n) % 100;
    TwoDigits(whole, frac);
    Powers();
    PrintedComesBack(n < 0, whole, Pad2(frac), n);
    PrintedForms(n);
  }

  /** The fraction that is printed denotes the hundredths, in its own number of digits. */
  lemma ShareDigits(whole: nat, frac: nat)
    requires frac < 100
    ensures var s := ShareFraction(frac);
            100 * AllTheDigits(whole, s) == (100 * whole + frac) * Pow10(|s|) && Pow10(|s|) in {1, 10, 100}
  {
    Powers();
    Pad2Value(frac);
    var s := Pad2(frac);
    assert s[..1][..0] == [];
    assert NatOf(s[..1]) == frac / 10;
  }

  /** Also through the compact percentage, without its percent sign. */
  lemma ShareStringRoundTrip(n: int)
    ensures Numeric(ShareString(n))
    ensures Parse(ShareString(n)) == Some(n)
  {
    var whole, frac := Abs(n) / 100, Abs(n) % 100;
    var s := ShareFraction(frac);
    ShareDigits(whole, frac);
    Negated(Abs(n), Pow10(|s|));
    PrintedComesBack(n < 0, whole, s, n);
    PrintedForms(n);
  }

  lemma Negated(a: int, p: int)
    ensures (-a) * p == -(a * p)
  {
  }

  // ---------------------------------------------------------------------------------------------
  // Across languages.

  ghost predicate WholePart(s: string) {
    GroupedDigits(s) || (s != "" && AllDigits(s))
  }

  lemma {:induction false} WholePartText(s: string)
    requires WholePart(s)
    ensures ',' !in s && DigitEnds(s)
    ensures AllDigits(MinorUnits.Remove(s, '.'))
  {
    GroupedIsClean(s);
    if AllDigits(s) {
    } else {
      var a, b := s[..|s| - 4], s[|s| - 3..];
      WholePartText(a);
      assert s == a + "." + b;
    }
  }

  /** What the Go side makes of a whole part with a fraction. */
  lemma GoReadsFraction(whole: string, frac: string)
    requires WholePart(whole) && AllDigits(frac) && frac != ""
    ensures AllDigits(MinorUnits.Remove(whole, '.') + frac)
    ensures MinorUnits.Accepted(whole + [','] + frac)
    ensures MinorUnits.OnlyDigits(whole + [','] + frac) == MinorUnits.Remove(whole, '.') + frac
    ensures MinorUnits.FractionDigits(whole + [','] + frac) == |frac|
  {
    WholePartText(whole);
    GroupedIsClean(frac);
    MinorUnits.ReadsNormal(whole + [','] + frac);
    MinorUnits.NormalCut(whole, frac);
    MinorUnits.ReplacedDigits(frac);
  }

  lemma GoReadsTwoDigits(whole: nat, frac: nat)
    requires frac < 100
    ensures MinorUnits.Accepted(Body(whole, Pad2(frac)))
    ensures MinorUnits.Magnitude(Body(whole, Pad2(frac)), 2) == 100 * whole + frac
  {
    GroupedText(whole);
    GroupedThen(whole, Pad2(frac));
    GoReadsFraction(Grouped(whole), Pad2(frac));
    TwoDigits(whole, frac);
    Powers();
  }

  /** The Go side reads what this side prints, exactly as far as int64 reaches. */
  lemma GoReadsInputString(n: int)
    ensures MinorUnits.Meaning(InputString(n), 2)
         == if Abs(n) <= 9223372036854775807 then MinorUnits.Ok(n) else MinorUnits.Err(MinorUnits.InvalidDecimal)
  {
    var whole, frac := Abs(n) / 100, Abs(n) % 100;
    PrintedForms(n);
    BodyEnds(whole, Pad2(frac));
    SignedText(n < 0, Body(whole, Pad2(frac)));
    GoReadsTwoDigits(whole, frac);
  }

  /** A whole part with a fraction, or none. */
  function Joined(whole: string, frac: string): string {
    if frac == "" then whole else whole + [','] + frac
  }

  /** The parts of a text that the regular expression accepts. */
  ghost predicate Parts(t: string, neg: bool, whole: string, frac: string) {
    WholePart(whole) && AllDigits(frac) && t == Printed(neg, Joined(whole, frac))
  }

  lemma CutJoined(body: string)
    requires ',' in body ==> MinorUnits.Cut(body, ',').1 != ""
    ensures Joined(MinorUnits.Cut(body, ',').0, MinorUnits.Cut(body, ',').1) == body
  {
    if ',' in body {
      var i := MinorUnits.FirstIndex(body, ',');
      assert body == body[..i] + [','] + body[i + 1..];
    }
  }

  /** Every text that the regular expression accepts has such parts. */
  lemma NumericParts(t: string)
    requires Numeric(t)
    ensures exists neg, whole, frac :: Parts(t, neg, whole, frac)
  {
    var body := Unsigned(t);
    CutJoined(body);
    assert t == Printed(t != "" && t[0] == '-', body);
    assert Parts(t, t != "" && t[0] == '-', MinorUnits.Cut(body, ',').0, MinorUnits.Cut(body, ',').1);
  }

  lemma JoinedText(whole: string, frac: string)
    requires WholePart(whole) && AllDigits(frac)
    ensures MinorUnits.Cut(Joined(whole, frac), ',') == (whole, frac)
    ensures ',' in Joined(whole, frac) <==> frac != ""
    ensures DigitEnds(Joined(whole, frac))
  {
    WholePartText(whole);
    if frac != "" {
      MinorUnits.CutUnique(whole, frac, ',');
      assert IsDigit(frac[|frac| - 1]);
    }
  }

  /** The number of all the digits of such a text, the decimal mark left out. */
  ghost function Numerator(whole: string, frac: string): nat
    requires WholePart(whole) && AllDigits(frac)
  {
    WholePartText(whole);
    DigitsConcat(MinorUnits.Remove(whole, '.'), frac);
    NatOf(MinorUnits.Remove(whole, '.') + frac)
  }

  lemma ParseOfParts(t: string, neg: bool, whole: string, frac: string)
    requires Parts(t, neg, whole, frac)
    ensures Parse(t) == Some(Round(100 * WithSign(neg, Numerator(whole, frac)), Pow10(|frac|)))
  {
    JoinedText(whole, frac);
    SignedText(neg, Joined(whole, frac));
  }

  /** With at most two decimals, this side reads the number of hundredths. */
  lemma ParseHundredths(t: string, neg: bool, whole: string, frac: string)
    requires Parts(t, neg, whole, frac) && |frac| <= 2
    ensures Parse(t) == Some(WithSign(neg, HalfUp(Numerator(whole, frac), |frac|, 2)))
  {
    ParseOfParts(t, neg, whole, frac);
    HundredthsExact(neg, Numerator(whole, frac), |frac|);
  }

  lemma HundredthsExact(neg: bool, n: nat, k: nat)
    requires k <= 2
    ensures Round(100 * WithSign(neg, n), Pow10(k)) == WithSign(neg, HalfUp(n, k, 2))
  {
    Powers();
    RoundExact(WithSign(neg, HalfUp(n, k, 2)), Pow10(k));
  }

  lemma OneDotMore(a: string, b: string)
    requires AllDigits(b)
    ensures MinorUnits.Count(a + ['.'] + b, '.') == MinorUnits.Count(a, '.') + 1
  {
    MinorUnits.CountAroundMark(a, '.', b);
    MinorUnits.DigitsOnly(b);
    MinorUnits.CountZero(b, '.');
  }

  /** A whole part with one dot, the Go way: three decimals. */
  lemma GoReadsOneDot(s: string)
    requires GroupedDigits(s) && '.' in s
    ensures MinorUnits.Accepted(s) <==> MinorUnits.Count(s, '.') == 1
    ensures MinorUnits.Accepted(s) ==> MinorUnits.FractionDigits(s) == 3
    ensures MinorUnits.OnlyDigits(s) == MinorUnits.Remove(s, '.')
  {
    WholePartText(s);
    MinorUnits.RemoveDots(s);
    MinorUnits.CountZero(s, '.');
    var a, b := s[..|s| - 4], s[|s| - 3..];
    assert s == a + ['.'] + b;
    assert MinorUnits.OnlyDigits(s) != "" by {
      MinorUnits.DigitsAroundMark(a, '.', b);
      MinorUnits.DigitsOnly(b);
    }
    if MinorUnits.Count(s, '.') == 1 {
      ThreeBehindDot(a, b);
    }
  }

  lemma ThreeBehindDot(a: string, b: string)
    requires AllDigits(b) && |b| == 3 && ',' !in a + ['.'] + b && MinorUnits.Count(a + ['.'] + b, '.') == 1
    ensures MinorUnits.FractionDigits(a + ['.'] + b) == 3
  {
    var s := a + ['.'] + b;
    OneDotMore(a, b);
    MinorUnits.CountZero(a, '.');
    MinorUnits.CutUnique(a, b, '.');
    MinorUnits.DigitsOnly(b);
    assert s[MinorUnits.FirstIndex(s, '.') + 1..] == b by {
      assert MinorUnits.Cut(s, '.').1 == b;
    }
  }

  /** What the Go side makes of each of the three kinds of text. */
  ghost predicate GoReads(body: string, digits: nat, frac: nat) {
    MinorUnits.Accepted(body) && NatOf(MinorUnits.OnlyDigits(body)) == digits && MinorUnits.FractionDigits(body) == frac
  }

  lemma GoReadsJoined(whole: string, frac: string)
    requires WholePart(whole) && AllDigits(frac)
    ensures frac != "" || '.' !in whole ==> GoReads(Joined(whole, frac), Numerator(whole, frac), |frac|)
    ensures frac == "" && MinorUnits.Count(whole, '.') == 1 ==> GoReads(whole, Numerator(whole, frac), 3)
    ensures frac == "" && MinorUnits.Count(whole, '.') > 1 ==> !MinorUnits.Accepted(whole)
  {
    WholePartText(whole);
    MinorUnits.CountZero(whole, '.');
    if frac != "" {
      GoReadsFraction(whole, frac);
    } else {
      assert MinorUnits.Remove(whole, '.') + frac == MinorUnits.Remove(whole, '.');
      MinorUnits.RemoveDots(whole);
      MinorUnits.DigitsOnly(whole);
      if '.' in whole {
        GoReadsOneDot(whole);
      }
    }
  }

  lemma ThreeDecimals(n: nat)
    ensures HalfUp(n, 3, 2) == n * 100 <==> n == 0
    ensures HalfUp(n, 3, 2) <= n
  {
    Powers();
  }

  /** Of a trimmed text in its parts: the same number on both sides, with the bound of int64 on the Go side. */
  lemma PartsAgree(t: string, neg: bool, whole: string, frac: string)
    requires Parts(t, neg, whole, frac) && |frac| <= 2
    ensures Parse(t) == Some(WithSign(neg, HalfUp(Numerator(whole, frac), |frac|, 2)))
    ensures MinorUnits.Meaning(t, 2) == MinorUnits.Ok(Parse(t).value)
       <==> && Abs(Parse(t).value) <= MAX_INT64
            && (frac != "" || '.' !in whole || (MinorUnits.Count(whole, '.') == 1 && Numerator(whole, frac) == 0))
  {
    JoinedText(whole, frac);
    SignedText(neg, Joined(whole, frac));
    ParseHundredths(t, neg, whole, frac);
    GoReadsJoined(whole, frac);
    GoMeaning(t, neg, Joined(whole, frac));
    MinorUnits.CountZero(whole, '.');
    if frac == "" && '.' in whole {
      Powers();
      ThreeDecimals(Numerator(whole, frac));
    }
  }

  /** The decimals of a text: the characters after its comma. */
  function Decimals(t: string): nat {
    |MinorUnits.Cut(Unsigned(t), ',').1|
  }

  /** What the marks of a text say about it: a comma, or no dot, or one dot in a zero. */
  ghost predicate ReadAlike(t: string, value: int) {
    ',' in t || '.' !in t || (MinorUnits.Count(t, '.') == 1 && value == 0)
  }

  lemma CountSigned(neg: bool, body: string, c: char)
    requires c != '-'
    ensures c in Printed(neg, body) <==> c in body
    ensures MinorUnits.Count(Printed(neg, body), c) == MinorUnits.Count(body, c)
  {
    if neg {
      MinorUnits.CountConcat("-", body, c);
      assert "-"[..0] == "";
      MinorUnits.CountZero(body, c);
      MinorUnits.CountZero(Printed(neg, body), c);
    }
  }

  /** The marks of the text are those of its parts. */
  lemma MarksOfParts(t: string, neg: bool, whole: string, frac: string)
    requires Parts(t, neg, whole, frac)
    ensures Decimals(t) == |frac|
    ensures ',' in t <==> frac != ""
    ensures frac == "" ==> ('.' in t <==> '.' in whole) && MinorUnits.Count(t, '.') == MinorUnits.Count(whole, '.')
  {
    JoinedText(whole, frac);
    SignedText(neg, Joined(whole, frac));
    CountSigned(neg, Joined(whole, frac), ',');
    CountSigned(neg, Joined(whole, frac), '.');
  }

  lemma ZeroHundredths(n: nat, k: nat)
    requires k <= 2
    ensures HalfUp(n, k, 2) == 0 <==> n == 0
  {
    Powers();
  }

  /** A byte order mark that only this side trims is an error on the Go side. */
  lemma MarkedText(input: string)
    requires var g := TrimSpace(input); |g| > 1 && (g[0] == '\U{feff}' || g[|g| - 1] == '\U{feff}')
    ensures MinorUnits.Meaning(input, 2) == MinorUnits.Err(MinorUnits.InvalidDecimal)
  {
    var g := TrimSpace(input);
    var (neg, body) := MinorUnits.Signed(g);
    assert body[|body| - 1] == g[|g| - 1];
    assert g[0] == '\U{feff}' ==> body[0] == g[0];
    assert !MinorUnits.Symbols(body);
  }

  lemma PartsEnds(t: string, neg: bool, whole: string, frac: string)
    requires Parts(t, neg, whole, frac)
    ensures t != "" && !IsGoSpace(t[0]) && !IsGoSpace(t[|t| - 1])
    ensures Trim(t, IsJsSpace) == t == TrimSpace(t)
  {
    JoinedText(whole, frac);
    SignedText(neg, Joined(whole, frac));
  }

  /** On text that needs no trimming. */
  lemma TrimmedAgree(t: string)
    requires Numeric(t) && Decimals(t) <= 2
    ensures t != "" && !IsGoSpace(t[0]) && !IsGoSpace(t[|t| - 1])
    ensures Trim(t, IsJsSpace) == t == TrimSpace(t) && Parse(t).Some?
    ensures MinorUnits.Meaning(t, 2) == MinorUnits.Ok(Parse(t).value)
       <==> Abs(Parse(t).value) <= MAX_INT64 && ReadAlike(t, Parse(t).value)
  {
    NumericParts(t);
    var neg, whole, frac :| Parts(t, neg, whole, frac);
    PartsEnds(t, neg, whole, frac);
    MarksOfParts(t, neg, whole, frac);
    PartsAgree(t, neg, whole, frac);
    ZeroHundredths(Numerator(whole, frac), |frac|);
  }

  /**
   Of every text that this side reads, with at most two decimals, the Go side reads the same number exactly
   when it fits in int64, no byte order mark surrounds the text, and the text has a comma, or no dot, or is a
   zero with one dot: without a comma, a dot groups here and marks decimals there.
   */
  lemma LanguagesAgree(input: string)
    requires Parse(input).Some? && Decimals(Trim(input, IsJsSpace)) <= 2
    ensures MinorUnits.Meaning(input, 2) == MinorUnits.Ok(Parse(input).value)
       <==> && Abs(Parse(input).value) <= MAX_INT64
            && TrimSpace(input) == Trim(input, IsJsSpace)
            && ReadAlike(Trim(input, IsJsSpace), Parse(input).value)
  {
    var t := Trim(input, IsJsSpace);
    TrimmedAgree(t);
    assert Parse(input) == Parse(t);
    TrimsDiffer(input);
    if TrimSpace(input) == t {
      assert MinorUnits.Meaning(input, 2) == MinorUnits.Meaning(t, 2);
    } else {
      MarkedText(input);
    }
  }

  /** What the Go side makes of a whole part with one dot. */
  lemma GoReadsDotted(whole: string)
    requires WholePart(whole) && MinorUnits.Count(whole, '.') == 1
    requires HalfUp(Numerator(whole, ""), 3, 2) <= MAX_INT64
    ensures MinorUnits.Meaning(whole, 2) == MinorUnits.Ok(HalfUp(Numerator(whole, ""), 3, 2))
  {
    PartsEnds(whole, false, whole, "");
    JoinedText(whole, "");
    SignedText(false, whole);
    GoReadsJoined(whole, "");
    GoMeaning(whole, false, whole);
  }

  lemma GroupedExample()
    ensures Grouped(1234) == "1.234" && WholePart(Grouped(1234)) && Numerator(Grouped(1234), "") == 1234
    ensures MinorUnits.Count(Grouped(1234), '.') == 1
  {
    GroupedText(1234);
    assert Digits(1) == "1" && Pad3(234) == "234";
    assert Grouped(1234) == "1" + "." + "234";
    assert MinorUnits.Remove(Grouped(1234), '.') + "" == MinorUnits.Remove(Grouped(1234), '.');
    OneDot();
  }

  lemma OneDot()
    ensures MinorUnits.Count("1" + "." + "234", '.') == 1
  {
    assert "."[..0] == "";
    MinorUnits.CountConcat("1" + ".", "234", '.');
    MinorUnits.CountConcat("1", ".", '.');
    MinorUnits.CountZero("1", '.');
    MinorUnits.CountZero("234", '.');
  }

  lemma ThousandsRounded()
    ensures HalfUp(1234, 0, 2) == 123400 && HalfUp(1234, 3, 2) == 123
  {
    Powers();
  }

  /** One text, two numbers: 1234 units here, and 1.23 there. */
  lemma DotReadTwice()
    ensures Parse("1.234") == Some(123400) && MinorUnits.Meaning("1.234", 2) == MinorUnits.Ok(123)
  {
    var whole := Grouped(1234);
    GroupedExample();
    ThousandsRounded();
    ParseHundredths(whole, false, whole, "");
    GoReadsDotted(whole);
  }

  lemma GoMeaning(t: string, neg: bool, body: string)
    requires Trim(t, IsGoSpace) == t && MinorUnits.Signed(t) == (neg, body)
    ensures MinorUnits.Meaning(t, 2)
         == if MinorUnits.Accepted(body) && MinorUnits.Magnitude(body, 2) <= MAX_INT64
            then MinorUnits.Ok(WithSign(neg, MinorUnits.Magnitude(body, 2)))
            else MinorUnits.Err(MinorUnits.InvalidDecimal)
  {
  }

  // ---------------------------------------------------------------------------------------------
  // The grammar and the printed text, position by position.

  /** From the right, every fourth place is a dot and the others are digits; the first place is a digit. */
  ghost predicate ByPlace(s: string) {
    |s| % 4 != 0 && forall i :: 0 <= i < |s| ==> PlaceIs(s[i], |s| - i)
  }

  /** The character at this place from the right. */
  predicate PlaceIs(c: char, place: nat) {
    if place % 4 == 0 then c == '.' else IsDigit(c)
  }

  lemma FourFurther(c: char, place: nat)
    ensures PlaceIs(c, place + 4) <==> PlaceIs(c, place)
  {
  }

  lemma OneMoreGroup(init: string, c: char, last: string)
    requires init != "" && |last| == 3
    ensures ByPlace(init + [c] + last) <==> ByPlace(init) && c == '.' && AllDigits(last)
  {
    var s, n := init + [c] + last, |init|;
    forall i | 0 <= i < n
      ensures PlaceIs(s[i], |s| - i) <==> PlaceIs(init[i], n - i)
    {
      FourFurther(s[i], n - i);
    }
    assert PlaceIs(s[n], |s| - n) <==> c == '.';
    assert PlaceIs(s[n + 1], 3) <==> IsDigit(last[0]);
    assert PlaceIs(s[n + 2], 2) <==> IsDigit(last[1]);
    assert PlaceIs(s[n + 3], 1) <==> IsDigit(last[2]);
    assert (|init| + 4) % 4 == |init| % 4;
    if ByPlace(s) {
      assert PlaceIs(s[n], |s| - n) && PlaceIs(s[n + 1], |s| - (n + 1)) && PlaceIs(s[n + 2], |s| - (n + 2))
          && PlaceIs(s[n + 3], |s| - (n + 3));
    }
  }

  /** One to three digits, and then groups of a dot and three digits. */
  lemma {:induction false} GroupedByPlace(s: string)
    ensures GroupedDigits(s) <==> ByPlace(s)
  {
    if |s| <= 3 {
      assert forall i :: 0 <= i < |s| ==> (PlaceIs(s[i], |s| - i) <==> IsDigit(s[i]));
    } else if |s| > 4 {
      var init, last := s[..|s| - 4], s[|s| - 3..];
      GroupedByPlace(init);
      assert s == init + [s[|s| - 4]] + last;
      OneMoreGroup(init, s[|s| - 4], last);
    }
  }

  lemma PartsAreNumeric(t: string, neg: bool, whole: string, frac: string)
    requires Parts(t, neg, whole, frac)
    ensures Numeric(t)
  {
    JoinedText(whole, frac);
    SignedText(neg, Joined(whole, frac));
  }

  /** The expression accepts exactly a minus or none, a whole part, and a comma with digits behind it or none. */
  lemma NumericExactly(t: string)
    ensures Numeric(t) <==> exists neg, whole, frac :: Parts(t, neg, whole, frac)
  {
    if Numeric(t) {
      NumericParts(t);
    }
    if neg, whole, frac :| Parts(t, neg, whole, frac) {
      PartsAreNumeric(t, neg, whole, frac);
    }
  }

  /**
   White space around the text, perhaps a minus, a whole part and perhaps decimals: a hundred times the number, to the
   nearest integer, halves up. Any other text is not read.
   */
  lemma ParseInFigures(before: string, neg: bool, whole: string, frac: string, after: string, other: string)
    requires forall i :: 0 <= i < |before| ==> IsJsSpace(before[i])
    requires forall i :: 0 <= i < |after| ==> IsJsSpace(after[i])
    requires WholePart(whole) && AllDigits(frac)
    ensures var r := Parse(before + Printed(neg, Joined(whole, frac)) + after);
            && r.Some?
            && var (n, den: int) := (Numerator(whole, frac), Pow10(|frac|));
               -den <= 2 * (100 * (if neg then -n else n) - r.value * den) < den
    ensures Parse(other) == None <==> !Numeric(Trim(other, IsJsSpace))
  {
    var t := Printed(neg, Joined(whole, frac));
    assert Parts(t, neg, whole, frac);
    PartsAreNumeric(t, neg, whole, frac);
    PartsEnds(t, neg, whole, frac);
    JoinedText(whole, frac);
    SignedText(neg, Joined(whole, frac));
    EndsOfPrinted(neg, Joined(whole, frac));
    TrimLeavesMiddle(before, t, after, IsJsSpace);
    ParseOfParts(t, neg, whole, frac);
    RoundNearest(100 * WithSign(neg, Numerator(whole, frac)), Pow10(|frac|));
  }

  lemma EndsOfPrinted(neg: bool, body: string)
    requires DigitEnds(body)
    ensures var t := Printed(neg, body);
            t != "" && !IsJsSpace(t[0]) && !IsJsSpace(t[|t| - 1])
  {
    var t := Printed(neg, body);
    assert IsDigit(t[|t| - 1]);
  }

  lemma RoundNearest(num: int, den: nat)
    requires den > 0
    ensures -(den as int) <= 2 * (num - Round(num, den) * den) < den
  {
    DivBounds(2 * num + den, 2 * den);
    HalfTimes(Round(num, den), den);
  }

  /** No leading zero in front of other digits. */
  lemma {:induction false} NoLeadingZero(n: nat)
    ensures Grouped(n)[0] == '0' ==> n == 0
  {
    if n < 1000 {
      DigitsLead(n);
    } else {
      NoLeadingZero(n / 1000);
    }
  }

  lemma {:induction false} DigitsLead(n: nat)
    ensures Digits(n)[0] == '0' ==> n == 0
  {
    if n < 10 {
    } else {
      DigitsLead(n / 10);
    }
  }

  /** The editable text of an amount ends in a comma and two digits, and carries a minus exactly below zero. */
  lemma InputByPlace(n: int)
    ensures var s := InputString(n);
            && |s| >= 4 && s[|s| - 3] == ',' && IsDigit(s[|s| - 2]) && IsDigit(s[|s| - 1])
            && (s[0] == '-' <==> n < 0)
  {
    var two := Pad2(Abs(n) % 100);
    PrintedForms(n);
    BodyEnds(Abs(n) / 100, two);
    SignedText(n < 0, Body(Abs(n) / 100, two));
    PrintedTail(n < 0, Abs(n) / 100, two);
    var s := InputString(n);
    assert s[|s| - 2] == s[|s| - 2..][0] && s[|s| - 1] == s[|s| - 2..][1];
  }

  /** The fraction of a share: none for zero, and no zero at its end. */
  lemma FractionText(frac: nat)
    requires frac < 100
    ensures var s := ShareFraction(frac);
            && |s| <= 2 && (s == "" <==> frac == 0) && (s != "" ==> s[|s| - 1] != '0')
  {
  }

  /**
   The compact percentage has a fraction exactly when it is not zero, of one or two digits with no zero at its end,
   and a minus exactly below zero.
   */
  lemma ShareByPlace(n: int)
    ensures var s := ShareString(n);
            && s != "" && (s[0] == '-' <==> n < 0) && (',' in s <==> Abs(n) % 100 != 0)
            && (',' in s ==> |s| >= 3 && s[|s| - 1] != '0' && (s[|s| - 2] == ',' || s[|s| - 3] == ','))
  {
    PrintedForms(n);
    FractionText(Abs(n) % 100);
    FractionByPlace(n < 0, Abs(n) / 100, ShareFraction(Abs(n) % 100));
  }

  lemma FractionByPlace(neg: bool, whole: nat, frac: string)
    requires AllDigits(frac) && |frac| <= 2
    ensures var s := Printed(neg, Body(whole, frac));
            && s != "" && (s[0] == '-' <==> neg) && (',' in s <==> frac != "")
            && (frac != "" ==>
                  |s| >= 3 && s[|s| - 1] == frac[|frac| - 1] && (s[|s| - 2] == ',' || s[|s| - 3] == ','))
  {
    BodyEnds(whole, frac);
    SignedText(neg, Body(whole, frac));
    BodyText(whole, frac);
    CountSigned(neg, Body(whole, frac), ',');
    if frac != "" {
      PrintedTail(neg, whole, frac);
      var s := Printed(neg, Body(whole, frac));
      assert s[|s| - 1] == s[|s| - |frac|..][|frac| - 1];
    }
  }

  lemma PrintedTail(neg: bool, whole: nat, frac: string)
    requires frac != ""
    ensures var (s, k) := (Printed(neg, Body(whole, frac)), |frac|);
            |s| > k + 1 && s[|s| - k..] == frac && s[|s| - k - 1] == ','
  {
    GroupedEnds(whole);
    var head := (if neg then "-" else "") + Grouped(whole);
    assert Printed(neg, Body(whole, frac)) == head + [','] + frac;
  }
}
