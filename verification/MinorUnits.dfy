/** Decimal text to integer minor units: DecimalToMinor of internal/platform/money/money.go. */
module MinorUnits {
  import opened Arithmetic
  import opened Decimal
  import opened Text

  datatype Error = NegativeScale | InvalidDecimal

  datatype Result = Ok(value: int) | Err(error: Error)

  // ---------------------------------------------------------------------------------------------
  // What the function accepts, and what it returns.

  function OnlyDigits(s: string): (d: string)
    ensures AllDigits(d)
  {
    if s == [] then [] else OnlyDigits(s[..|s| - 1]) + if IsDigit(s[|s| - 1]) then [s[|s| - 1]] else []
  }

  function Count(s: string, c: char): nat {
    if s == [] then 0 else Count(s[..|s| - 1], c) + if s[|s| - 1] == c then 1 else 0
  }

  /** With a comma the dots are grouping; without one the dot is the decimal mark. */
  function Mark(body: string): char {
    if ',' in body then ',' else '.'
  }

  ghost predicate Symbols(s: string) {
    forall i :: 0 <= i < |s| ==> IsDigit(s[i]) || s[i] == ',' || s[i] == '.'
  }

  /** Digits, commas and dots only, some digit, and one decimal mark at most. */
  ghost predicate Accepted(body: string) {
    && Symbols(body)
    && OnlyDigits(body) != ""
    && Count(body, Mark(body)) <= 1
  }

  /** How many digits follow the decimal mark. */
  function FractionDigits(body: string): nat {
    if Mark(body) in body then |OnlyDigits(body[FirstIndex(body, Mark(body)) + 1..])| else 0
  }

  function FirstIndex(s: string, c: char): (i: nat)
    requires c in s
    ensures i < |s| && s[i] == c && c !in s[..i]
  {
    if s[0] == c then 0 else
      assert s == [s[0]] + s[1..];
      var i := 1 + FirstIndex(s[1..], c);
      assert s[..i] == [s[0]] + s[1..][..i - 1];
      i
  }

  function Signed(t: string): (bool, string) {
    if t != "" && t[0] == '-' then (true, t[1..]) else if t != "" && t[0] == '+' then (false, t[1..]) else (false, t)
  }

  function Magnitude(body: string, scale: nat): int {
    HalfUp(NatOf(OnlyDigits(body)), FractionDigits(body), scale)
  }

  /** The number the text denotes, times 10^scale, rounded half-up by magnitude, if that fits in int64. */
  ghost function Meaning(s: string, scale: int): Result {
    if scale < 0 then Err(NegativeScale)
    else
      var (neg, body) := Signed(TrimSpace(s));
      if Accepted(body) && Magnitude(body, scale) <= MAX_INT64
      then Ok(if neg then -Magnitude(body, scale) else Magnitude(body, scale))
      else Err(InvalidDecimal)
  }

  // ---------------------------------------------------------------------------------------------
  // The functions the source calls.

  function Remove(s: string, c: char): string {
    if s == [] then [] else Remove(s[..|s| - 1], c) + if s[|s| - 1] == c then [] else [s[|s| - 1]]
  }

  function Replace(s: string, c: char, r: char): (t: string)
    ensures |t| == |s| && forall i :: 0 <= i < |s| ==> t[i] == if s[i] == c then r else s[i]
  {
    if s == [] then [] else Replace(s[..|s| - 1], c, r) + [if s[|s| - 1] == c then r else s[|s| - 1]]
  }

  /** strings.Cut */
  function Cut(s: string, c: char): (string, string) {
    if c in s then (s[..FirstIndex(s, c)], s[FirstIndex(s, c) + 1..]) else (s, "")
  }

  /** strconv.ParseInt on digits: None when the number does not fit in int64. */
  function ParseInt(digits: string): (r: Result)
    requires AllDigits(digits)
    ensures r.Ok? <==> NatOf(digits) <= MAX_INT64
    ensures r.Ok? ==> r.value == NatOf(digits)
  {
    if NatOf(digits) <= MAX_INT64 then Ok(NatOf(digits)) else Err(InvalidDecimal)
  }

  method IsDigits(s: string) returns (ok: bool)
    ensures ok <==> AllDigits(s)
  {
    for i := 0 to |s|
      invariant forall j :: 0 <= j < i ==> IsDigit(s[j])
    {
      if s[i] < '0' || s[i] > '9' {
        return false;
      }
    }
    return true;
  }

  // ---------------------------------------------------------------------------------------------
  // Removing the grouping and cutting at the mark reads off the digits.

  lemma AllDigitsConcat(a: string, b: string)
    ensures AllDigits(a + b) <==> AllDigits(a) && AllDigits(b)
  {
    assert (a + b)[..|a|] == a && (a + b)[|a|..] == b;
  }

  lemma SymbolsConcat(a: string, b: string)
    ensures Symbols(a + b) <==> Symbols(a) && Symbols(b)
  {
    assert (a + b)[..|a|] == a && (a + b)[|a|..] == b;
  }

  lemma {:induction false} DigitsOnly(s: string)
    ensures AllDigits(s) <==> Symbols(s) && ',' !in s && '.' !in s
    ensures AllDigits(s) ==> OnlyDigits(s) == s
  {
    if s == [] {
    } else {
      var n := |s| - 1;
      DigitsOnly(s[..n]);
      assert s == s[..n] + [s[n]];
      AllDigitsConcat(s[..n], [s[n]]);
      SymbolsConcat(s[..n], [s[n]]);
    }
  }

  lemma {:induction false} RemoveDots(s: string)
    ensures AllDigits(Remove(s, '.')) <==> Symbols(s) && ',' !in s
    ensures AllDigits(Remove(s, '.')) ==> Remove(s, '.') == OnlyDigits(s)
    ensures '.' !in Remove(s, '.')
    ensures ',' in Remove(s, '.') <==> ',' in s
  {
    if s == [] {
    } else {
      var n := |s| - 1;
      RemoveDots(s[..n]);
      assert s == s[..n] + [s[n]];
      SymbolsConcat(s[..n], [s[n]]);
      var init := Remove(s[..n], '.');
      assert Remove(s, '.') == if s[n] == '.' then init else init + [s[n]];
      AllDigitsConcat(init, [s[n]]);
    }
  }

  lemma {:induction false} RemoveConcat(a: string, b: string, c: char)
    ensures Remove(a + b, c) == Remove(a, c) + Remove(b, c)
  {
    if b == [] {
      assert a + b == a;
    } else {
      var n := |b| - 1;
      assert (a + b)[..|a + b| - 1] == a + b[..n];
      RemoveConcat(a, b[..n], c);
    }
  }

  lemma {:induction false} OnlyDigitsConcat(a: string, b: string)
    ensures OnlyDigits(a + b) == OnlyDigits(a) + OnlyDigits(b)
  {
    if b == [] {
      assert a + b == a;
    } else {
      var n := |b| - 1;
      assert (a + b)[..|a + b| - 1] == a + b[..n];
      OnlyDigitsConcat(a, b[..n]);
    }
  }

  lemma {:induction false} CountConcat(a: string, b: string, c: char)
    ensures Count(a + b, c) == Count(a, c) + Count(b, c)
  {
    if b == [] {
      assert a + b == a;
    } else {
      var n := |b| - 1;
      assert (a + b)[..|a + b| - 1] == a + b[..n];
      CountConcat(a, b[..n], c);
    }
  }

  lemma {:induction false} CountZero(s: string, c: char)
    ensures Count(s, c) == 0 <==> c !in s
  {
    if s == [] {
    } else {
      CountZero(s[..|s| - 1], c);
      assert s == s[..|s| - 1] + [s[|s| - 1]];
    }
  }

  lemma CutUnique(a: string, b: string, c: char)
    requires c !in a
    ensures c in a + [c] + b && Cut(a + [c] + b, c) == (a, b)
  {
    var s := a + [c] + b;
    assert s[|a|] == c;
    var i := FirstIndex(s, c);
    assert forall j :: 0 <= j < |a| ==> s[j] == a[j];
    assert forall j :: 0 <= j < i ==> s[j] == s[..i][j];
    assert s[..|a|] == a && s[|a| + 1..] == b;
  }

  /** The source's normal form: no grouping, and a dot as the decimal mark. */
  function Normal(body: string): string {
    if ',' in body then Replace(Remove(body, '.'), ',', '.') else body
  }

  /** The two parts of the normal form, and what they say about the text. */
  ghost predicate ReadsAs(body: string, left: string, right: string) {
    && (AllDigits(left) && AllDigits(right) && left + right != "" <==> Accepted(body))
    && (AllDigits(left) && AllDigits(right) ==> OnlyDigits(body) == left + right && FractionDigits(body) == |right|)
  }

  lemma MarkAlone(m: char)
    requires !IsDigit(m)
    ensures OnlyDigits([m]) == "" && Count([m], m) == 1
  {
    assert [m][..0] == [];
  }

  lemma DigitsAroundMark(a: string, m: char, b: string)
    requires !IsDigit(m)
    ensures OnlyDigits(a + [m] + b) == OnlyDigits(a) + OnlyDigits(b)
  {
    MarkAlone(m);
    OnlyDigitsConcat(a + [m], b);
    OnlyDigitsConcat(a, [m]);
    assert OnlyDigits(a) + "" == OnlyDigits(a);
  }

  lemma CountAroundMark(a: string, m: char, b: string)
    requires !IsDigit(m)
    ensures Count(a + [m] + b, m) == Count(a, m) + 1 + Count(b, m)
  {
    MarkAlone(m);
    CountConcat(a + [m], b, m);
    CountConcat(a, [m], m);
  }

  lemma CutAtMark(body: string) returns (a: string, b: string)
    requires Mark(body) in body
    ensures body == a + [Mark(body)] + b && Mark(body) !in a
    ensures FractionDigits(body) == |OnlyDigits(b)|
    ensures OnlyDigits(body) == OnlyDigits(a) + OnlyDigits(b)
    ensures Count(body, Mark(body)) <= 1 <==> Mark(body) !in b
  {
    var m := Mark(body);
    var i := FirstIndex(body, m);
    a, b := body[..i], body[i + 1..];
    assert body == a + [m] + b;
    DigitsAroundMark(a, m, b);
    CountAroundMark(a, m, b);
    CountZero(a, m);
    CountZero(b, m);
  }

  lemma RemoveAround(a: string, c: char, b: string)
    requires c != '.'
    ensures Remove(a + [c] + b, '.') == Remove(a, '.') + [c] + Remove(b, '.')
  {
    RemoveConcat(a + [c], b, '.');
    RemoveConcat(a, [c], '.');
    assert [c][..0] == [];
  }

  lemma {:induction false} ReplaceConcat(a: string, b: string)
    ensures Replace(a + b, ',', '.') == Replace(a, ',', '.') + Replace(b, ',', '.')
  {
    if b == [] {
      assert a + b == a;
    } else {
      var n := |b| - 1;
      assert (a + b)[..|a + b| - 1] == a + b[..n];
      ReplaceConcat(a, b[..n]);
    }
  }

  lemma ReplaceAround(a: string, b: string)
    requires ',' !in a
    ensures Replace(a + [','] + b, ',', '.') == a + ['.'] + Replace(b, ',', '.')
  {
    ReplaceConcat(a + [','], b);
    ReplaceConcat(a, [',']);
    assert Replace(a, ',', '.') == a;
    assert Replace([','], ',', '.') == ['.'];
  }

  lemma NormalCut(a: string, b: string)
    requires ',' !in a
    ensures Cut(Normal(a + [','] + b), '.') == (Remove(a, '.'), Replace(Remove(b, '.'), ',', '.'))
  {
    assert (a + [','] + b)[|a|] == ',';
    RemoveDots(a);
    RemoveAround(a, ',', b);
    ReplaceAround(Remove(a, '.'), Remove(b, '.'));
    CutUnique(Remove(a, '.'), Replace(Remove(b, '.'), ',', '.'), '.');
  }

  lemma ReplacedDigits(s: string)
    ensures AllDigits(Replace(s, ',', '.')) <==> AllDigits(s)
    ensures AllDigits(s) ==> Replace(s, ',', '.') == s
  {
    var t := Replace(s, ',', '.');
    if AllDigits(t) {
      assert forall i :: 0 <= i < |s| ==> IsDigit(t[i]);
    }
  }

  lemma CommaReads(body: string)
    requires ',' in body
    ensures ReadsAs(body, Cut(Normal(body), '.').0, Cut(Normal(body), '.').1)
  {
    var a, b := CutAtMark(body);
    NormalCut(a, b);
    CommaReadsParts(body, a, b);
  }

  lemma CommaReadsParts(body: string, a: string, b: string)
    requires body == a + [','] + b && ',' in body && ',' !in a
    requires FractionDigits(body) == |OnlyDigits(b)| && OnlyDigits(body) == OnlyDigits(a) + OnlyDigits(b)
    requires Count(body, ',') <= 1 <==> ',' !in b
    ensures ReadsAs(body, Remove(a, '.'), Replace(Remove(b, '.'), ',', '.'))
  {
    assert Symbols(body) <==> Symbols(a) && Symbols(b) by {
      SymbolsConcat(a + [','], b);
      SymbolsConcat(a, [',']);
    }
    RemoveDots(a);
    RemoveDots(b);
    ReplacedDigits(Remove(b, '.'));
  }

  lemma PlainReads(body: string)
    requires ',' !in body
    ensures ReadsAs(body, Cut(Normal(body), '.').0, Cut(Normal(body), '.').1)
  {
    if '.' in body {
      DotReads(body);
    } else {
      DigitsOnly(body);
      CountZero(body, '.');
      assert body + "" == body;
    }
  }

  lemma DotReads(body: string)
    requires ',' !in body && '.' in body
    ensures ReadsAs(body, Cut(Normal(body), '.').0, Cut(Normal(body), '.').1)
  {
    var a, b := CutAtMark(body);
    CutUnique(a, b, '.');
    DotReadsParts(body, a, b);
  }

  lemma DotReadsParts(body: string, a: string, b: string)
    requires ',' !in body && body == a + ['.'] + b && '.' !in a
    requires FractionDigits(body) == |OnlyDigits(b)| && OnlyDigits(body) == OnlyDigits(a) + OnlyDigits(b)
    requires Count(body, '.') <= 1 <==> '.' !in b
    ensures ReadsAs(body, a, b)
  {
    assert Symbols(body) <==> Symbols(a) && Symbols(b) by {
      SymbolsConcat(a + ['.'], b);
      SymbolsConcat(a, ['.']);
    }
    assert ',' !in a && ',' !in b;
    DigitsOnly(a);
    DigitsOnly(b);
  }

  // ---------------------------------------------------------------------------------------------
  // Rounding.

  /** The kept digits, padded with zeros up to the scale, and whether to round up. */
  lemma RoundedValue(left: string, right: string, scale: nat)
    requires AllDigits(left) && AllDigits(right)
    ensures AllDigits(left + right)
    ensures |right| > scale ==>
              AllDigits(left + right[..scale]) &&
              HalfUp(NatOf(left + right), |right|, scale)
              == NatOf(left + right[..scale]) + if right[scale] >= '5' then 1 else 0
    ensures |right| <= scale ==>
              AllDigits(left + (right + Zeros(scale - |right|))) &&
              HalfUp(NatOf(left + right), |right|, scale) == NatOf(left + (right + Zeros(scale - |right|)))
  {
    if |right| > scale {
      var kept, dropped := left + right[..scale], right[scale..];
      assert left + right == kept + dropped;
      FirstDroppedDigit(kept, dropped);
    } else {
      var zeros := Zeros(scale - |right|);
      assert left + (right + zeros) == (left + right) + zeros;
      NatOfConcat(left + right, zeros);
      NatOfZeros(scale - |right|);
    }
  }

  lemma LeadingZero(s: string)
    requires AllDigits(s)
    ensures AllDigits("0" + s) && NatOf("0" + s) == NatOf(s)
  {
    assert "0"[..0] == "";
    NatOfConcat("0", s);
  }

  lemma ReadsNormal(body: string)
    ensures ReadsAs(body, Cut(Normal(body), '.').0, Cut(Normal(body), '.').1)
  {
    if ',' in body {
      CommaReads(body);
    } else {
      PlainReads(body);
    }
  }

  lemma {:induction false} RemoveNothing(s: string, c: char)
    requires c !in s
    ensures Remove(s, c) == s
  {
    if s == [] {
    } else {
      RemoveNothing(s[..|s| - 1], c);
      assert s == s[..|s| - 1] + [s[|s| - 1]];
    }
  }

  /** Once there is a comma, dots may stand anywhere and change nothing. */
  lemma DotsAreIgnored(body: string, scale: nat)
    requires ',' in body
    ensures Accepted(body) <==> Accepted(Remove(body, '.'))
    ensures Accepted(body) ==> Magnitude(body, scale) == Magnitude(Remove(body, '.'), scale)
  {
    var bare := Remove(body, '.');
    RemoveDots(body);
    RemoveNothing(bare, '.');
    assert Normal(bare) == Normal(body);
    ReadsNormal(body);
    ReadsNormal(bare);
  }

  // ---------------------------------------------------------------------------------------------
  // The grammar, and plain decimals.

  /** At most one means that no two places hold it. */
  lemma {:induction false} CountOnce(s: string, c: char)
    ensures Count(s, c) <= 1 <==> forall i, j :: 0 <= i < j < |s| && s[i] == c ==> s[j] != c
  {
    if s == [] {
    } else {
      var n := |s| - 1;
      CountOnce(s[..n], c);
      CountZero(s[..n], c);
      assert forall i :: 0 <= i < n ==> s[..n][i] == s[i];
      if s[n] == c && c in s[..n] {
        var i :| 0 <= i < n && s[i] == c;
        assert i < n;
      }
    }
  }

  ghost predicate HasDigit(t: string) {
    exists i :: 0 <= i < |t| && IsDigit(t[i])
  }

  /** A digit, and nothing but digits and marks behind at most one sign; one comma at most, or else one dot. */
  ghost predicate DecimalText(t: string) {
    && HasDigit(t)
    && (forall i :: 0 <= i < |t| ==>
          IsDigit(t[i]) || t[i] == ',' || t[i] == '.' || (i == 0 && (t[i] == '-' || t[i] == '+')))
    && Count(t, if ',' in t then ',' else '.') <= 1
  }

  lemma {:induction false} SomeDigit(s: string)
    ensures OnlyDigits(s) != "" <==> HasDigit(s)
  {
    if s == [] {
    } else {
      var n := |s| - 1;
      SomeDigit(s[..n]);
      assert forall i :: 0 <= i < n ==> s[..n][i] == s[i];
    }
  }

  lemma AcceptedText(body: string)
    ensures Accepted(body) <==> Symbols(body) && DecimalText(body)
  {
    SomeDigit(body);
  }

  lemma DigitBehindSign(c: char, body: string)
    requires !IsDigit(c)
    ensures HasDigit([c] + body) <==> HasDigit(body)
  {
    var t := [c] + body;
    if HasDigit(t) {
      var i :| 0 <= i < |t| && IsDigit(t[i]);
      assert IsDigit(body[i - 1]);
    }
    if HasDigit(body) {
      var i :| 0 <= i < |body| && IsDigit(body[i]);
      assert IsDigit(t[i + 1]);
    }
  }

  lemma MarksBehindSign(c: char, body: string, m: char)
    requires c != m
    ensures m in [c] + body <==> m in body
    ensures Count([c] + body, m) == Count(body, m)
  {
    CountConcat([c], body, m);
    CountZero([c], m);
  }

  lemma SignedText(c: char, body: string)
    requires c == '-' || c == '+'
    ensures Symbols(body) && DecimalText(body) <==> DecimalText([c] + body)
  {
    var t := [c] + body;
    DigitBehindSign(c, body);
    MarksBehindSign(c, body, ',');
    MarksBehindSign(c, body, '.');
    assert forall i :: 0 <= i < |body| ==> body[i] == t[i + 1];
    assert forall i :: 1 <= i < |t| ==> t[i] == body[i - 1];
  }

  /** The grammar of the trimmed text, its sign included. */
  lemma AcceptedExactly(t: string)
    ensures Accepted(Signed(t).1) <==> DecimalText(t)
  {
    AcceptedText(Signed(t).1);
    if t != "" && (t[0] == '-' || t[0] == '+') {
      assert t == [t[0]] + t[1..];
      SignedText(t[0], t[1..]);
    }
  }

  /** Rounding, range check and sign, on the two digit strings. */
  method Round(left: string, right: string, scale: nat, neg: bool) returns (r: Result)
    requires AllDigits(left) && AllDigits(right)
    ensures AllDigits(left + right)
    ensures var v := HalfUp(NatOf(left + right), |right|, scale);
            r == if v <= MAX_INT64 then Ok(if neg then -(v as int) else v) else Err(InvalidDecimal)
  {
    RoundedValue(left, right, scale);
    var roundUp, intPart, fracPart := false, left, right;
    if intPart == "" {
      intPart := "0";
    }
    if |fracPart| > scale {
      roundUp := fracPart[scale] >= '5';
      fracPart := fracPart[..scale];
    } else {
      fracPart := fracPart + Zeros(scale - |fracPart|);
    }
    if left == "" {
      assert left + fracPart == fracPart;
      LeadingZero(fracPart);
    }
    var parsed := ParseInt(intPart + fracPart);
    if parsed.Err? {
      return Err(InvalidDecimal);
    }
    var val := parsed.value;
    if roundUp {
      if val == MAX_INT64 {
        return Err(InvalidDecimal);
      }
      val := val + 1;
    }
    if neg {
      val := -val;
    }
    return Ok(val);
  }

  /** The second half of DecimalToMinor: the text without its sign. */
  method ReadUnsigned(body: string, scale: nat, neg: bool) returns (r: Result)
    ensures r == if Accepted(body) && Magnitude(body, scale) <= MAX_INT64
                 then Ok(if neg then -Magnitude(body, scale) else Magnitude(body, scale))
                 else Err(InvalidDecimal)
  {
    var s := body;
    if ',' in s {
      s := Remove(s, '.');
      s := Replace(s, ',', '.');
    }
    assert s == Normal(body);
    ReadsNormal(body);
    var (intPart, fracPart) := Cut(s, '.');
    if intPart == "" && fracPart == "" {
      return Err(InvalidDecimal);
    }
    var intOk := IsDigits(intPart);
    var fracOk := IsDigits(fracPart);
    if !intOk || !fracOk {
      return Err(InvalidDecimal);
    }
    r := Round(intPart, fracPart, scale, neg);
  }

  method DecimalToMinor(text: string, scale: int) returns (r: Result)
    ensures r == Meaning(text, scale)
  {
    if scale < 0 {
      return Err(NegativeScale);
    }
    var s := TrimSpace(text);
    if s == "" {
      return Err(InvalidDecimal);
    }
    var neg := false;
    if s[0] == '-' {
      neg, s := true, s[1..];
    } else if s[0] == '+' {
      s := s[1..];
    }
    assert (neg, s) == Signed(TrimSpace(text));
    r := ReadUnsigned(s, scale, neg);
  }

  // ---------------------------------------------------------------------------------------------
  // Plain decimals.

  lemma PlainBody(whole: string, mark: char, frac: string)
    requires AllDigits(whole) && AllDigits(frac) && whole + frac != "" && (mark == ',' || mark == '.')
    ensures var body := whole + [mark] + frac;
            Accepted(body) && OnlyDigits(body) == whole + frac && FractionDigits(body) == |frac|
  {
    var body := whole + [mark] + frac;
    assert body[|whole|] == mark;
    SymbolsConcat(whole + [mark], frac);
    SymbolsConcat(whole, [mark]);
    DigitsOnly(whole);
    DigitsOnly(frac);
    DigitsAroundMark(whole, mark, frac);
    CountAroundMark(whole, mark, frac);
    CountZero(whole, mark);
    CountZero(frac, mark);
    CutUnique(whole, frac, mark);
    assert Cut(body, mark).1 == frac;
  }

  lemma WholeBody(whole: string)
    requires AllDigits(whole) && whole != ""
    ensures Accepted(whole) && OnlyDigits(whole) == whole && FractionDigits(whole) == 0
  {
    DigitsOnly(whole);
    CountZero(whole, '.');
  }

  /** What becomes of a number of digits with so many decimals. */
  ghost predicate ReadsDigits(r: Result, neg: bool, digits: string, frac: nat, scale: nat)
    requires AllDigits(digits)
  {
    var v := HalfUp(NatOf(digits), frac, scale);
    r == if v <= 9223372036854775807 then Ok(if neg then -(v as int) else v) else Err(InvalidDecimal)
  }

  lemma SignRead(sign: string, body: string)
    requires sign in {"", "+", "-"} && body != "" && body[0] != '+' && body[0] != '-'
    ensures Signed(sign + body) == (sign == "-", body)
  {
    if sign == "" {
      assert sign + body == body;
    } else {
      assert (sign + body)[1..] == body;
    }
  }

  lemma InkEnds(sign: string, body: string)
    requires sign in {"", "+", "-"} && body != "" && Symbols(body)
    ensures var t := sign + body;
            t != [] && !IsGoSpace(t[0]) && !IsGoSpace(t[|t| - 1])
  {
    var t := sign + body;
    assert t[|t| - 1] == body[|body| - 1];
    assert t[0] == if sign == "" then body[0] else sign[0];
  }

  /**
   White space around the text, a plus or a minus in front, and digits with a comma or a dot between them: the number
   in minor units, if it fits in int64. Without a mark all digits are whole units.
   */
  lemma ReadsPlainDecimal(before: string, sign: string, whole: string, mark: char, frac: string, after: string,
                          scale: nat)
    requires Blank(before) && Blank(after) && sign in {"", "+", "-"} && (mark == ',' || mark == '.')
    requires AllDigits(whole) && AllDigits(frac) && whole + frac != ""
    ensures AllDigits(whole + frac)
    ensures ReadsDigits(Meaning(before + (sign + (whole + [mark] + frac)) + after, scale), sign == "-", whole + frac,
                        |frac|, scale)
    ensures whole != "" ==>
              ReadsDigits(Meaning(before + (sign + whole) + after, scale), sign == "-", whole, 0, scale)
  {
    AllDigitsConcat(whole, frac);
    var body := whole + [mark] + frac;
    PlainBody(whole, mark, frac);
    ReadsBody(before, sign, body, after, scale);
    if whole != "" {
      WholeBody(whole);
      ReadsBody(before, sign, whole, after, scale);
    }
  }

  lemma ReadsBody(before: string, sign: string, body: string, after: string, scale: nat)
    requires Blank(before) && Blank(after) && sign in {"", "+", "-"} && Accepted(body)
    ensures body != ""
    ensures ReadsDigits(Meaning(before + (sign + body) + after, scale), sign == "-", OnlyDigits(body),
                        FractionDigits(body), scale)
  {
    assert body != "";
    SignRead(sign, body);
    Trimmed(before, sign, body, after);
  }

  lemma Trimmed(before: string, sign: string, body: string, after: string)
    requires Blank(before) && Blank(after) && sign in {"", "+", "-"} && body != "" && Symbols(body)
    ensures TrimSpace(before + (sign + body) + after) == sign + body
  {
    InkEnds(sign, body);
    TrimLeavesMiddle(before, sign + body, after, IsGoSpace);
  }

  /** Only such texts are read, and none to a negative scale. */
  lemma ReadsNothingElse(text: string, scale: int)
    ensures scale < 0 ==> Meaning(text, scale) == Err(NegativeScale)
    ensures scale >= 0 && !DecimalText(TrimSpace(text)) ==> Meaning(text, scale) == Err(InvalidDecimal)
  {
    AcceptedExactly(TrimSpace(text));
  }
}
