/** Trimming, as the standard libraries of both languages do it. */
module Text {
  /** Go's unicode.IsSpace, without the two characters on which JavaScript disagrees. */
  predicate IsCommonSpace(c: char) {
    || c in "\t\n\r \U{000b}\U{000c}\U{00a0}\U{1680}\U{2028}\U{2029}\U{202f}\U{205f}\U{3000}"
    || '\U{2000}' <= c <= '\U{200a}'
  }

  /** The characters strings.TrimSpace removes. */
  predicate IsGoSpace(c: char) {
    IsCommonSpace(c) || c == '\U{0085}'
  }

  /** The characters String.prototype.trim removes. */
  predicate IsJsSpace(c: char) {
    IsCommonSpace(c) || c == '\U{feff}'
  }

  function TrimLeft(s: string, space: char -> bool): string {
    if s != [] && space(s[0]) then TrimLeft(s[1..], space) else s
  }

  function TrimRight(s: string, space: char -> bool): string {
    if s != [] && space(s[|s| - 1]) then TrimRight(s[..|s| - 1], space) else s
  }

  function Trim(s: string, space: char -> bool): string {
    TrimRight(TrimLeft(s, space), space)
  }

  function TrimSpace(s: string): string {
    Trim(s, IsGoSpace)
  }

  ghost predicate Blank(s: string) {
    forall i :: 0 <= i < |s| ==> IsGoSpace(s[i])
  }

  lemma {:induction false} TrimLeftBlank(s: string, space: char -> bool)
    ensures TrimLeft(s, space) == [] <==> forall i :: 0 <= i < |s| ==> space(s[i])
    ensures TrimLeft(s, space) != [] ==> !space(TrimLeft(s, space)[0])
  {
    if s == [] || !space(s[0]) {
    } else {
      TrimLeftBlank(s[1..], space);
      assert s == [s[0]] + s[1..];
    }
  }

  lemma {:induction false} TrimRightKeepsFirst(s: string, space: char -> bool)
    requires s != [] && !space(s[0])
    ensures TrimRight(s, space) != []
  {
    if !space(s[|s| - 1]) {
    } else {
      TrimRightKeepsFirst(s[..|s| - 1], space);
    }
  }

  /** Trimming leaves nothing exactly when every character is white space. */
  lemma TrimBlank(s: string)
    ensures TrimSpace(s) == "" <==> Blank(s)
  {
    TrimLeftBlank(s, IsGoSpace);
    if TrimLeft(s, IsGoSpace) != [] {
      TrimRightKeepsFirst(TrimLeft(s, IsGoSpace), IsGoSpace);
    }
  }

  /** Text with no white space at either end is left alone. */
  lemma TrimNothing(s: string, space: char -> bool)
    requires s != [] ==> !space(s[0]) && !space(s[|s| - 1])
    ensures Trim(s, space) == s
  {
  }

  lemma {:induction false} TrimRightFixed(s: string, space: char -> bool)
    ensures TrimRight(TrimRight(s, space), space) == TrimRight(s, space)
    ensures TrimRight(s, space) != [] ==> TrimRight(s, space)[0] == s[0]
  {
    if s == [] || !space(s[|s| - 1]) {
    } else {
      TrimRightFixed(s[..|s| - 1], space);
    }
  }

  /** Trimming twice is trimming once. */
  lemma TrimFixed(s: string, space: char -> bool)
    ensures Trim(Trim(s, space), space) == Trim(s, space)
  {
    TrimLeftBlank(s, space);
    TrimRightFixed(TrimLeft(s, space), space);
  }

  lemma {:induction false} TrimLeftBounds(s: string, space: char -> bool) returns (a: nat)
    ensures a <= |s| && TrimLeft(s, space) == s[a..]
    ensures forall i :: 0 <= i < a ==> space(s[i])
    ensures a < |s| ==> !space(s[a])
  {
    if s != [] && space(s[0]) {
      a := TrimLeftBounds(s[1..], space);
      a := a + 1;
      assert s[1..][a - 1..] == s[a..];
      assert forall i :: 1 <= i < a ==> s[i] == s[1..][i - 1];
    } else {
      a := 0;
    }
  }

  lemma {:induction false} TrimRightBounds(s: string, space: char -> bool) returns (b: nat)
    ensures b <= |s| && TrimRight(s, space) == s[..b]
    ensures forall i :: b <= i < |s| ==> space(s[i])
    ensures b > 0 ==> !space(s[b - 1])
  {
    if s != [] && space(s[|s| - 1]) {
      b := TrimRightBounds(s[..|s| - 1], space);
      assert s[..|s| - 1][..b] == s[..b];
      assert b > 0 ==> s[b - 1] == s[..|s| - 1][b - 1];
    } else {
      b := |s|;
    }
  }

  /** Trimming leaves the stretch from the first to the last character that is not white space. */
  lemma TrimBounds(s: string, space: char -> bool) returns (a: nat, b: nat)
    requires Trim(s, space) != []
    ensures a < b <= |s| && Trim(s, space) == s[a..b]
    ensures forall i :: 0 <= i < a || b <= i < |s| ==> space(s[i])
    ensures !space(s[a]) && !space(s[b - 1])
  {
    a := TrimLeftBounds(s, space);
    var t := s[a..];
    var n := TrimRightBounds(t, space);
    b := a + n;
    assert t[..n] == s[a..b];
    assert forall i :: b <= i < |s| ==> s[i] == t[i - a];
    assert s[b - 1] == t[n - 1];
  }

  /** Go's trimming leaves more than JavaScript's exactly when it stops early at a byte order mark. */
  lemma TrimsDiffer(s: string)
    requires var t := Trim(s, IsJsSpace); t != [] && !IsGoSpace(t[0]) && !IsGoSpace(t[|t| - 1])
    ensures var t, g := Trim(s, IsJsSpace), TrimSpace(s);
            g != t ==> |g| > |t| && (g[0] == '\U{feff}' || g[|g| - 1] == '\U{feff}')
  {
    var a, b := TrimBounds(s, IsJsSpace);
    TrimSpaceStops(s, a);
    var a', b' := TrimBounds(s, IsGoSpace);
    assert s[a] == Trim(s, IsJsSpace)[0] && s[b - 1] == Trim(s, IsJsSpace)[b - a - 1];
    assert a' <= a && b <= b';
    var g := s[a'..b'];
    assert g[0] == s[a'] && g[|g| - 1] == s[b' - 1];
  }

  /** A character that is not white space keeps the trimmed text from being empty. */
  lemma TrimSpaceStops(s: string, i: nat)
    requires i < |s| && !IsGoSpace(s[i])
    ensures TrimSpace(s) != []
  {
    TrimBlank(s);
  }

  /** Text between white space is what trimming leaves. */
  lemma {:induction false} TrimLeavesMiddle(before: string, text: string, after: string, space: char -> bool)
    requires forall i :: 0 <= i < |before| ==> space(before[i])
    requires forall i :: 0 <= i < |after| ==> space(after[i])
    requires text != [] ==> !space(text[0]) && !space(text[|text| - 1])
    ensures Trim(before + text + after, space) == text
  {
    var s := before + text + after;
    if text == [] {
      assert forall i :: 0 <= i < |s| ==> space(s[i]);
      TrimLeftBlank(s, space);
    } else {
      TrimLeftOf(before, text + after, space);
      assert s == before + (text + after);
      TrimRightOf(text, after, space);
    }
  }

  lemma {:induction false} TrimLeftOf(before: string, text: string, space: char -> bool)
    requires forall i :: 0 <= i < |before| ==> space(before[i])
    requires text != [] && !space(text[0])
    ensures TrimLeft(before + text, space) == text
  {
    if before == [] {
      assert before + text == text;
    } else {
      TrimLeftOf(before[1..], text, space);
      assert (before + text)[1..] == before[1..] + text;
    }
  }

  lemma {:induction false} TrimRightOf(text: string, after: string, space: char -> bool)
    requires forall i :: 0 <= i < |after| ==> space(after[i])
    requires text != [] && !space(text[|text| - 1])
    ensures TrimRight(text + after, space) == text
  {
    if after == [] {
      assert text + after == text;
    } else {
      var n := |after| - 1;
      TrimRightOf(text, after[..n], space);
      assert (text + after)[..|text + after| - 1] == text + after[..n];
    }
  }

  /** The code points that both sides trim; Go also trims 0x85, and JavaScript 0xfeff. */
  lemma SpaceCharacters(c: char)
    ensures var n := c as int;
            var both := || 9 <= n <= 13 || n == 32 || n == 0xa0 || n == 0x1680 || 0x2000 <= n <= 0x200a
                        || n == 0x2028 || n == 0x2029 || n == 0x202f || n == 0x205f || n == 0x3000;
            (IsGoSpace(c) <==> both || n == 0x85) && (IsJsSpace(c) <==> both || n == 0xfeff)
  {
    var spaces := "\t\n\r \U{000b}\U{000c}\U{00a0}\U{1680}\U{2028}\U{2029}\U{202f}\U{205f}\U{3000}";
    assert c in spaces <==> c in {'\t', '\n', '\r', ' ', '\U{000b}', '\U{000c}', '\U{00a0}', '\U{1680}',
                                  '\U{2028}', '\U{2029}', '\U{202f}', '\U{205f}', '\U{3000}'};
  }
}
