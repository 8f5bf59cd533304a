// Integer literals: the value the lexer gives them and the value C gives them.
module CLiterals {
  import opened Text
  import opened CTokens
  import R = Radix

  // The digits, letters and names of C, apart from the lexer.

  predicate Decimal(c: char) { '0' <= c <= '9' }

  predicate Octal(c: char) { '0' <= c <= '7' }

  predicate Hexadecimal(c: char) { '0' <= c <= '9' || 'a' <= c <= 'f' || 'A' <= c <= 'F' }

  predicate SuffixLetter(c: char) { c == 'u' || c == 'U' || c == 'l' || c == 'L' }

  predicate NameStart(u: Tables, c: char) { u.alphabetic(c) || c == '_' }

  predicate NameChar(u: Tables, c: char) { u.alphabetic(c) || u.numeric(c) || c == '_' }

  ghost predicate AllDecimal(t: string) { forall k :: 0 <= k < |t| ==> Decimal(t[k]) }

  ghost predicate AllOctal(t: string) { forall k :: 0 <= k < |t| ==> Octal(t[k]) }

  ghost predicate AllHexadecimal(t: string) { forall k :: 0 <= k < |t| ==> Hexadecimal(t[k]) }

  // The value of an integer constant without its suffix (ISO C, section
  // 6.4.4.1), when the text is one.
  ghost function Constant(t: string): Option<nat> {
    if |t| > 2 && t[0] == '0' && (t[1] == 'x' || t[1] == 'X') && AllHexadecimal(t[2..]) then Some(R.Value(t[2..], 16))
    else if t != "" && t[0] == '0' && AllOctal(t) then Some(R.Value(t, 8))
    else if t != "" && '1' <= t[0] <= '9' && AllDecimal(t) then Some(R.Value(t, 10))
    else None
  }

  // What the lexer makes of it: zero stands for everything that is no constant
  // below 2^63.
  ghost function Meaning(t: string): int {
    if Constant(t).Some? && Constant(t).value < 0x8000_0000_0000_0000 then Constant(t).value else 0
  }

  predicate Prefixed(t: string) { |t| >= 2 && t[0] == '0' && (t[1] == 'x' || t[1] == 'X') }

  lemma DigitsAgree(t: string)
    ensures AllDigits(t, 16) <==> AllHexadecimal(t)
    ensures AllDigits(t, 10) <==> AllDecimal(t)
    ensures AllDigits(t, 8) <==> AllOctal(t)
  {
    forall k | 0 <= k < |t|
      ensures IsDigitIn(t[k], 16) <==> Hexadecimal(t[k])
      ensures IsDigitIn(t[k], 10) <==> Decimal(t[k])
      ensures IsDigitIn(t[k], 8) <==> Octal(t[k])
    {
    }
  }

  lemma TrimHex(t: string)
    requires Prefixed(t) && AllDigits(t[2..], 16)
    ensures TrimStart(TrimStart(t, "0x"), "0X") == t[2..]
  {
  }

  lemma ZeroIsOctal(t: string)
    requires t == "0"
    ensures AllDigits(t, 8) && R.Value(t, 8) == R.Value(t, 10) == 0
  {
  }

  lemma LiteralMeaning(t: string)
    requires t != "" && Decimal(t[0])
    requires if Prefixed(t) then AllHexadecimal(t[2..]) else AllDecimal(t)
    ensures LiteralValue(t, Prefixed(t)) == Meaning(t)
  {
    hide R.Value, TrimStart, AllDigits, AllDecimal, AllHexadecimal, AllOctal;
    DigitsAgree(t);
    if Prefixed(t) {
      DigitsAgree(t[2..]);
      TrimHex(t);
      NotDecimal(t);
    } else if t == "0" {
      ZeroIsOctal(t);
    }
  }

  lemma NotDecimal(t: string)
    requires Prefixed(t)
    ensures !AllDecimal(t) && !AllOctal(t)
  {
    assert t[1] == 'x' || t[1] == 'X';
  }

  // Runs

  lemma {:induction false} RunIs(u: Tables, s: string, i: nat, j: nat, k: Class)
    requires i <= j <= |s| && (forall m :: i <= m < j ==> In(u, k, s[m])) && (j == |s| || !In(u, k, s[j]))
    ensures RunEnd(u, s, i, k) == j
    decreases j - i
  {
    if i < j {
      RunIs(u, s, i + 1, j, k);
    }
  }

  // The digits of a literal go on as far as they can, and its suffix after them.

  predicate HexMark(s: string, i: nat) { i + 1 < |s| && s[i] == '0' && (s[i + 1] == 'x' || s[i + 1] == 'X') }

  ghost predicate LongestDigits(s: string, i: nat, d: nat) {
    if HexMark(s, i)
    then i + 2 <= d <= |s| && (forall m :: i + 2 <= m < d ==> Hexadecimal(s[m])) && (d == |s| || !Hexadecimal(s[d]))
    else i <= d <= |s| && (forall m :: i <= m < d ==> Decimal(s[m])) && (d == |s| || !Decimal(s[d]))
  }

  ghost predicate LongestSuffix(s: string, d: nat, e: nat) {
    d <= e <= |s| && (forall m :: d <= m < e ==> SuffixLetter(s[m])) && (e == |s| || !SuffixLetter(s[e]))
  }

  lemma DigitsRead(u: Tables, s: string, i: nat, d: nat)
    requires i < |s| && Decimal(s[i]) && LongestDigits(s, i, d)
    ensures DigitsEnd(u, s, i) == d
    ensures var t := s[i..d];
            && t != "" && t[0] == s[i] && (HexMark(s, i) <==> Prefixed(t))
            && if Prefixed(t) then AllHexadecimal(t[2..]) else AllDecimal(t)
  {
    var t := s[i..d];
    if HexMark(s, i) {
      RunIs(u, s, i + 2, d, Hex);
      assert t[1] == s[i + 1];
      forall m | 0 <= m < |t| - 2 ensures Hexadecimal(t[2..][m]) {
        assert t[2..][m] == s[i + 2 + m];
      }
    } else {
      RunIs(u, s, i, d, Digit);
      forall m | 0 <= m < |t| ensures Decimal(t[m]) {
        assert t[m] == s[i + m];
      }
    }
  }

  lemma MarkAhead(s: string, i: nat)
    ensures HexAhead(s, i) <==> HexMark(s, i)
  {
  }

  // Wherever a literal starts, its token has the value that C gives the longest
  // run of its digits, when they are a constant below 2^63, else 0, and ends
  // after the longest run of suffix letters.
  lemma LiteralExactly(u: Tables, s: string, i: nat, d: nat, e: nat)
    requires i < |s| && Decimal(s[i]) && LongestDigits(s, i, d) && LongestSuffix(s, d, e)
    ensures Next(u, s, i) == Lexeme(Some(IntLit(Meaning(s[i..d]))), e)
  {
    hide Meaning, LiteralValue, RunEnd, HexAhead, AllDecimal, AllHexadecimal, Prefixed, LongestDigits, DigitsEnd;
    MarkAhead(s, i);
    DigitsRead(u, s, i, d);
    RunIs(u, s, d, e, Suffix);
    LiteralMeaning(s[i..d]);
  }

  // A place where no longer word could go on.
  predicate WordStops(u: Tables, s: string, i: nat) { i >= |s| || !NameChar(u, s[i]) }

  // Every constant, with any suffix, is read whole and gets its C value.
  lemma LiteralRead(u: Tables, s: string, i: nat, t: string, suffix: string)
    requires Ascii(u) && Constant(t).Some? && forall c :: c in suffix ==> c in {'u', 'U', 'l', 'L'}
    requires At(s, i, t + suffix) && WordStops(u, s, i + |t + suffix|)
    ensures Next(u, s, i) == Lexeme(Some(IntLit(Meaning(t))), i + |t + suffix|)
  {
    hide Meaning, R.Value, Next;
    AtConcat(s, i, t, suffix);
    var d := i + |t|;
    AtSlice(s, i, t);
    assert s[i] == t[0];
    SuffixStands(u, s, d, suffix);
    ConstantEnds(s, i, t);
    LiteralExactly(u, s, i, d, i + |t + suffix|);
  }

  // After the digits comes a suffix letter or no word at all.
  lemma SuffixStands(u: Tables, s: string, d: nat, suffix: string)
    requires Ascii(u) && At(s, d, suffix) && WordStops(u, s, d + |suffix|)
    requires forall c :: c in suffix ==> c in {'u', 'U', 'l', 'L'}
    ensures d < |s| ==> !Hexadecimal(s[d]) && s[d] != 'x' && s[d] != 'X'
    ensures LongestSuffix(s, d, d + |suffix|)
  {
    forall m | d <= m < d + |suffix| ensures SuffixLetter(s[m]) {
      assert s[d + (m - d)] == suffix[m - d];
      assert suffix[m - d] in suffix;
    }
  }

  lemma ConstantEnds(s: string, i: nat, t: string)
    requires Constant(t).Some? && At(s, i, t)
    requires var d := i + |t|; d < |s| ==> !Hexadecimal(s[d]) && s[d] != 'x' && s[d] != 'X'
    ensures i < |s| && Decimal(s[i]) && LongestDigits(s, i, i + |t|)
  {
    hide R.Value;
    var d := i + |t|;
    assert forall m :: i <= m < d ==> s[m] == t[m - i];
    if Prefixed(t) {
      NotDecimal(t);
      assert AllHexadecimal(t[2..]) && |t| > 2;
      assert s[i + 1] == t[1];
      forall m | i + 2 <= m < d ensures Hexadecimal(s[m]) {
        assert t[2..][m - i - 2] == s[m];
      }
    } else {
      forall m | i <= m < d ensures Decimal(s[m]) {
        assert t[m - i] == s[m];
      }
    }
  }
}
