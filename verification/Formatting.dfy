// The Wasm loader's printing of fixed-point decimals and of integers in a radix.
module Formatting {
  import opened Text
  import R = Radix

  // BigInt division truncates toward zero.
  function TruncDiv(a: int, b: int): int
    requires b > 0
  {
    if a >= 0 then a / b else -((-a) / b)
  }

  function TruncMod(a: int, b: int): int
    requires b > 0
  {
    a - TruncDiv(a, b) * b
  }

  function ToString(n: int): string { if n < 0 then "-" + R.Dec(-n) else R.Dec(n) }

  function Abs(n: int): nat { if n < 0 then -n else n }

  function Clamp(prec: int): nat { if prec < 0 then 0 else if prec > 40 then 40 else prec }

  // The mantissa v counts ten-thousandths. Below four digits it is rounded to
  // the grid of 10^-p, halves away from zero; from four on it is not divided.
  function Rounded(v: int, p: nat): int {
    var n := v * R.Pow(10, p);
    if p >= 4 then n else if n >= 0 then (n + 5000) / 10000 else -((5000 - n) / 10000)
  }

  // r / 10^p with p digits after the point.
  function FixedText(r: int, p: nat): string {
    R.PowPositive(10, p);
    var scale := R.Pow(10, p);
    (if r < 0 then "-" else "") + R.Dec(Abs(r) / scale)
    + if p == 0 then "" else "." + R.PadStart(R.Dec(Abs(r) % scale), p)
  }

  // BigInt arithmetic: what the requested precision makes of the mantissa.
  method ScaleMantissa(val: int, p: nat) returns (scaled: int, scale: nat)
    ensures scaled == Rounded(val, p) && scale == R.Pow(10, p) > 0
  {
    scale := 1;
    for i := 0 to p
      invariant scale == R.Pow(10, i) > 0
    {
      scale := scale * 10;
    }
    scaled := val * scale;
    if p < 4 {
      RoundsAway(scaled);
      var drop := TruncMod(scaled, 10000);
      scaled := TruncDiv(scaled, 10000);
      if drop <= -5000 {
        scaled := scaled - 1;
      } else if drop >= 5000 {
        scaled := scaled + 1;
      }
    }
  }

  method Dec64Fixed(val: int, prec: int) returns (s: string)
    ensures s == FixedText(Rounded(val, Clamp(prec)), Clamp(prec))
  {
    hide R.Dec, Rounded, TruncDiv, TruncMod, R.PadStart;
    var p := Clamp(prec);
    var scaled, scale := ScaleMantissa(val, p);
    var integer := TruncDiv(scaled, scale);
    var frac := TruncMod(scaled, scale);
    if frac < 0 {
      frac := -frac;
    }
    Truncated(scaled, scale);
    var fracStr := R.PadStart(R.Dec(frac), p);
    if p == 0 {
      Whole(scaled);
    }
    if scaled < 0 && integer == 0 {
      R.DecZero();
      s := "-0." + fracStr;
      assert s == "-" + "0" + ("." + fracStr);
    } else if p == 0 {
      s := ToString(integer);
      assert s == s + "";
    } else {
      s := ToString(integer) + "." + fracStr;
      assert s == ToString(integer) + ("." + fracStr);
    }
  }

  lemma Whole(n: int)
    ensures R.Pow(10, 0) == 1 && TruncDiv(n, 1) == n
  {
  }

  lemma Truncated(n: int, scale: nat)
    requires scale > 0
    ensures Abs(TruncDiv(n, scale)) == Abs(n) / scale && Abs(TruncMod(n, scale)) == Abs(n) % scale
    ensures n >= 0 ==> TruncDiv(n, scale) >= 0
    ensures n < 0 ==> TruncDiv(n, scale) <= 0
  {
    var a := Abs(n);
    assert a == a / scale * scale + a % scale;
    if n < 0 {
      assert -(a / scale) * scale == -(a / scale * scale);
    }
  }

  // Adding one away from zero when half or more was dropped rounds halves away.
  lemma RoundsAway(n: int)
    ensures var drop := TruncMod(n, 10000);
            var q := TruncDiv(n, 10000);
            (if drop <= -5000 then q - 1 else if drop >= 5000 then q + 1 else q)
            == if n >= 0 then (n + 5000) / 10000 else -((5000 - n) / 10000)
  {
  }

  // Rounding

  // Ten thousand grid steps of r against the mantissa: at most half a step
  // away, halves going away from zero.
  predicate Nearest(r: int, v: int, p: nat) {
    var n := v * R.Pow(10, p);
    -5000 <= 10000 * r - n <= 5000 && (n - 10000 * r == 5000 ==> n < 0) && (10000 * r - n == 5000 ==> n > 0)
  }

  // The text shows the nearest number of its grid exactly when fewer than four
  // digits are asked for, or the number is zero.
  lemma RoundedExactly(v: int, p: nat)
    ensures Nearest(Rounded(v, p), v, p) <==> p < 4 || v == 0
    ensures p < 4 && v * R.Pow(10, p) % 10000 == 0 ==> 10000 * Rounded(v, p) == v * R.Pow(10, p)
    ensures p >= 4 ==> Rounded(v, p) == v * R.Pow(10, p)
  {
    hide R.Pow;
    if p >= 4 && v != 0 {
      TenThousand(p);
      Grows(v, R.Pow(10, p));
    }
  }

  lemma Grows(v: int, s: nat)
    requires s >= 10000 && v != 0
    ensures v * s <= -10000 || v * s >= 10000
  {
  }

  lemma TimesMore(a: nat, b: nat, c: nat, d: nat)
    requires a <= b && c <= d
    ensures a * c <= b * d
  {
  }

  lemma {:induction false} TenThousand(p: nat)
    requires p >= 4
    ensures R.Pow(10, p) >= 10000
  {
    if p == 4 {
      assert R.Pow(10, 1) == 10 && R.Pow(10, 2) == 100 && R.Pow(10, 3) == 1000;
    } else {
      TenThousand(p - 1);
    }
  }

  // Reading back

  predicate AllDecimal(s: string) { forall k :: 0 <= k < |s| ==> '0' <= s[k] <= '9' }

  // The numerator over 10^p of digits, a point and p digits.
  function ReadBody(body: string, p: nat): Option<int> {
    var m := if p == 0 then |body| else |body| - p - 1;
    if m <= 0 || !AllDecimal(body[..m]) then None
    else if p == 0 then Some(R.Value(body, 10))
    else if body[m] != '.' || !AllDecimal(body[m + 1..]) then None
    else Some(R.Value(body[..m], 10) * R.Pow(10, p) + R.Value(body[m + 1..], 10))
  }

  // The same after an optional sign.
  function ReadFixed(s: string, p: nat): Option<int> {
    if s == "" || s[0] != '-' then ReadBody(s, p) else
    var r := ReadBody(s[1..], p);
    if r.Some? then Some(-r.value) else None
  }

  lemma DecReads(n: nat)
    ensures AllDecimal(R.Dec(n)) && R.Value(R.Dec(n), 10) == n
  {
    hide R.Dec, R.Value;
    R.DecDigits(n);
    R.DecValue(n);
  }

  lemma PaddedReads(n: nat, p: nat)
    requires p > 0 && n < R.Pow(10, p)
    ensures var t := R.PadStart(R.Dec(n), p); |t| == p && AllDecimal(t) && R.Value(t, 10) == n
  {
    hide R.Dec, R.Value, R.Show, R.Zeros, R.Pow;
    var d := R.Dec(n);
    R.DecIsShow(n);
    R.ShowLength(n, 10, false, p);
    DecReads(n);
    if |d| < p {
      R.ValueOfZeros(p - |d|, d);
    }
  }

  function Sign(negative: bool): string { if negative then "-" else "" }

  lemma PointReads(whole: string, frac: string, p: nat)
    requires p > 0 && whole != "" && AllDecimal(whole) && AllDecimal(frac) && |frac| == p
    ensures ReadBody(whole + ("." + frac), p) == Some(R.Value(whole, 10) * R.Pow(10, p) + R.Value(frac, 10))
  {
    hide R.Value, R.Pow, AllDecimal;
    PointSlices(whole, frac);
  }

  lemma PointSlices(whole: string, frac: string)
    ensures var body := whole + ("." + frac);
            && |body| == |whole| + 1 + |frac| && body[..|whole|] == whole
            && body[|whole|] == '.' && body[|whole| + 1..] == frac
  {
  }

  lemma WholeReads(whole: string)
    requires whole != "" && AllDecimal(whole)
    ensures ReadBody(whole, 0) == Some(R.Value(whole, 10))
  {
  }

  lemma SignReads(negative: bool, body: string, p: nat, value: int)
    requires body != "" && body[0] != '-' && ReadBody(body, p) == Some(value)
    ensures ReadFixed(Sign(negative) + body, p) == Some(if negative then -value else value)
  {
    hide ReadBody;
    if negative {
      assert (Sign(negative) + body)[1..] == body;
    } else {
      assert Sign(negative) + body == body;
    }
  }

  lemma DivRem(a: nat, scale: nat)
    requires scale > 0
    ensures a / scale >= 0 && 0 <= a % scale < scale && a / scale * scale + a % scale == a
    ensures scale == 1 ==> a / scale == a
  {
  }

  // What is printed denotes exactly r / 10^p, the sign of "-0." included.
  lemma FixedReads(r: int, p: nat)
    ensures ReadFixed(FixedText(r, p), p) == Some(r)
  {
    hide R.Dec, R.Value, ReadFixed, ReadBody, R.Pow, R.PadStart;
    R.PowPositive(10, p);
    var scale := R.Pow(10, p);
    var a := Abs(r);
    DivRem(a, scale);
    var whole := R.Dec(a / scale);
    DecReads(a / scale);
    if p == 0 {
      Whole(r);
      WholeReads(whole);
      SignReads(r < 0, whole, p, a);
      assert FixedText(r, p) == Sign(r < 0) + whole + "" == Sign(r < 0) + whole;
    } else {
      var frac := R.PadStart(R.Dec(a % scale), p);
      PaddedReads(a % scale, p);
      PointReads(whole, frac, p);
      SignReads(r < 0, whole + ("." + frac), p, a);
      assert FixedText(r, p) == Sign(r < 0) + (whole + ("." + frac));
    }
  }

  // The text's shape: a minus sign exactly for negative numbers, a whole part
  // without needless zeros, and p digits after the point.
  lemma FixedShape(r: int, p: nat)
    ensures exists whole, frac ::
      && FixedText(r, p) == Sign(r < 0) + whole + Point(frac) && |frac| == p
      && whole != "" && AllDecimal(whole) && AllDecimal(frac) && (whole[0] == '0' ==> whole == "0")
  {
    hide R.Dec, R.Value, R.Pow, R.PadStart, AllDecimal;
    R.PowPositive(10, p);
    var scale := R.Pow(10, p);
    var a := Abs(r);
    DivRem(a, scale);
    var whole := R.Dec(a / scale);
    DecReads(a / scale);
    NoLeadingZero(a / scale);
    var frac := if p == 0 then "" else R.PadStart(R.Dec(a % scale), p);
    assert AllDecimal("") by { NoDigits(); }
    if p > 0 {
      PaddedReads(a % scale, p);
    }
    assert FixedText(r, p) == Sign(r < 0) + whole + Point(frac);
  }

  function Point(frac: string): string { if frac == "" then "" else "." + frac }

  lemma NoDigits()
    ensures AllDecimal("")
  {
  }

  lemma NoLeadingZero(n: nat)
    ensures R.Dec(n)[0] == '0' ==> R.Dec(n) == "0"
  {
    hide R.Dec;
    R.DecDigits(n);
    if R.Dec(n)[0] == '0' {
      R.DecZero();
    }
  }

  // Whatever precision is asked for: the digits shown are that many, but no fewer
  // than none and no more than forty, and what they denote.
  lemma PrintedMeans(val: int, prec: int)
    ensures var p := if prec < 0 then 0 else if prec > 40 then 40 else prec;
            exists r :: ReadFixed(FixedText(Rounded(val, Clamp(prec)), Clamp(prec)), p) == Some(r)
                        && if p < 4 then Nearest(r, val, p) else r == val * R.Pow(10, p)
  {
    hide Rounded, FixedText, ReadFixed, Nearest, R.Pow;
    var p := Clamp(prec);
    RoundedExactly(val, p);
    FixedReads(Rounded(val, p), p);
  }

  // Integers in a radix

  const WIDTH := 0x1_0000_0000_0000_0000

  function Base(radix: int): (b: nat)
    ensures 2 <= b <= 16
  {
    if radix < 2 || radix > 16 then 16 else radix
  }

  // BigInt.asUintN(64, v)
  function Low64(v: int): nat { v % WIDTH }

  method IntToStrRadix(v: int, radix: int, upper: bool) returns (s: string)
    ensures s == R.Show(Low64(v), Base(radix), upper)
  {
    hide R.DigitChar, R.Quot, R.Rem, Low64;
    var base := Base(radix);
    var u := Low64(v);
    s := [R.DigitChar(R.Rem(u, base), upper)];
    R.QuotRem(u, base);
    u := R.Quot(u, base);
    while u > 0
      invariant R.Show(Low64(v), base, upper) == if u == 0 then s else R.Show(u, base, upper) + s
    {
      R.QuotRem(u, base);
      var digit := [R.DigitChar(R.Rem(u, base), upper)];
      assert R.Quot(u, base) > 0 ==>
        R.Show(R.Quot(u, base), base, upper) + digit + s == R.Show(R.Quot(u, base), base, upper) + (digit + s);
      s := digit + s;
      u := R.Quot(u, base);
    }
  }

  lemma {:induction false} PowAdd(b: nat, m: nat, n: nat)
    ensures R.Pow(b, m + n) == R.Pow(b, m) * R.Pow(b, n)
  {
    if m > 0 {
      PowAdd(b, m - 1, n);
      assert b * (R.Pow(b, m - 1) * R.Pow(b, n)) == b * R.Pow(b, m - 1) * R.Pow(b, n);
    }
  }

  lemma {:induction false} PowGrows(b: nat, c: nat, e: nat)
    requires b <= c
    ensures R.Pow(b, e) <= R.Pow(c, e)
  {
    if e > 0 {
      PowGrows(b, c, e - 1);
      TimesMore(b, c, R.Pow(b, e - 1), R.Pow(c, e - 1));
    }
  }

  lemma TwoTo64()
    ensures R.Pow(2, 64) == WIDTH
  {
    assert R.Pow(2, 4) == 16 by { assert R.Pow(2, 2) == 4; }
    PowAdd(2, 4, 4);
    PowAdd(2, 8, 8);
    PowAdd(2, 16, 16);
    PowAdd(2, 32, 32);
  }

  // Reading the digits back gives v modulo 2^64, with no leading zero but that
  // of "0" itself, in at most 64 digits of the base.
  lemma RadixReads(v: int, radix: int, upper: bool)
    ensures var s := R.Show(Low64(v), Base(radix), upper);
            var base := if 2 <= radix <= 16 then radix else 16;
            && R.Value(s, base) == v % WIDTH && 0 < |s| <= 64
            && (s[0] == '0' ==> v % WIDTH == 0)
            && forall k :: 0 <= k < |s| ==> R.IsDigitOf(s[k], base, upper)
  {
    hide R.Show, R.Value, R.Pow, R.IsDigitOf;
    var u, base := Low64(v), Base(radix);
    R.ValueOfShow(u, base, upper);
    R.ShowDigits(u, base, upper);
    TwoTo64();
    PowGrows(2, base, 64);
    R.ShowLength(u, base, upper, 64);
  }
}
