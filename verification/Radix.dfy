// Writing natural numbers in a base from 2 to 16, most significant digit first.
module Radix {

  function DigitChar(d: nat, upper: bool): char
    requires d < 16
  {
    if d < 10 then '0' + d as char
    else if upper then 'A' + (d - 10) as char
    else 'a' + (d - 10) as char
  }

  function DigitValue(c: char): nat {
    if '0' <= c <= '9' then c as int - '0' as int
    else if 'a' <= c <= 'f' then c as int - 'a' as int + 10
    else if 'A' <= c <= 'F' then c as int - 'A' as int + 10
    else 0
  }

  function Quot(n: nat, base: nat): (q: nat)
    requires base >= 2
    ensures q <= n && (n > 0 ==> q < n)
  {
    QuotLess(n, base);
    n / base
  }

  function Rem(n: nat, base: nat): (r: nat)
    requires base >= 2
    ensures r < base
  {
    n % base
  }

  lemma QuotLess(n: nat, base: nat)
    requires base >= 2
    ensures 0 <= n / base <= n && (n > 0 ==> n / base < n)
  {
  }

  lemma QuotRem(n: nat, base: nat)
    requires base >= 2
    ensures n == Quot(n, base) * base + Rem(n, base)
    ensures n < base ==> Rem(n, base) == n
  {
  }

  lemma QuotBelow(n: nat, base: nat, p: nat)
    requires base >= 2
    ensures Quot(n, base) < p <==> n < base * p
  {
    hide Quot, Rem;
    var q := Quot(n, base);
    QuotRem(n, base);
    if q < p {
      TimesGrows(q + 1, p, base);
    } else {
      TimesGrows(p, q, base);
    }
  }

  lemma TimesGrows(a: nat, b: nat, c: nat)
    requires a <= b
    ensures a * c <= b * c
  {
  }

  function Show(n: nat, base: nat, upper: bool): (s: string)
    requires 2 <= base <= 16
    ensures |s| > 0
  {
    if n < base then [DigitChar(n, upper)]
    else Show(Quot(n, base), base, upper) + [DigitChar(Rem(n, base), upper)]
  }

  function Dec(n: nat): (s: string)
    ensures |s| > 0
  {
    Show(n, 10, false)
  }

  // The value of a digit string.
  function Value(s: string, base: nat): nat {
    if s == "" then 0 else Value(s[..|s| - 1], base) * base + DigitValue(s[|s| - 1])
  }

  function Pow(b: nat, e: nat): nat { if e == 0 then 1 else b * Pow(b, e - 1) }

  lemma DigitCharValue(d: nat, upper: bool)
    requires d < 16
    ensures DigitValue(DigitChar(d, upper)) == d
    ensures DigitChar(d, upper) == '0' <==> d == 0
    ensures d < 10 ==> '0' <= DigitChar(d, upper) <= '9'
  {
  }

  // The digits in the order of their values.
  lemma DigitSpelt(d: nat)
    requires d < 16
    ensures DigitChar(d, false) == "0123456789abcdef"[d] && DigitChar(d, true) == "0123456789ABCDEF"[d]
  {
  }

  lemma {:induction false} ValueOfShow(n: nat, base: nat, upper: bool)
    requires 2 <= base <= 16
    ensures Value(Show(n, base, upper), base) == n
  {
    hide Quot, Rem, DigitChar, DigitValue;
    if n < base {
      DigitCharValue(n, upper);
      assert [DigitChar(n, upper)][..0] == "";
      assert Value("", base) == 0;
    } else {
      var front, d := Show(Quot(n, base), base, upper), Rem(n, base);
      DigitCharValue(d, upper);
      ValueOfShow(Quot(n, base), base, upper);
      ValuePush(front, DigitChar(d, upper), base);
      QuotRem(n, base);
    }
  }

  lemma ValuePush(s: string, c: char, base: nat)
    ensures Value(s + [c], base) == Value(s, base) * base + DigitValue(c)
  {
  }

  ghost predicate IsDigitOf(c: char, base: nat, upper: bool)
    requires base <= 16
  {
    c in (if upper then "0123456789ABCDEF" else "0123456789abcdef")[..base]
  }

  lemma DigitOf(d: nat, base: nat, upper: bool)
    requires d < base <= 16
    ensures IsDigitOf(DigitChar(d, upper), base, upper)
  {
    hide DigitChar;
    DigitSpelt(d);
    var all := if upper then "0123456789ABCDEF" else "0123456789abcdef";
    assert |all| == 16 && all[..base][d] == all[d];
  }

  lemma TenDigits(c: char)
    requires IsDigitOf(c, 10, false)
    ensures '0' <= c <= '9'
  {
    var all := "0123456789abcdef";
    var k :| 0 <= k < 10 && all[..10][k] == c;
    assert all[k] == c;
  }

  // Only digits of the base, and no leading zero except for zero itself.
  lemma {:induction false} ShowDigits(n: nat, base: nat, upper: bool)
    requires 2 <= base <= 16
    ensures forall k :: 0 <= k < |Show(n, base, upper)| ==> IsDigitOf(Show(n, base, upper)[k], base, upper)
    ensures Show(n, base, upper)[0] == '0' ==> n == 0
  {
    hide Quot, Rem, DigitChar, DigitValue, IsDigitOf;
    if n < base {
      DigitCharValue(n, upper);
      DigitOf(n, base, upper);
    } else {
      ShowDigits(Quot(n, base), base, upper);
      DigitOf(Rem(n, base), base, upper);
      QuotRem(n, base);
    }
  }

  lemma DecDigits(n: nat)
    ensures forall k :: 0 <= k < |Dec(n)| ==> '0' <= Dec(n)[k] <= '9'
    ensures Dec(n)[0] == '0' ==> n == 0
  {
    hide Show, IsDigitOf;
    ShowDigits(n, 10, false);
    forall k | 0 <= k < |Dec(n)| ensures '0' <= Dec(n)[k] <= '9' {
      TenDigits(Dec(n)[k]);
    }
  }

  // A number has at most e digits exactly when it is below base^e.
  lemma {:induction false} ShowLength(n: nat, base: nat, upper: bool, e: nat)
    requires 2 <= base <= 16 && e > 0
    ensures |Show(n, base, upper)| <= e <==> n < Pow(base, e)
    decreases e
  {
    hide Quot, Rem, DigitChar;
    PowPositive(base, e - 1);
    if e == 1 {
      assert Pow(base, 0) == 1;
    } else if n >= base {
      ShowLength(Quot(n, base), base, upper, e - 1);
      QuotBelow(n, base, Pow(base, e - 1));
    }
  }

  lemma {:induction false} PowPositive(b: nat, e: nat)
    requires b > 0
    ensures Pow(b, e) > 0 && Pow(b, e + 1) >= b
  {
    if e > 0 {
      PowPositive(b, e - 1);
    }
  }

  lemma ShowInjective(m: nat, n: nat, base: nat, upper: bool)
    requires 2 <= base <= 16 && Show(m, base, upper) == Show(n, base, upper)
    ensures m == n
  {
    ValueOfShow(m, base, upper);
    ValueOfShow(n, base, upper);
  }

  lemma DecIsShow(n: nat)
    ensures Dec(n) == Show(n, 10, false)
  {
  }

  lemma DecZero()
    ensures Dec(0) == "0"
  {
  }

  lemma DecValue(n: nat)
    ensures Value(Dec(n), 10) == n
  {
    hide Show;
    ValueOfShow(n, 10, false);
  }

  lemma DecInjective(m: nat, n: nat)
    requires Dec(m) == Dec(n)
    ensures m == n
  {
    hide Show;
    ShowInjective(m, n, 10, false);
  }

  // Padding with zeros

  function Zeros(n: nat): (z: string)
    ensures |z| == n && forall k :: 0 <= k < n ==> z[k] == '0'
  {
    if n == 0 then "" else Zeros(n - 1) + "0"
  }

  function PadStart(s: string, n: nat): string { if |s| < n then Zeros(n - |s|) + s else s }

  lemma {:induction false} ValueOfZeros(n: nat, s: string)
    ensures Value(Zeros(n) + s, 10) == Value(s, 10)
  {
    if s != "" {
      var m := |s| - 1;
      ValueOfZeros(n, s[..m]);
      assert (Zeros(n) + s)[..n + m] == Zeros(n) + s[..m];
    } else if n > 0 {
      ValueOfZeros(n - 1, "");
      assert Zeros(n) + "" == Zeros(n - 1) + ['0'];
      assert Zeros(n - 1) + "" == Zeros(n - 1);
      ValuePush(Zeros(n - 1), '0', 10);
    } else {
      assert Zeros(0) + "" == "";
    }
  }
}
