// 64-bit FNV-1a as incremental.rs and build.rs compute it: exclusive or with
// the byte, then a multiplication that wraps at 64 bits.
module Fnv {
  import R = Radix

  type Byte = x: int | 0 <= x < 256

  const WIDTH := 0x1_0000_0000_0000_0000

  // A u64
  type Word = x: int | 0 <= x < 0x1_0000_0000_0000_0000

  const OFFSET: Word := 0xcbf29ce484222325
  const PRIME: Word := 0x100000001b3

  // The inverse of PRIME modulo 2^64.
  const INVERSE: Word := 0xce965057aff6957b

  // wrapping_mul
  function Times(x: Word): Word { x * PRIME % WIDTH }

  function Over(x: Word): Word { x * INVERSE % WIDTH }

  // Exclusive or of the lowest n bits.
  function XorBits(a: nat, b: nat, n: nat): nat {
    if n == 0 then 0 else XorBits(a / 2, b / 2, n - 1) * 2 + (a + b) % 2
  }

  function XorByte(a: Byte, b: Byte): Byte {
    XorBelow(a, b, 8);
    XorBits(a, b, 8)
  }

  lemma {:induction false} XorBelow(a: nat, b: nat, n: nat)
    ensures XorBits(a, b, n) < R.Pow(2, n)
    ensures R.Pow(2, 8) == 256
  {
    if n > 0 {
      XorBelow(a / 2, b / 2, n - 1);
    }
    assert R.Pow(2, 4) == 16;
  }

  // Exclusive or with a byte only touches the lowest eight bits.
  function Xor(h: Word, b: Byte): (r: Word)
    ensures r / 256 == h / 256 && r % 256 == XorByte(h % 256, b)
  {
    XorFits(h, XorByte(h % 256, b));
    h - h % 256 + XorByte(h % 256, b)
  }

  lemma XorFits(h: Word, low: int)
    requires 0 <= low < 256
    ensures var r := h - h % 256 + low; 0 <= r < WIDTH && r / 256 == h / 256 && r % 256 == low
  {
  }

  function Mix(h: Word, b: Byte): Word { Times(Xor(h, b)) }

  function Unmix(h: Word, b: Byte): Word { Xor(Over(h), b) }

  function Fold(h: Word, bytes: seq<Byte>): Word {
    if bytes == [] then h else Mix(Fold(h, bytes[..|bytes| - 1]), bytes[|bytes| - 1])
  }

  // Reducing between two multiplications changes nothing.
  lemma ReduceBetween(a: nat, b: nat, m: nat)
    requires m > 0
    ensures a % m * b % m == a * b % m
  {
    var q, r := a / m, a % m;
    assert a * b == r * b + (q * b) * m by { assert a == q * m + r; }
    AddMultiple(r * b, q * b, m);
  }

  lemma AddMultiple(x: int, k: int, m: nat)
    requires m > 0
    ensures (x + k * m) % m == x % m
  {
    var q, r := x / m, x % m;
    assert x + k * m == (q + k) * m + r;
    Remainder(q + k, r, m);
  }

  lemma Remainder(q: int, r: int, m: nat)
    requires 0 <= r < m
    ensures (q * m + r) % m == r
  {
    var n := q * m + r;
    var d := n / m - q;
    assert d * m == r - n % m by { assert n == n / m * m + n % m; }
    assert d > 0 ==> d * m >= m;
    assert d < 0 ==> d * m <= 0 - m;
  }

  lemma TimesBack(x: Word, a: nat, b: nat)
    requires a * b == 887285111055 * WIDTH + 1
    ensures x * a % WIDTH * b % WIDTH == x
  {
    ReduceBetween(x * a, b, WIDTH);
    assert x * a * b == x * (a * b) == x + (x * 887285111055) * WIDTH;
    AddMultiple(x, x * 887285111055, WIDTH);
  }

  lemma OverTimes(x: Word)
    ensures Over(Times(x)) == x && Times(Over(x)) == x
  {
    TimesBack(x, PRIME, INVERSE);
    TimesBack(x, INVERSE, PRIME);
  }

  lemma Parity(a: nat, b: nat)
    ensures ((a + b) % 2 + b) % 2 == a % 2
  {
  }

  lemma Halves(x: nat, bit: nat)
    requires bit < 2
    ensures (x * 2 + bit) / 2 == x && (x * 2 + bit) % 2 == bit
  {
  }

  lemma XorBitsStep(a: nat, b: nat, n: nat)
    requires n > 0
    ensures XorBits(a, b, n) / 2 == XorBits(a / 2, b / 2, n - 1) && XorBits(a, b, n) % 2 == (a + b) % 2
  {
    hide XorBits;
    assert XorBits(a, b, n) == XorBits(a / 2, b / 2, n - 1) * 2 + (a + b) % 2 by { XorBitsIs(a, b, n); }
    Halves(XorBits(a / 2, b / 2, n - 1), (a + b) % 2);
  }

  lemma XorBitsIs(a: nat, b: nat, n: nat)
    requires n > 0
    ensures XorBits(a, b, n) == XorBits(a / 2, b / 2, n - 1) * 2 + (a + b) % 2
  {
  }

  lemma {:induction false} XorBitsBack(a: nat, b: nat, n: nat)
    requires a < R.Pow(2, n)
    ensures XorBits(XorBits(a, b, n), b, n) == a
    decreases n
  {
    hide XorBits;
    if n == 0 {
      NoBits(a, b);
    } else {
      var r := XorBits(a, b, n);
      XorBitsBack(a / 2, b / 2, n - 1);
      XorBitsStep(a, b, n);
      XorBitsIs(r, b, n);
      Parity(a, b);
    }
  }

  lemma NoBits(a: nat, b: nat)
    ensures XorBits(a, b, 0) == 0
  {
  }

  lemma {:induction false} XorBitsSwap(a: nat, b: nat, n: nat)
    ensures XorBits(a, b, n) == XorBits(b, a, n)
    decreases n
  {
    if n > 0 {
      XorBitsSwap(a / 2, b / 2, n - 1);
    }
  }

  lemma XorByteBack(a: Byte, b: Byte)
    ensures XorByte(XorByte(a, b), b) == a && XorByte(a, b) == XorByte(b, a)
  {
    hide XorBits;
    XorBelow(a, b, 8);
    XorBitsBack(a, b, 8);
    XorBitsSwap(a, b, 8);
  }

  lemma XorByteInjective(a: Byte, b: Byte, c: Byte)
    requires XorByte(a, b) == XorByte(a, c)
    ensures b == c
  {
    hide XorByte;
    XorByteBack(b, a);
    XorByteBack(c, a);
  }

  lemma XorXor(h: Word, b: Byte)
    ensures Xor(Xor(h, b), b) == h
  {
    hide XorByte, Xor;
    var g := Xor(h, b);
    XorByteBack(h % 256, b);
    assert Xor(g, b) / 256 == h / 256 && Xor(g, b) % 256 == h % 256;
  }

  // For a fixed byte, mixing is a bijection of the state.
  lemma MixBijective(h: Word, b: Byte)
    ensures Unmix(Mix(h, b), b) == h
    ensures Mix(Unmix(h, b), b) == h
  {
    hide Times, Over, Xor;
    OverTimes(Xor(h, b));
    OverTimes(h);
    XorXor(h, b);
    XorXor(Over(h), b);
  }

  lemma XorInjective(h: Word, b: Byte, c: Byte)
    requires Xor(h, b) == Xor(h, c)
    ensures b == c
  {
    hide XorByte, Xor;
    XorByteInjective(h % 256, b, c);
  }

  // For a fixed state, different bytes give different states.
  lemma MixByteInjective(h: Word, b: Byte, c: Byte)
    requires Mix(h, b) == Mix(h, c)
    ensures b == c
  {
    hide Times, Over, Xor;
    OverTimes(Xor(h, b));
    OverTimes(Xor(h, c));
    XorInjective(h, b, c);
  }

  lemma {:induction false} FoldConcat(h: Word, a: seq<Byte>, b: seq<Byte>)
    ensures Fold(h, a + b) == Fold(Fold(h, a), b)
    decreases |b|
  {
    hide Mix;
    if b == [] {
      assert a + b == a;
    } else {
      var n := |b| - 1;
      FoldConcat(h, a, b[..n]);
      assert (a + b)[..|a| + n] == a + b[..n];
    }
  }

  // Reading on keeps different states different.
  lemma {:induction false} FoldInjective(g: Word, h: Word, bytes: seq<Byte>)
    ensures Fold(g, bytes) == Fold(h, bytes) <==> g == h
  {
    hide Mix, Unmix;
    if bytes != [] {
      var n := |bytes| - 1;
      FoldInjective(g, h, bytes[..n]);
      MixBijective(Fold(g, bytes[..n]), bytes[n]);
      MixBijective(Fold(h, bytes[..n]), bytes[n]);
    }
  }

  // Two inputs that differ in one byte never collide.
  lemma OneByteSeparates(h: Word, front: seq<Byte>, b: Byte, c: Byte, back: seq<Byte>)
    requires b != c
    ensures Fold(h, front + [b] + back) != Fold(h, front + [c] + back)
  {
    hide Mix;
    FoldConcat(h, front + [b], back);
    FoldConcat(h, front + [c], back);
    FoldInjective(Fold(h, front + [b]), Fold(h, front + [c]), back);
    assert (front + [b])[..|front|] == front == (front + [c])[..|front|];
    if Mix(Fold(h, front), b) == Mix(Fold(h, front), c) {
      MixByteInjective(Fold(h, front), b, c);
    }
  }

  // The hexadecimal form, padded to sixteen digits.

  // The lowest n hexadecimal digits, most significant first.
  function Hex(h: nat, n: nat): (s: string)
    ensures |s| == n
  {
    if n == 0 then "" else Hex(R.Quot(h, 16), n - 1) + [R.DigitChar(R.Rem(h, 16), false)]
  }

  predicate LowerHex(c: char) { '0' <= c <= '9' || 'a' <= c <= 'f' }

  function Hex16(h: Word): string { Hex(h, 16) }

  lemma {:induction false} HexReads(h: nat, n: nat)
    requires h < R.Pow(16, n)
    ensures R.Value(Hex(h, n), 16) == h
    ensures forall k :: 0 <= k < n ==> LowerHex(Hex(h, n)[k])
    decreases n
  {
    hide R.Quot, R.Rem, R.DigitChar, R.DigitValue;
    if n > 0 {
      var front, d := Hex(R.Quot(h, 16), n - 1), R.Rem(h, 16);
      R.QuotBelow(h, 16, R.Pow(16, n - 1));
      HexReads(R.Quot(h, 16), n - 1);
      R.DigitCharValue(d, false);
      R.DigitSpelt(d);
      R.ValuePush(front, R.DigitChar(d, false), 16);
      R.QuotRem(h, 16);
    }
  }

  lemma SixteenTo16()
    ensures R.Pow(16, 16) == WIDTH
  {
    assert R.Pow(16, 4) == 0x1_0000 && R.Pow(16, 8) == 0x1_0000_0000 && R.Pow(16, 12) == 0x1_0000_0000_0000;
  }

  // The text is the number in sixteen lower-case hexadecimal digits,
  lemma Hex16Reads(h: Word)
    ensures |Hex16(h)| == 16 && R.Value(Hex16(h), 16) == h
    ensures forall k :: 0 <= k < 16 ==> LowerHex(Hex16(h)[k])
  {
    SixteenTo16();
    HexReads(h, 16);
  }

  // so it tells any two numbers apart.
  lemma Hex16Injective(g: Word, h: Word)
    requires Hex16(g) == Hex16(h)
    ensures g == h
  {
    hide Hex16, R.Value;
    Hex16Reads(g);
    Hex16Reads(h);
  }

  // IncrementalCache::calculate_hash
  function Hash(content: seq<Byte>): string { Hex16(Fold(OFFSET, content)) }

  method CalculateHash(content: seq<Byte>) returns (text: string)
    ensures text == Hash(content)
  {
    hide Mix, Hex16;
    var hash := OFFSET;
    for i := 0 to |content|
      invariant hash == Fold(OFFSET, content[..i])
    {
      hash := Mix(hash, content[i]);
      assert content[..i + 1][..i] == content[..i];
    }
    assert content[..|content|] == content;
    text := Hex16(hash);
  }

  // Published values of 64-bit FNV-1a.

  lemma KnownFlip()
    ensures XorByte(0x25, 0x61) == 0x44
  {
    assert XorBits(2, 6, 4) == 4;
    assert XorBits(0x25, 0x61, 8) == XorBits(2, 6, 4) * 16 + 4;
  }

  lemma KnownStates()
    ensures Fold(OFFSET, []) == 0xcbf29ce484222325
    ensures Fold(OFFSET, [0x61]) == 0xaf63dc4c8601ec8c
  {
    hide XorByte;
    KnownFlip();
    var b := [0x61 as Byte];
    assert b[..0] == [];
    assert OFFSET % 256 == 0x25;
    assert Xor(OFFSET, 0x61) == 0xcbf29ce484222344;
    hide Xor;
    assert Mix(OFFSET, 0x61) == 0xaf63dc4c8601ec8c;
  }

  // A number has one sixteen-digit text.
  lemma {:induction false} HexIs(t: string)
    requires forall k :: 0 <= k < |t| ==> LowerHex(t[k])
    ensures Hex(R.Value(t, 16), |t|) == t
    decreases |t|
  {
    hide R.DigitChar, R.DigitValue, R.Quot, R.Rem, Hex;
    if t == "" {
      NoHex();
    } else {
      var n := |t| - 1;
      HexIs(t[..n]);
      LastDigit(t[n]);
      HexPush(R.Value(t[..n], 16), n, t[n]);
      assert t == t[..n] + [t[n]];
    }
  }

  lemma NoHex()
    ensures Hex(0, 0) == "" && R.Value("", 16) == 0
  {
  }

  lemma HexPush(q: nat, n: nat, c: char)
    requires LowerHex(c)
    ensures Hex(q * 16 + R.DigitValue(c), n + 1) == Hex(q, n) + [c]
  {
    hide R.DigitChar, R.DigitValue, R.Quot, R.Rem;
    LastDigit(c);
    QuotRemIs(q * 16 + R.DigitValue(c), q, R.DigitValue(c));
  }

  lemma QuotRemIs(h: nat, q: nat, r: nat)
    requires h == q * 16 + r && r < 16
    ensures R.Quot(h, 16) == q && R.Rem(h, 16) == r
  {
  }

  lemma LastDigit(c: char)
    requires LowerHex(c)
    ensures R.DigitValue(c) < 16 && R.DigitChar(R.DigitValue(c), false) == c
  {
  }

  lemma KnownHashes()
    ensures Hash([]) == "cbf29ce484222325" && Hash([0x61]) == "af63dc4c8601ec8c"
  {
    hide Fold, Hex, R.DigitValue;
    KnownStates();
    EmptyText();
    LetterText();
    HexIs("cbf29ce484222325");
    HexIs("af63dc4c8601ec8c");
  }

  lemma FourDigits(t: string, a: char, b: char, c: char, d: char)
    ensures R.Value(t + [a, b, c, d], 16)
         == R.Value(t, 16) * 0x1_0000 + R.DigitValue(a) * 0x1000 + R.DigitValue(b) * 0x100 + R.DigitValue(c) * 0x10
            + R.DigitValue(d)
  {
    hide R.DigitValue, R.Value;
    assert t + [a, b, c, d] == t + [a] + [b] + [c] + [d];
    R.ValuePush(t, a, 16);
    R.ValuePush(t + [a], b, 16);
    R.ValuePush(t + [a] + [b], c, 16);
    R.ValuePush(t + [a] + [b] + [c], d, 16);
  }

  lemma EmptyText()
    ensures R.Value("cbf29ce484222325", 16) == 0xcbf29ce484222325
  {
    hide R.Value;
    NoHex();
    assert R.Value("cbf2", 16) == 0xcbf2 by {
      FourDigits("", 'c', 'b', 'f', '2');
      assert "" + ['c', 'b', 'f', '2'] == "cbf2";
    }
    assert R.Value("cbf29ce4", 16) == 0xcbf29ce4 by {
      FourDigits("cbf2", '9', 'c', 'e', '4');
      assert "cbf2" + ['9', 'c', 'e', '4'] == "cbf29ce4";
    }
    assert R.Value("cbf29ce48422", 16) == 0xcbf29ce48422 by {
      FourDigits("cbf29ce4", '8', '4', '2', '2');
      assert "cbf29ce4" + ['8', '4', '2', '2'] == "cbf29ce48422";
    }
    FourDigits("cbf29ce48422", '2', '3', '2', '5');
    assert "cbf29ce48422" + ['2', '3', '2', '5'] == "cbf29ce484222325";
  }

  lemma LetterText()
    ensures R.Value("af63dc4c8601ec8c", 16) == 0xaf63dc4c8601ec8c
  {
    hide R.Value;
    NoHex();
    assert R.Value("af63", 16) == 0xaf63 by {
      FourDigits("", 'a', 'f', '6', '3');
      assert "" + ['a', 'f', '6', '3'] == "af63";
    }
    assert R.Value("af63dc4c", 16) == 0xaf63dc4c by {
      FourDigits("af63", 'd', 'c', '4', 'c');
      assert "af63" + ['d', 'c', '4', 'c'] == "af63dc4c";
    }
    assert R.Value("af63dc4c8601", 16) == 0xaf63dc4c8601 by {
      FourDigits("af63dc4c", '8', '6', '0', '1');
      assert "af63dc4c" + ['8', '6', '0', '1'] == "af63dc4c8601";
    }
    FourDigits("af63dc4c8601", 'e', 'c', '8', 'c');
    assert "af63dc4c8601" + ['e', 'c', '8', 'c'] == "af63dc4c8601ec8c";
  }

  // Two texts of one length that differ in exactly one byte.
  ghost predicate OneByteApart(a: seq<Byte>, b: seq<Byte>) {
    |a| == |b| && exists k :: 0 <= k < |a| && a[k] != b[k] && a[..k] == b[..k] && a[k + 1..] == b[k + 1..]
  }

  lemma SplitAt(a: seq<Byte>, k: nat)
    requires k < |a|
    ensures a == a[..k] + [a[k]] + a[k + 1..]
  {
  }

  lemma ContentSeparates(h: Word, a: seq<Byte>, b: seq<Byte>)
    requires OneByteApart(a, b)
    ensures Fold(h, a) != Fold(h, b)
  {
    hide Fold;
    var k :| 0 <= k < |a| && a[k] != b[k] && a[..k] == b[..k] && a[k + 1..] == b[k + 1..];
    SplitAt(a, k);
    SplitAt(b, k);
    OneByteSeparates(h, a[..k], a[k], b[k], a[k + 1..]);
  }

  // The cache notices every change of a single byte.
  lemma HashSeparates(a: seq<Byte>, b: seq<Byte>)
    requires OneByteApart(a, b)
    ensures Hash(a) != Hash(b)
  {
    hide Fold, Hex16, OneByteApart;
    ContentSeparates(OFFSET, a, b);
    if Hash(a) == Hash(b) {
      Hex16Injective(Fold(OFFSET, a), Fold(OFFSET, b));
    }
  }

  // build.rs: one hash over every readable source file, path and content. The
  // files come sorted; a file that cannot be read is passed over.

  datatype Source = Source(path: seq<Byte>, readable: bool, content: seq<Byte>)

  function Entry(f: Source): seq<Byte> { if f.readable then f.path + [0xff] + f.content else [] }

  // The state after a list of files.
  function FoldFiles(h: Word, files: seq<Source>): Word {
    if files == [] then h else Fold(FoldFiles(h, files[..|files| - 1]), Entry(files[|files| - 1]))
  }

  method ComputeSemanticHash(files: seq<Source>) returns (hash: Word)
    ensures hash == FoldFiles(OFFSET, files)
  {
    hide Mix, Fold;
    hash := OFFSET;
    for i := 0 to |files|
      invariant hash == FoldFiles(OFFSET, files[..i])
    {
      var f := files[i];
      ghost var before := hash;
      assert files[..i + 1][..i] == files[..i];
      if f.readable {
        hash := AddBytes(hash, f.path);
        FoldPush(before, f.path, 0xff);
        hash := Mix(hash, 0xff);
        hash := AddBytes(hash, f.content);
        FoldConcat(before, f.path + [0xff], f.content);
      } else {
        FoldNone(hash);
      }
    }
    assert files[..|files|] == files;
  }

  // The inner loops over the bytes of a path and of a content.
  method AddBytes(start: Word, bytes: seq<Byte>) returns (hash: Word)
    ensures hash == Fold(start, bytes)
  {
    hide Mix;
    hash := start;
    for i := 0 to |bytes|
      invariant hash == Fold(start, bytes[..i])
    {
      hash := Mix(hash, bytes[i]);
      assert bytes[..i + 1][..i] == bytes[..i];
    }
    assert bytes[..|bytes|] == bytes;
  }

  lemma FoldNone(h: Word)
    ensures Fold(h, []) == h
  {
  }

  lemma FoldPush(h: Word, bytes: seq<Byte>, b: Byte)
    ensures Fold(h, bytes + [b]) == Mix(Fold(h, bytes), b)
  {
  }

  lemma EntrySeparates(h: Word, f: Source, edited: seq<Byte>)
    requires f.readable && OneByteApart(f.content, edited)
    ensures Fold(h, Entry(f)) != Fold(h, Entry(f.(content := edited)))
  {
    hide Fold, OneByteApart;
    FoldConcat(h, f.path + [0xff], f.content);
    FoldConcat(h, f.path + [0xff], edited);
    ContentSeparates(Fold(h, f.path + [0xff]), f.content, edited);
  }

  // Changing one byte of one compiler source changes the semantic hash.
  lemma {:induction false} SemanticHashSeparates(files: seq<Source>, k: nat, edited: seq<Byte>)
    requires k < |files| && files[k].readable && OneByteApart(files[k].content, edited)
    ensures FoldFiles(OFFSET, files) != FoldFiles(OFFSET, files[k := files[k].(content := edited)])
    decreases |files|
  {
    hide Fold, Entry, OneByteApart;
    var n, changed := |files| - 1, files[k].(content := edited);
    if k == n {
      assert files[k := changed][..n] == files[..n];
      EntrySeparates(FoldFiles(OFFSET, files[..n]), files[k], edited);
    } else {
      SemanticHashSeparates(files[..n], k, edited);
      assert files[k := changed][..n] == files[..n][k := changed];
      FoldInjective(FoldFiles(OFFSET, files[..n]), FoldFiles(OFFSET, files[..n][k := changed]), Entry(files[n]));
    }
  }

  // Path, a byte 255 and content of every readable file, one after the other.
  function Stream(files: seq<Source>): seq<Byte> {
    if files == [] then [] else
    var n := |files| - 1;
    if files[n].readable then Stream(files[..n]) + files[n].path + [255] + files[n].content else Stream(files[..n])
  }

  // The semantic hash is the hash of that stream.
  lemma {:induction false} SemanticHashIs(files: seq<Source>)
    ensures FoldFiles(OFFSET, files) == Fold(OFFSET, Stream(files))
  {
    hide Fold;
    if files == [] {
      FoldNone(OFFSET);
    } else {
      var n := |files| - 1;
      var f, front := files[n], Stream(files[..n]);
      SemanticHashIs(files[..n]);
      if f.readable {
        FoldConcat(OFFSET, front, f.path + [255] + f.content);
        assert front + f.path + [255] + f.content == front + (f.path + [255] + f.content);
      } else {
        FoldNone(FoldFiles(OFFSET, files[..n]));
      }
    }
  }
}
