// Where the recogniser stops: a text that it rejects could still have gone on
// to be a JSON text before that place, and could not after it.
module JsonViable {
  import opened Text
  import opened JsonGrammar
  import opened JsonSpan
  import opened JsonParse
  import opened JsonSound
  import opened JsonComplete

  // Some JSON text nested at most 129 deep starts with s.
  ghost predicate Viable(s: string) { exists tail: string :: IsJsonText(s + tail, 129) }

  // Up to the place of the failure: each lemma returns a tree whose text starts
  // with what was read.

  lemma PrefixJoin(s: string, i: nat, m: nat, j: nat, a: string, b: string)
    requires i <= m <= j <= |s| && s[i..m] == a && s[m..j] <= b
    ensures s[i..j] <= a + b
  {
    assert s[i..j] == s[i..m] + s[m..j];
  }

  lemma CharViable(s: string, i: nat) returns (c: StrChar)
    requires i < |s| && ParseChar(s, i).Failed?
    ensures ValidChar(c) && s[i..ParseChar(s, i).at] <= CharText(c)
  {
    hide HexStop, IsHex;
    c := Escaped('n');
    if s[i] == '\\' && i + 1 < |s| && s[i + 1] == 'u' {
      var stop := HexStop(s, i + 2, 4);
      var hex := HexViable(s, i + 2);
      c := Unicode(hex);
      assert s[i..i + 2] == ['\\', 'u'];
      PrefixJoin(s, i, i + 2, stop, ['\\', 'u'], hex);
    }
  }

  lemma HexViable(s: string, i: nat) returns (hex: string)
    requires i <= |s|
    ensures ValidChar(Unicode(hex)) && s[i..HexStop(s, i, 4)] <= hex
  {
    hide HexStop;
    var stop := HexStop(s, i, 4);
    hex := s[i..stop] + seq(i + 4 - stop, _ => '0');
    assert forall k :: 0 <= k < stop - i ==> hex[k] == s[i + k];
  }

  lemma {:induction false} CharsViable(s: string, i: nat) returns (cs: seq<StrChar>)
    requires i <= |s| && ParseChars(s, i).Failed?
    ensures ValidChars(cs) && s[i..ParseChars(s, i).at] <= CharsText(cs)
    decreases |s| - i
  {
    hide ParseChar, ValidChar, CharText;
    if i >= |s| {
      cs := [];
    } else if ParseChar(s, i).Failed? {
      var c := CharViable(s, i);
      cs := [c];
    } else {
      var c := CharSound(s, i);
      var j := ParseChar(s, i).value;
      var rest := CharsViable(s, j);
      cs := [c] + rest;
      assert cs[1..] == rest;
      PrefixJoin(s, i, j, ParseChars(s, j).at, CharText(c), CharsText(rest));
    }
  }

  lemma StringViable(s: string, i: nat) returns (cs: seq<StrChar>)
    requires i <= |s| && ParseString(s, i).Failed?
    ensures ValidChars(cs) && s[i..ParseString(s, i).at] <= StringText(cs)
  {
    hide ParseChars, ValidChars, CharsText;
    if i >= |s| || s[i] != '"' {
      cs := [];
      NoChars();
    } else {
      cs := CharsViable(s, i + 1);
      PrefixJoin(s, i, i + 1, ParseChars(s, i + 1).at, ['"'], CharsText(cs));
    }
  }

  lemma NoChars()
    ensures ValidChars([])
  {
  }

  lemma FracViable(s: string, i: nat)
    requires i <= |s| && ParseFrac(s, i).Failed?
    ensures ValidFrac(".0") && s[i..ParseFrac(s, i).at] <= ".0"
  {
  }

  lemma ExpViable(s: string, i: nat) returns (exp: string)
    requires i <= |s| && ParseExp(s, i).Failed?
    ensures ValidExp(exp) && s[i..ParseExp(s, i).at] <= exp
  {
    var at := ParseExp(s, i).at;
    exp := s[i..at] + "0";
    if at == i + 1 {
      assert exp[1..] == "0" && exp[0] == s[i];
    } else {
      assert exp[2..] == "0" && exp[0] == s[i] && exp[1] == s[i + 1];
    }
  }

  lemma WholeViable(s: string, i: nat)
    requires i <= |s| && ParseWhole(s, i).Failed?
    ensures ValidWhole("0") && s[i..ParseWhole(s, i).at] <= "0"
  {
  }

  lemma SliceJoin(s: string, i: nat, m: nat, j: nat)
    requires i <= m <= j <= |s|
    ensures s[i..j] == s[i..m] + s[m..j]
  {
  }

  lemma NumberViable(s: string, i: nat) returns (n: NumberText)
    requires i <= |s| && ParseNumber(s, i).Failed?
    ensures ValidNumber(n) && s[i..ParseNumber(s, i).at] <= NumText(n)
  {
    hide ParseWhole, ParseFrac, ParseExp, ValidWhole, ValidFrac, ValidExp, NumText;
    var minus := i < |s| && s[i] == '-';
    var m := if minus then "-" else "";
    var a := if minus then i + 1 else i;
    assert s[i..a] == m;
    AbsentValid();
    if ParseWhole(s, a).Failed? {
      WholeViable(s, a);
      n := NumberText(minus, "0", "", "");
      NumPrefix(s, i, a, ParseNumber(s, i).at, n, m, "0");
    } else {
      n := FractionViable(s, i, a, minus);
    }
  }

  lemma FractionViable(s: string, i: nat, a: nat, minus: bool) returns (n: NumberText)
    requires i <= a <= |s| && s[i..a] == (if minus then "-" else "") && ParseWhole(s, a).Done?
    requires var b := ParseWhole(s, a).value; ParseFrac(s, b).Failed? || ParseExp(s, ParseFrac(s, b).value).Failed?
    ensures var frac := ParseFrac(s, ParseWhole(s, a).value);
            ValidNumber(n)
            && s[i..if frac.Failed? then frac.at else ParseExp(s, frac.value).at] <= NumText(n)
  {
    hide ParseWhole, ParseFrac, ParseExp, ValidWhole, ValidFrac, ValidExp, NumText;
    var m := if minus then "-" else "";
    var b := ParseWhole(s, a).value;
    var frac := ParseFrac(s, b);
    AbsentValid();
    WholeSound(s, a);
    SliceJoin(s, i, a, b);
    if frac.Failed? {
      FracViable(s, b);
      n := NumberText(minus, s[a..b], ".0", "");
      NumPrefix(s, i, b, frac.at, n, m + s[a..b], ".0");
    } else {
      var c := frac.value;
      FracSound(s, b);
      SliceJoin(s, i, b, c);
      var exp := ExpViable(s, c);
      n := NumberText(minus, s[a..b], s[b..c], exp);
      NumPrefix(s, i, c, ParseExp(s, c).at, n, m + s[a..b] + s[b..c], exp);
    }
  }

  // The part in which the number breaks off, after the parts that were read.
  lemma NumPrefix(s: string, i: nat, j: nat, at: nat, n: NumberText, front: string, part: string)
    requires i <= j <= at <= |s| && s[i..j] == front && s[j..at] <= part
    requires var m := if n.minus then "-" else "";
             (front == m && part == n.whole && n.frac == n.exp == "")
             || (front == m + n.whole && part == n.frac && n.exp == "")
             || (front == m + n.whole + n.frac && part == n.exp)
    ensures s[i..at] <= NumText(n)
  {
    PrefixJoin(s, i, j, at, front, part);
  }

  lemma AbsentValid()
    ensures ValidFrac("") && ValidExp("")
  {
  }

  lemma KeyViable(s: string, i: nat) returns (key: Key)
    requires i <= |s| && ParseKey(s, i, ObjectKind).Failed?
    ensures ValidKey(ObjectKind, key) && s[i..ParseKey(s, i, ObjectKind).at] <= KeyText(key)
  {
    hide ParseString, StringText, ValidChars, AllWs, At, StringAt;
    NoWs();
    var name := ParseString(s, i);
    if name.Failed? {
      var cs := StringViable(s, i);
      key := Key(cs, "", "");
    } else {
      var a := name.value;
      var cs := StringSound(s, i, a);
      StringIs(s, i, cs);
      var b := SkipWs(s, a);
      SkipWsRun(s, a);
      key := Key(cs, s[a..b], "");
      assert s[i..b] == s[i..a] + s[a..b];
    }
  }

  lemma NoWs()
    ensures AllWs("")
  {
  }

  lemma StringIs(s: string, i: nat, cs: seq<StrChar>)
    requires StringAt(cs, s, i)
    ensures i + StringLen(cs) <= |s| && s[i..i + StringLen(cs)] == StringText(cs)
  {
    hide StringAt, StringLen, StringText;
    StringTextAt(cs, s, i);
    AtSlice(s, i, StringText(cs));
  }

  lemma KeyIs(s: string, i: nat, key: Key)
    requires KeyAt(key, s, i)
    ensures i + KeyLen(key) <= |s| && s[i..i + KeyLen(key)] == KeyText(key)
  {
    hide KeyAt, KeyLen, KeyText;
    KeyTextAt(key, s, i);
    AtSlice(s, i, KeyText(key));
  }

  lemma ValueIs(s: string, i: nat, v: Value)
    requires ValueAt(v, s, i)
    ensures i + ValueLen(v) <= |s| && s[i..i + ValueLen(v)] == ValueText(v)
  {
    hide ValueAt, ValueLen, ValueText;
    ValueTextAt(v, s, i);
    AtSlice(s, i, ValueText(v));
  }

  const ZERO := Number(NumberText(false, "0", "", ""))

  lemma ZeroValid()
    ensures ValidValue(ZERO) && Nesting(ZERO) == 0
  {
  }

  // One round of the loop, up to its comma or bracket.
  function Round(s: string, i: nat, depth: nat, kind: Kind): (r: Parsed)
    requires i <= |s|
    ensures r.Done? ==> i <= r.value <= |s|
  {
    var key := ParseKey(s, SkipWs(s, i), kind);
    if key.Failed? then key else
    var value := ParseValue(s, key.value, depth + 1);
    if value.Failed? then value else Done(SkipWs(s, value.value))
  }

  // A text that starts with a and goes on starts with what a starts with.
  lemma PrefixMore(x: string, a: string, b: string)
    requires x <= a
    ensures x <= a + b
  {
  }

  // The element that a failing round of the loop was reading.
  lemma BrokenKey(s: string, i: nat, at: nat, ws: string, key: Key) returns (e: Elem)
    requires i + |ws| <= at <= |s| && s[i..i + |ws|] == ws && s[i + |ws|..at] <= KeyText(key)
    requires AllWs(ws) && ValidKey(ObjectKind, key)
    ensures ValidElem(ObjectKind, e) && Nesting(e.value) == 0 && s[i..at] <= ElemText(e)
  {
    hide KeyText, ValidKey;
    ZeroValid();
    NoWs();
    e := Elem(ws, key, ZERO, "");
    PrefixJoin(s, i, i + |ws|, at, ws, KeyText(key));
    PrefixMore(s[i..at], ws + KeyText(key), ValueText(ZERO));
  }

  lemma BrokenValue(s: string, i: nat, b: nat, at: nat, kind: Kind, ws: string, key: Key, v: Value) returns (e: Elem)
    requires i <= b <= at <= |s| && s[i..b] == ws + KeyText(key) && s[b..at] <= ValueText(v)
    requires AllWs(ws) && ValidKey(kind, key) && ValidValue(v)
    ensures ValidElem(kind, e) && e.value == v && s[i..at] <= ElemText(e)
  {
    hide KeyText, ValueText, ValidKey, ValidValue;
    NoWs();
    e := Elem(ws, key, v, "");
    PrefixJoin(s, i, b, at, ws + KeyText(key), ValueText(v));
  }

  lemma {:induction false} RoundViable(s: string, i: nat, depth: nat, kind: Kind) returns (e: Elem)
    requires i <= |s| && depth <= 128 && Round(s, i, depth, kind).Failed?
    ensures ValidElem(kind, e) && depth + 1 + Nesting(e.value) <= 129
    ensures s[i..Round(s, i, depth, kind).at] <= ElemText(e)
    decreases |s| - i, 2
  {
    hide ParseKey, ParseValue, KeyText, ValueText, ValidKey, ValidValue, AllWs, At, KeyAt, ElemText, Nesting, ValidElem;
    var a := SkipWs(s, i);
    SkipWsRun(s, i);
    var ws, k := s[i..a], ParseKey(s, a, kind);
    if k.Failed? {
      OnlyObjects(s, a, kind);
      var key := KeyViable(s, a);
      e := BrokenKey(s, i, k.at, ws, key);
    } else {
      var b := k.value;
      var key := KeySound(s, a, kind, b);
      KeyIs(s, a, key);
      assert s[i..b] == ws + KeyText(key);
      var v := ValueViable(s, b, depth + 1);
      e := BrokenValue(s, i, b, ParseValue(s, b, depth + 1).at, kind, ws, key, v);
    }
  }

  lemma RoundWhole(s: string, i: nat, depth: nat, kind: Kind) returns (e: Elem)
    requires i <= |s| && depth <= 128 && Round(s, i, depth, kind).Done?
    ensures ValidElem(kind, e) && depth + 1 + Nesting(e.value) <= 129
    ensures s[i..Round(s, i, depth, kind).value] == ElemText(e)
  {
    hide ParseKey, ParseValue, KeyText, ValueText, ValidKey, ValidValue, AllWs, At, KeyAt, ElemText, Nesting, ValidElem;
    var a := SkipWs(s, i);
    SkipWsRun(s, i);
    var b := ParseKey(s, a, kind).value;
    var key := KeySound(s, a, kind, b);
    KeyIs(s, a, key);
    assert s[i..b] == s[i..a] + KeyText(key);
    var j;
    e, j := WholeElem(s, i, a, b, depth, kind, key);
  }

  lemma ElemsByRound(s: string, i: nat, depth: nat, kind: Kind)
    requires i <= |s|
    ensures var r := Round(s, i, depth, kind);
            ParseElems(s, i, depth, kind)
            == if r.Failed? then r
               else if Is(s, r.value, ',') then ParseElems(s, r.value + 1, depth, kind)
               else if Is(s, r.value, Close(kind)) then Done(r.value + 1) else Failed(r.value)
  {
    hide ParseKey, ParseValue, SkipWs;
  }

  lemma {:induction false} ElemsViable(s: string, i: nat, depth: nat, kind: Kind) returns (es: Elems)
    requires i <= |s| && depth <= 128 && ParseElems(s, i, depth, kind).Failed?
    ensures ValidElems(kind, es) && depth + 1 + NestingElems(es) <= 129
    ensures s[i..ParseElems(s, i, depth, kind).at] <= ElemsText(es)
    decreases |s| - i, 3
  {
    hide Round, ParseElems, ElemText, Nesting, ValidElem;
    ElemsByRound(s, i, depth, kind);
    var r := Round(s, i, depth, kind);
    if r.Failed? {
      var e := RoundViable(s, i, depth, kind);
      es := One(e);
    } else {
      var j := r.value;
      var e := RoundWhole(s, i, depth, kind);
      if Is(s, j, ',') {
        var rest := ElemsViable(s, j + 1, depth, kind);
        es := More(e, rest);
        assert s[i..j + 1] == ElemText(e) + [','];
        PrefixJoin(s, i, j + 1, ParseElems(s, j + 1, depth, kind).at, ElemText(e) + [','], ElemsText(rest));
      } else {
        es := One(e);
      }
    }
  }

  // An element that was read to its end.
  lemma WholeElem(s: string, i: nat, a: nat, b: nat, depth: nat, kind: Kind, key: Key) returns (e: Elem, j: nat)
    requires i <= a <= b <= |s| && depth <= 128 && AllWs(s[i..a]) && ValidKey(kind, key)
    requires s[i..b] == s[i..a] + KeyText(key) && ParseValue(s, b, depth + 1).Done?
    ensures ValidElem(kind, e) && depth + 1 + Nesting(e.value) <= 129
    ensures j == SkipWs(s, ParseValue(s, b, depth + 1).value) && b <= j <= |s| && s[i..j] == ElemText(e)
  {
    hide ParseValue, KeyText, ValueText, ValidKey, ValidValue, AllWs, At, ValueAt, Nesting, SkipWs;
    var c := ParseValue(s, b, depth + 1).value;
    var v := ValueSound(s, b, depth + 1, c);
    j := SkipWs(s, c);
    SkipWsRun(s, c);
    ValueIs(s, b, v);
    e := Elem(s[i..a], key, v, s[c..j]);
    Pieces(s, i, b, c, j, e);
  }

  lemma OnlyObjects(s: string, i: nat, kind: Kind)
    requires i <= |s| && ParseKey(s, i, kind).Failed?
    ensures kind == ObjectKind
  {
  }

  lemma Pieces(s: string, i: nat, b: nat, c: nat, j: nat, e: Elem)
    requires i <= b <= c <= j <= |s|
    requires s[i..b] == e.before + KeyText(e.key) && s[b..c] == ValueText(e.value) && s[c..j] == e.after
    ensures s[i..j] == ElemText(e)
  {
    hide KeyText, ValueText;
    assert s[i..j] == s[i..b] + s[b..c] + s[c..j];
  }

  lemma {:induction false} ContainerViable(s: string, i: nat, depth: nat, kind: Kind) returns (v: Value)
    requires i < |s| && s[i] == Open(kind) && ParseContainer(s, i, depth, kind).Failed?
    ensures ValidValue(v) && (Nesting(v) > 0 ==> depth + Nesting(v) <= 129)
    ensures s[i..ParseContainer(s, i, depth, kind).at] <= ValueText(v)
    decreases |s| - i, 0
  {
    hide ParseElems, ElemsText, ValidElems, NestingElems;
    if depth > 128 {
      v := ZERO;
      ZeroValid();
    } else {
      ElemsAfterWs(s, i + 1, depth, kind);
      var at := ParseContainer(s, i, depth, kind).at;
      var es := ElemsViable(s, i + 1, depth, kind);
      v := Full(kind, es);
      PrefixJoin(s, i, i + 1, at, [Open(kind)], ElemsText(es));
      PrefixMore(s[i..at], [Open(kind)] + ElemsText(es), [Close(kind)]);
    }
  }

  lemma {:induction false} ValueViable(s: string, i: nat, depth: nat) returns (v: Value)
    requires i <= |s| && ParseValue(s, i, depth).Failed?
    ensures ValidValue(v) && (Nesting(v) > 0 ==> depth + Nesting(v) <= 129)
    ensures s[i..ParseValue(s, i, depth).at] <= ValueText(v)
    decreases |s| - i, 1
  {
    hide ParseContainer, ParseString, ParseNumber, ParseLiteral, StringText, NumText, ValidChars, ValidNumber;
    v := ZERO;
    ZeroValid();
    if i < |s| {
      if s[i] == '{' {
        v := ContainerViable(s, i, depth, ObjectKind);
      } else if s[i] == '[' {
        v := ContainerViable(s, i, depth, ArrayKind);
      } else if s[i] == '"' {
        var cs := StringViable(s, i);
        v := Str(cs);
      } else if s[i] == '-' || IsDigit(s[i]) {
        var n := NumberViable(s, i);
        v := Number(n);
      }
    }
  }

  lemma FrontViable(s: string, at: nat)
    requires ParseValue(s, SkipWs(s, 0), 0) == Failed(at)
    ensures at <= |s| && Viable(s[..at])
  {
    hide ParseValue, ValueText, ValidValue, AllWs, Nesting;
    var a := SkipWs(s, 0);
    SkipWsRun(s, 0);
    NoWs();
    var v := ValueViable(s, a, 0);
    var d := Document(s[0..a], v, "");
    PrefixJoin(s, 0, a, at, s[0..a], ValueText(v));
    assert ValidDocument(d) && DocumentText(d) == s[0..a] + ValueText(v);
    assert s[0..at] == s[..at];
    Completes(s[..at], d);
  }

  lemma Completes(s: string, d: Document)
    requires ValidDocument(d) && Nesting(d.value) <= 129 && s <= DocumentText(d)
    ensures Viable(s)
  {
    hide ValidDocument, DocumentText, Nesting;
    assert s + DocumentText(d)[|s|..] == DocumentText(d);
  }

  // Beyond that place: the same failure on any text that begins in the same way.

  ghost predicate Agree(s: string, u: string, n: nat) {
    n <= |s| && n <= |u| && forall k :: 0 <= k < n ==> s[k] == u[k]
  }

  predicate BeginsLiteral(w: string) { w <= "true" || w <= "false" || w <= "null" }

  // A result that was clear from the first n characters.
  ghost predicate Settled(s: string, n: nat, r: Parsed) {
    match r
    case Done(j) => j < n
    case Failed(at) => at < n <= |s| && !BeginsLiteral(s[at..n])
  }

  lemma {:induction false} WsSame(s: string, u: string, n: nat, i: nat)
    requires Agree(s, u, n) && i <= |s| && SkipWs(s, i) < n
    ensures i <= |u| && SkipWs(u, i) == SkipWs(s, i)
    decreases |s| - i
  {
    if IsWs(s[i]) {
      WsSame(s, u, n, i + 1);
    }
  }

  lemma {:induction false} DigitsSame(s: string, u: string, n: nat, i: nat)
    requires Agree(s, u, n) && i <= |s| && SkipDigits(s, i) < n
    ensures i <= |u| && SkipDigits(u, i) == SkipDigits(s, i)
    decreases |s| - i
  {
    if IsDigit(s[i]) {
      DigitsSame(s, u, n, i + 1);
    }
  }

  lemma {:induction false} HexSame(s: string, u: string, n: nat, i: nat, m: nat)
    requires Agree(s, u, n) && i <= |s| && HexStop(s, i, m) < n
    ensures i <= |u| && HexStop(u, i, m) == HexStop(s, i, m)
    decreases m
  {
    if m > 0 && IsHex(s[i]) {
      HexSame(s, u, n, i + 1, m - 1);
    }
  }

  lemma CharSame(s: string, u: string, n: nat, i: nat)
    requires Agree(s, u, n) && i < |s| && Settled(s, n, ParseChar(s, i))
    ensures i < |u| && ParseChar(u, i) == ParseChar(s, i)
  {
    hide IsHex, BeginsLiteral, IsEscapable;
    if s[i] == '\\' && i + 1 < |s| && s[i + 1] == 'u' {
      HexSame(s, u, n, i + 2, 4);
    }
  }

  lemma {:induction false} CharsSame(s: string, u: string, n: nat, i: nat)
    requires Agree(s, u, n) && i <= |s| && Settled(s, n, ParseChars(s, i))
    ensures i <= |u| && ParseChars(u, i) == ParseChars(s, i)
    decreases |s| - i
  {
    hide ParseChar, BeginsLiteral;
    if i < |s| && s[i] != '"' {
      CharSame(s, u, n, i);
      if ParseChar(s, i).Done? {
        CharsSame(s, u, n, ParseChar(s, i).value);
      }
    }
  }

  lemma StringSame(s: string, u: string, n: nat, i: nat)
    requires Agree(s, u, n) && i <= |s| && Settled(s, n, ParseString(s, i))
    ensures i <= |u| && ParseString(u, i) == ParseString(s, i)
  {
    hide ParseChars, BeginsLiteral;
    if i < |s| && s[i] == '"' {
      CharsSame(s, u, n, i + 1);
    }
  }

  lemma NumberSame(s: string, u: string, n: nat, i: nat)
    requires Agree(s, u, n) && i <= |s| && Settled(s, n, ParseNumber(s, i))
    ensures i <= |u| && ParseNumber(u, i) == ParseNumber(s, i)
  {
    hide ParseWhole, ParseFrac, ParseExp, BeginsLiteral;
    var a := if i < |s| && s[i] == '-' then i + 1 else i;
    var whole := ParseWhole(s, a);
    WholeSame(s, u, n, a);
    if whole.Done? {
      FracSame(s, u, n, whole.value);
      var frac := ParseFrac(s, whole.value);
      if frac.Done? {
        ExpSame(s, u, n, frac.value);
      }
    }
  }

  lemma WholeSame(s: string, u: string, n: nat, i: nat)
    requires Agree(s, u, n) && i <= |s| && Settled(s, n, ParseWhole(s, i))
    ensures i <= |u| && ParseWhole(u, i) == ParseWhole(s, i)
  {
    hide BeginsLiteral, SkipDigits;
    if i < |s| && IsDigit(s[i]) && s[i] != '0' {
      DigitsSame(s, u, n, i);
    }
  }

  lemma FracSame(s: string, u: string, n: nat, i: nat)
    requires Agree(s, u, n) && i <= |s| && Settled(s, n, ParseFrac(s, i))
    ensures i <= |u| && ParseFrac(u, i) == ParseFrac(s, i)
  {
    hide BeginsLiteral, SkipDigits;
    if i + 1 < |s| && s[i] == '.' && IsDigit(s[i + 1]) {
      DigitsSame(s, u, n, i + 1);
    }
  }

  lemma ExpSame(s: string, u: string, n: nat, i: nat)
    requires Agree(s, u, n) && i <= |s| && Settled(s, n, ParseExp(s, i))
    ensures i <= |u| && ParseExp(u, i) == ParseExp(s, i)
  {
    hide BeginsLiteral, SkipDigits;
    if i < |s| && (s[i] == 'e' || s[i] == 'E') {
      var j := if i + 1 < |s| && (s[i + 1] == '+' || s[i + 1] == '-') then i + 2 else i + 1;
      if j < |s| && IsDigit(s[j]) {
        DigitsSame(s, u, n, j);
      }
    }
  }

  lemma KeySame(s: string, u: string, n: nat, i: nat, kind: Kind)
    requires Agree(s, u, n) && i <= |s| && Settled(s, n, ParseKey(s, i, kind))
    ensures i <= |u| && ParseKey(u, i, kind) == ParseKey(s, i, kind)
  {
    hide ParseString, BeginsLiteral, SkipWs;
    if kind == ObjectKind {
      var name := ParseString(s, i);
      StringSame(s, u, n, i);
      if name.Done? {
        var colon := SkipWs(s, name.value);
        WsSame(s, u, n, name.value);
        if colon < |s| && s[colon] == ':' {
          WsSame(s, u, n, colon + 1);
        }
      }
    }
  }

  lemma LiteralBegins(u: string, i: nat, n: nat)
    requires i < n <= |u|
    ensures ParseLiteral(u, i).Done? && n <= ParseLiteral(u, i).value ==> BeginsLiteral(u[i..n])
  {
    var t, w := u[i..n], ParseLiteral(u, i);
    if w.Done? && n <= w.value {
      var all := u[i..w.value];
      assert all == "true" || all == "null" || all == "false";
      assert t == all[..n - i];
    }
  }

  lemma LiteralSame(s: string, u: string, n: nat, i: nat)
    requires Agree(s, u, n) && i <= |s| && Settled(s, n, ParseLiteral(s, i))
    ensures i <= |u| && ParseLiteral(u, i) == ParseLiteral(s, i)
  {
    if ParseLiteral(s, i).Failed? {
      LiteralBegins(u, i, n);
      assert s[i..n] == u[i..n];
    }
  }

  // What one round of the loop was clear about.
  lemma ElemsSettled(s: string, n: nat, i: nat, depth: nat, kind: Kind)
    requires i <= |s| && Settled(s, n, ParseElems(s, i, depth, kind))
    ensures SkipWs(s, i) < n && Settled(s, n, ParseKey(s, SkipWs(s, i), kind))
    ensures ParseKey(s, SkipWs(s, i), kind).Done? ==>
      Settled(s, n, ParseValue(s, ParseKey(s, SkipWs(s, i), kind).value, depth + 1))
    ensures Round(s, i, depth, kind).Done? ==>
      var j := Round(s, i, depth, kind).value;
      j < n && (Is(s, j, ',') ==> Settled(s, n, ParseElems(s, j + 1, depth, kind)))
  {
    hide ParseKey, ParseValue, SkipWs, BeginsLiteral;
  }

  lemma {:induction false} ElemsSame(s: string, u: string, n: nat, i: nat, depth: nat, kind: Kind)
    requires Agree(s, u, n) && i <= |s| && Settled(s, n, ParseElems(s, i, depth, kind))
    ensures i <= |u| && ParseElems(u, i, depth, kind) == ParseElems(s, i, depth, kind)
    decreases |s| - i, 2
  {
    hide ParseKey, ParseValue, ParseElems, SkipWs, Settled;
    ElemsSettled(s, n, i, depth, kind);
    ElemsByRound(s, i, depth, kind);
    var a := SkipWs(s, i);
    WsSame(s, u, n, i);
    var key := ParseKey(s, a, kind);
    KeySame(s, u, n, a, kind);
    if key.Done? {
      var r := ParseValue(s, key.value, depth + 1);
      ValueSame(s, u, n, key.value, depth + 1);
      if r.Done? {
        var j := SkipWs(s, r.value);
        WsSame(s, u, n, r.value);
        if s[j] == ',' {
          ElemsSame(s, u, n, j + 1, depth, kind);
        }
      }
    }
    ElemsByRound(u, i, depth, kind);
  }

  lemma {:induction false} ContainerSame(s: string, u: string, n: nat, i: nat, depth: nat, kind: Kind)
    requires Agree(s, u, n) && i < |s| && Settled(s, n, ParseContainer(s, i, depth, kind))
    ensures i < |u| && ParseContainer(u, i, depth, kind) == ParseContainer(s, i, depth, kind)
    decreases |s| - i, 0
  {
    hide ParseElems, SkipWs, BeginsLiteral;
    if depth <= 128 {
      var j := SkipWs(s, i + 1);
      WsSame(s, u, n, i + 1);
      if !(j < |s| && s[j] == Close(kind)) {
        ElemsSame(s, u, n, j, depth, kind);
      }
    }
  }

  lemma {:induction false} ValueSame(s: string, u: string, n: nat, i: nat, depth: nat)
    requires Agree(s, u, n) && i <= |s| && Settled(s, n, ParseValue(s, i, depth))
    ensures i <= |u| && ParseValue(u, i, depth) == ParseValue(s, i, depth)
    decreases |s| - i, 1
  {
    hide ParseContainer, ParseString, ParseNumber, ParseLiteral, BeginsLiteral;
    if i < |s| {
      if s[i] == '{' {
        ContainerSame(s, u, n, i, depth, ObjectKind);
      } else if s[i] == '[' {
        ContainerSame(s, u, n, i, depth, ArrayKind);
      } else if s[i] == '"' {
        StringSame(s, u, n, i);
      } else if s[i] == '-' || IsDigit(s[i]) {
        NumberSame(s, u, n, i);
      } else {
        LiteralSame(s, u, n, i);
      }
    }
  }

  lemma EndHopeless(s: string, at: nat, n: nat)
    requires ParseValue(s, SkipWs(s, 0), 0) == Failed(at)
    requires at < n <= |s| && !BeginsLiteral(s[at..n])
    ensures !Viable(s[..n])
  {
    hide ParseValue, IsJsonText, SkipWs, BeginsLiteral;
    forall tail: string ensures !IsJsonText(s[..n] + tail, 129) {
      var u := s[..n] + tail;
      WsSame(s, u, n, 0);
      ValueSame(s, u, n, SkipWs(s, 0), 0);
      AcceptsExactly(u);
    }
  }

  // A rejection at `at` says that what stands before it starts some JSON text,
  // and that nothing beyond it does, but for a literal name that is not over.
  lemma RejectedThere(s: string, at: nat)
    requires ParseValue(s, SkipWs(s, 0), 0) == Failed(at)
    ensures at <= |s| && Viable(s[..at])
    ensures forall n :: at < n <= |s| && Viable(s[..n]) ==> BeginsLiteral(s[at..n])
  {
    hide ParseValue, Viable, BeginsLiteral;
    FrontViable(s, at);
    forall n | at < n <= |s| && Viable(s[..n]) ensures BeginsLiteral(s[at..n]) {
      if !BeginsLiteral(s[at..n]) {
        EndHopeless(s, at, n);
      }
    }
  }
}
