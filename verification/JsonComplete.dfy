// Every well-formed tree that nests at most 129 deep is read back to its end.
module JsonComplete {
  import opened Text
  import opened JsonGrammar
  import opened JsonSpan
  import opened JsonParse
  import opened JsonSound

  // What may stand after a value in a JSON text.
  ghost predicate Follow(s: string, i: nat) {
    i < |s| ==> IsWs(s[i]) || s[i] == ',' || s[i] == ']' || s[i] == '}'
  }

  lemma {:induction false} SkipWsExact(s: string, i: nat, w: string)
    requires At(s, i, w) && AllWs(w)
    requires i + |w| < |s| ==> !IsWs(s[i + |w|])
    ensures SkipWs(s, i) == i + |w|
    decreases |w|
  {
    if w != "" {
      assert s[i + 0] == w[0];
      forall k | 0 <= k < |w[1..]| ensures s[i + 1 + k] == w[1..][k] {
        assert s[i + (k + 1)] == w[k + 1];
      }
      SkipWsExact(s, i + 1, w[1..]);
    }
  }

  lemma {:induction false} SkipDigitsExact(s: string, i: nat, end: nat)
    requires i <= end <= |s| && forall k :: i <= k < end ==> IsDigit(s[k])
    requires end < |s| ==> !IsDigit(s[end])
    ensures SkipDigits(s, i) == end
    decreases end - i
  {
    if i < end {
      SkipDigitsExact(s, i + 1, end);
    }
  }

  lemma CharComplete(c: StrChar, s: string, i: nat)
    requires ValidChar(c) && CharAt(c, s, i) && i < |s|
    ensures s[i] != '"' && ParseChar(s, i) == Done(i + CharLen(c))
  {
    if c.Unicode? {
      var h := c.hex;
      assert s[i + 2] == h[0] && s[i + 2 + 1] == h[1] && s[i + 2 + 2] == h[2] && s[i + 2 + 3] == h[3];
      assert HexStop(s, i + 2, 4) == i + 6;
    }
  }

  lemma {:induction false} CharsComplete(cs: seq<StrChar>, s: string, i: nat)
    requires ValidChars(cs) && CharsAt(cs, s, i) && Is(s, i + CharsLen(cs), '"')
    ensures ParseChars(s, i) == Done(i + CharsLen(cs) + 1)
    decreases |cs|
  {
    hide ParseChar, ValidChar, CharAt, CharLen;
    if cs != [] {
      CharComplete(cs[0], s, i);
      CharsComplete(cs[1..], s, i + CharLen(cs[0]));
    }
  }

  lemma DigitsAt(s: string, i: nat, w: string, a: nat)
    requires At(s, i, w) && a <= |w| && AllDigits(w[a..])
    ensures forall k :: i + a <= k < i + |w| ==> IsDigit(s[k])
  {
    forall k | i + a <= k < i + |w| ensures IsDigit(s[k]) {
      assert s[i + (k - i)] == w[k - i] == w[a..][k - i - a];
    }
  }

  lemma WholeComplete(s: string, i: nat, w: string)
    requires ValidWhole(w) && At(s, i, w) && (i + |w| < |s| ==> !IsDigit(s[i + |w|]))
    ensures ParseWhole(s, i) == Done(i + |w|)
  {
    assert s[i + 0] == w[0];
    if w != "0" {
      assert w[0..] == w;
      DigitsAt(s, i, w, 0);
      SkipDigitsExact(s, i, i + |w|);
    }
  }

  lemma FracComplete(s: string, i: nat, w: string)
    requires ValidFrac(w) && At(s, i, w)
    requires i + |w| < |s| ==> !IsDigit(s[i + |w|]) && s[i + |w|] != '.'
    ensures ParseFrac(s, i) == Done(i + |w|)
  {
    if w != "" {
      assert s[i + 0] == w[0];
      DigitsAt(s, i, w, 1);
      SkipDigitsExact(s, i + 1, i + |w|);
    }
  }

  lemma ExpComplete(s: string, i: nat, w: string)
    requires ValidExp(w) && At(s, i, w) && Follow(s, i + |w|)
    ensures ParseExp(s, i) == Done(i + |w|)
  {
    if w != "" {
      assert s[i + 0] == w[0] && s[i + 1] == w[1];
      var a := if AllDigits(w[1..]) then 1 else 2;
      DigitsAt(s, i, w, a);
      SkipDigitsExact(s, i + a, i + |w|);
      assert a == 1 ==> w[1] == w[1..][0];
      assert a == 2 ==> w[2] == w[2..][0];
    }
  }

  lemma NumberComplete(n: NumberText, s: string, i: nat)
    requires ValidNumber(n) && NumAt(n, s, i) && Follow(s, i + NumLen(n))
    ensures i < |s| && (s[i] == '-' || IsDigit(s[i]))
    ensures ParseNumber(s, i) == Done(i + NumLen(n))
  {
    var a := if n.minus then i + 1 else i;
    var b := a + |n.whole|;
    var c := b + |n.frac|;
    assert s[a + 0] == n.whole[0];
    assert n.frac != "" ==> s[b + 0] == n.frac[0];
    assert n.exp != "" ==> s[c + 0] == n.exp[0];
    hide ParseWhole, ParseFrac, ParseExp;
    WholeComplete(s, a, n.whole);
    FracComplete(s, b, n.frac);
    ExpComplete(s, c, n.exp);
  }

  // No value starts like white space or like the end of a container.
  lemma ValueStart(v: Value, s: string, i: nat)
    requires ValidValue(v) && ValueAt(v, s, i)
    ensures i < |s| && !IsWs(s[i]) && s[i] != ']' && s[i] != '}'
  {
    match v {
      case Literal(w) => assert s[i + 0] == w[0];
      case Number(n) =>
        var a := if n.minus then i + 1 else i;
        assert s[a + 0] == n.whole[0];
      case _ =>
    }
  }

  lemma KeyComplete(key: Key, kind: Kind, s: string, i: nat)
    requires ValidKey(kind, key) && KeyAt(key, s, i)
    requires i + KeyLen(key) < |s| ==> !IsWs(s[i + KeyLen(key)])
    ensures ParseKey(s, i, kind) == Done(i + KeyLen(key))
  {
    if kind == ObjectKind {
      var a := i + StringLen(key.name);
      CharsComplete(key.name, s, i + 1);
      SkipWsExact(s, a, key.before);
      SkipWsExact(s, a + |key.before| + 1, key.after);
    }
  }

  // An element starts with its white space and then with something else.
  lemma ElemStart(e: Elem, kind: Kind, s: string, i: nat)
    requires ValidElem(kind, e) && ElemAt(e, s, i)
    ensures i + |e.before| < |s| && !IsWs(s[i + |e.before|]) && s[i + |e.before|] != Close(kind)
  {
    hide ValidValue, ValueAt, AllWs, At, CharsAt, ValidChars;
    if kind == ArrayKind {
      ValueStart(e.value, s, i + |e.before|);
    }
  }

  lemma FollowWs(s: string, i: nat, w: string)
    requires At(s, i, w) && AllWs(w) && (w == "" ==> Follow(s, i))
    ensures Follow(s, i)
  {
    assert w != "" ==> s[i + 0] == w[0];
  }

  // One round of the container loop over a valid element.
  lemma ElemComplete(e: Elem, kind: Kind, s: string, i: nat, depth: nat)
    requires ValidElem(kind, e) && ElemAt(e, s, i)
    requires Is(s, i + ElemLen(e), ',') || Is(s, i + ElemLen(e), Close(kind))
    requires var b := i + |e.before| + KeyLen(e.key);
             Follow(s, b + ValueLen(e.value))
             ==> ParseValue(s, b, depth + 1) == Done(b + ValueLen(e.value))
    ensures ParseElems(s, i, depth, kind)
         == if s[i + ElemLen(e)] == ',' then ParseElems(s, i + ElemLen(e) + 1, depth, kind)
            else Done(i + ElemLen(e) + 1)
  {
    hide ParseKey, ParseValue, ValueAt, ValidValue, KeyAt, ValidKey, KeyLen, ValueLen, At, AllWs, SkipWs;
    var a := i + |e.before|;
    var b := a + KeyLen(e.key);
    var c := b + ValueLen(e.value);
    ElemStart(e, kind, s, i);
    SkipWsExact(s, i, e.before);
    ValueStart(e.value, s, b);
    KeyComplete(e.key, kind, s, a);
    FollowWs(s, c, e.after);
    SkipWsExact(s, c, e.after);
  }

  lemma {:induction false} ElemsComplete(es: Elems, kind: Kind, s: string, i: nat, depth: nat)
    requires ValidElems(kind, es) && ElemsAt(es, s, i) && Is(s, i + ElemsLen(es), Close(kind))
    requires depth + 1 + NestingElems(es) <= 129
    ensures ParseElems(s, i, depth, kind) == Done(i + ElemsLen(es) + 1)
    decreases es, 0
  {
    hide ParseElems, ParseValue, KeyAt, ValidKey, ValueAt, ValidValue, At, AllWs;
    var b := i + |es.e.before| + KeyLen(es.e.key);
    if Follow(s, b + ValueLen(es.e.value)) {
      ValueComplete(es.e.value, s, b, depth + 1);
    }
    ElemComplete(es.e, kind, s, i, depth);
    if es.More? {
      ElemsComplete(es.rest, kind, s, i + ElemLen(es.e) + 1, depth);
    }
  }

  // Skipping white space twice before the first element changes nothing.
  lemma ElemsAfterWs(s: string, i: nat, depth: nat, kind: Kind)
    requires i <= |s|
    ensures ParseElems(s, SkipWs(s, i), depth, kind) == ParseElems(s, i, depth, kind)
  {
    hide ParseKey, ParseValue, At, AllWs;
    SkipWsRun(s, i);
  }

  lemma FirstWs(es: Elems, kind: Kind, s: string, i: nat)
    requires i <= |s| && ValidElems(kind, es) && ElemsAt(es, s, i)
    ensures SkipWs(s, i) == i + |es.e.before| < |s| && s[SkipWs(s, i)] != Close(kind)
  {
    hide ValidKey, ValidValue, KeyAt, ValueAt, AllWs, At;
    ElemStart(es.e, kind, s, i);
    SkipWsExact(s, i, es.e.before);
  }

  lemma EmptyComplete(kind: Kind, ws: string, s: string, i: nat, depth: nat)
    requires AllWs(ws) && ValueAt(Empty(kind, ws), s, i) && depth <= 128
    ensures ParseContainer(s, i, depth, kind) == Done(i + |ws| + 2)
  {
    hide ParseElems, AllWs, At;
    SkipWsExact(s, i + 1, ws);
  }

  lemma {:induction false} FullComplete(kind: Kind, es: Elems, s: string, i: nat, depth: nat)
    requires ValidElems(kind, es) && ValueAt(Full(kind, es), s, i)
    requires depth + 1 + NestingElems(es) <= 129
    ensures ParseContainer(s, i, depth, kind) == Done(i + ElemsLen(es) + 2)
    decreases es, 1
  {
    hide ParseElems, ElemsAt, ValidElems, ElemsLen, NestingElems;
    ElemsComplete(es, kind, s, i + 1, depth);
    FirstWs(es, kind, s, i + 1);
    ElemsAfterWs(s, i + 1, depth, kind);
  }

  lemma LiteralComplete(w: string, s: string, i: nat)
    requires (w == "true" || w == "false" || w == "null") && At(s, i, w)
    ensures i + |w| <= |s| && 'a' <= s[i] <= 'z' && ParseLiteral(s, i) == Done(i + |w|)
  {
    assert s[i + 0] == w[0] && s[i + 1] == w[1] && s[i + 2] == w[2] && s[i + 3] == w[3];
    assert w == "false" ==> s[i + 1 + 3] == s[i + 4] == w[4];
  }

  lemma {:induction false} ValueComplete(v: Value, s: string, i: nat, depth: nat)
    requires ValidValue(v) && ValueAt(v, s, i) && Follow(s, i + ValueLen(v))
    requires Nesting(v) > 0 ==> depth + Nesting(v) <= 129
    ensures ParseValue(s, i, depth) == Done(i + ValueLen(v))
    decreases v, 1
  {
    hide ParseNumber, ParseContainer, ParseLiteral, ParseChars, At, NumAt;
    match v {
      case Literal(w) => LiteralComplete(w, s, i);
      case Number(n) => NumberComplete(n, s, i);
      case Str(cs) => CharsComplete(cs, s, i + 1);
      case Empty(kind, ws) => EmptyComplete(kind, ws, s, i, depth);
      case Full(kind, es) => FullComplete(kind, es, s, i, depth);
    }
  }

  lemma AcceptsComplete(d: Document, s: string)
    requires ValidDocument(d) && Nesting(d.value) <= 129 && DocumentAt(d, s)
    ensures Accepts(s)
  {
    hide ParseValue, ValueAt, ValidValue, Nesting, At, AllWs;
    var a := |d.before|;
    var b := a + ValueLen(d.value);
    ValueStart(d.value, s, a);
    SkipWsExact(s, 0, d.before);
    FollowWs(s, b, d.after);
    ValueComplete(d.value, s, a, 0);
    SkipWsExact(s, b, d.after);
  }

  // Phase 1 accepts a text exactly when it is a JSON text whose containers nest
  // at most 129 deep.
  lemma AcceptsExactly(s: string)
    ensures Accepts(s) <==> IsJsonText(s, 129)
  {
    hide Accepts, ValidDocument, DocumentAt, DocumentText;
    if Accepts(s) {
      var d := AcceptsSound(s);
      DocumentTextAt(d, s);
    }
    if IsJsonText(s, 129) {
      var d: Document :| ValidDocument(d) && Nesting(d.value) <= 129 && DocumentText(d) == s;
      DocumentTextAt(d, s);
      AcceptsComplete(d, s);
    }
  }
}
