// Whatever the recogniser accepts is derived by a well-formed tree. Each lemma
// returns the tree it found.
module JsonSound {
  import opened Text
  import opened JsonGrammar
  import opened JsonSpan
  import opened JsonParse

  // White space and digits are read as far as they go.
  lemma {:induction false} SkipWsRun(s: string, i: nat)
    requires i <= |s|
    ensures AllWs(s[i..SkipWs(s, i)]) && At(s, i, s[i..SkipWs(s, i)])
    ensures SkipWs(s, SkipWs(s, i)) == SkipWs(s, i)
    decreases |s| - i
  {
    if i < |s| && IsWs(s[i]) {
      SkipWsRun(s, i + 1);
      assert s[i..SkipWs(s, i)] == [s[i]] + s[i + 1..SkipWs(s, i)];
    }
  }

  lemma {:induction false} SkipDigitsRun(s: string, i: nat)
    requires i <= |s|
    ensures forall k :: i <= k < SkipDigits(s, i) ==> IsDigit(s[k])
    decreases |s| - i
  {
    if i < |s| && IsDigit(s[i]) {
      SkipDigitsRun(s, i + 1);
    }
  }

  lemma CharSound(s: string, i: nat) returns (c: StrChar)
    requires i < |s| && s[i] != '"' && ParseChar(s, i).Done?
    ensures ValidChar(c) && CharAt(c, s, i)
    ensures i + CharLen(c) == ParseChar(s, i).value && s[i..i + CharLen(c)] == CharText(c)
  {
    c := Plain(s[i]);
    if s[i] == '\\' {
      c := if s[i + 1] == 'u' then Unicode(s[i + 2..i + 6]) else Escaped(s[i + 1]);
    }
  }

  lemma {:induction false} CharsSound(s: string, i: nat, end: nat) returns (cs: seq<StrChar>)
    requires i <= |s| && ParseChars(s, i) == Done(end)
    ensures ValidChars(cs) && CharsAt(cs, s, i)
    ensures i + CharsLen(cs) + 1 == end <= |s| && s[end - 1] == '"'
    decreases |s| - i
  {
    hide ParseChar, ValidChar, CharAt, CharLen;
    if s[i] == '"' {
      cs := [];
    } else {
      var c := CharSound(s, i);
      var rest := CharsSound(s, i + CharLen(c), end);
      cs := [c] + rest;
      assert cs[1..] == rest;
    }
  }

  lemma StringSound(s: string, i: nat, end: nat) returns (cs: seq<StrChar>)
    requires i <= |s| && ParseString(s, i) == Done(end)
    ensures ValidChars(cs) && StringAt(cs, s, i) && i + StringLen(cs) == end
  {
    cs := CharsSound(s, i + 1, end);
  }

  lemma WholeSound(s: string, i: nat)
    requires i <= |s| && ParseWhole(s, i).Done?
    ensures ValidWhole(s[i..ParseWhole(s, i).value])
  {
    SkipDigitsRun(s, i);
    if s[i] == '0' {
      assert s[i..i + 1] == "0";
    }
  }

  lemma FracSound(s: string, i: nat)
    requires i <= |s| && ParseFrac(s, i).Done?
    ensures ValidFrac(s[i..ParseFrac(s, i).value])
  {
    if i < |s| && s[i] == '.' {
      SkipDigitsRun(s, i + 1);
    }
  }

  lemma ExpSound(s: string, i: nat, end: nat)
    requires i <= |s| && ParseExp(s, i) == Done(end)
    ensures ValidExp(s[i..end])
  {
    var w := s[i..end];
    if i < |s| && (s[i] == 'e' || s[i] == 'E') {
      if i + 1 < |s| && (s[i + 1] == '+' || s[i + 1] == '-') {
        SkipDigitsRun(s, i + 2);
        assert w[2..] == s[i + 2..end];
      } else {
        SkipDigitsRun(s, i + 1);
        assert w[1..] == s[i + 1..end];
      }
    }
  }

  lemma NumberSound(s: string, i: nat, end: nat) returns (n: NumberText)
    requires i <= |s| && ParseNumber(s, i) == Done(end)
    ensures ValidNumber(n) && NumAt(n, s, i) && i + NumLen(n) == end
  {
    hide ParseWhole, ParseFrac, ParseExp, ValidWhole, ValidFrac, ValidExp, At;
    var minus := i < |s| && s[i] == '-';
    var a := if minus then i + 1 else i;
    var b := ParseWhole(s, a).value;
    var c := ParseFrac(s, b).value;
    WholeSound(s, a);
    FracSound(s, b);
    ExpSound(s, c, end);
    SliceAt(s, a, b);
    SliceAt(s, b, c);
    SliceAt(s, c, end);
    n := NumberText(minus, s[a..b], s[b..c], s[c..end]);
  }

  lemma KeySound(s: string, i: nat, kind: Kind, end: nat) returns (key: Key)
    requires i <= |s| && ParseKey(s, i, kind) == Done(end)
    ensures ValidKey(kind, key) && KeyAt(key, s, i) && i + KeyLen(key) == end
  {
    hide ParseString, StringAt, At, AllWs, ValidChars, SkipWs;
    if kind == ArrayKind {
      key := NoKey;
    } else {
      var a := ParseString(s, i).value;
      var b := SkipWs(s, a);
      SkipWsRun(s, a);
      SkipWsRun(s, b + 1);
      var name := StringSound(s, i, a);
      key := Key(name, s[a..b], s[b + 1..end]);
    }
  }

  // Where the parts of the first element end.
  lemma ElemSplit(s: string, i: nat, depth: nat, kind: Kind, end: nat)
      returns (a: nat, b: nat, c: nat, d: nat)
    requires i <= |s| && ParseElems(s, i, depth, kind) == Done(end)
    ensures i <= a <= b < c <= d < end <= |s|
    ensures AllWs(s[i..a]) && At(s, i, s[i..a]) && AllWs(s[c..d]) && At(s, c, s[c..d])
    ensures ParseKey(s, a, kind) == Done(b)
    ensures ParseValue(s, b, depth + 1) == Done(c)
    ensures if s[d] == ',' then ParseElems(s, d + 1, depth, kind) == Done(end)
            else s[d] == Close(kind) && end == d + 1
  {
    hide ParseValue, ParseKey, At, AllWs;
    a := SkipWs(s, i);
    b := ParseKey(s, a, kind).value;
    c := ParseValue(s, b, depth + 1).value;
    d := SkipWs(s, c);
    SkipWsRun(s, i);
    SkipWsRun(s, c);
  }

  lemma {:induction false} ElemsSound(s: string, i: nat, depth: nat, kind: Kind, end: nat) returns (es: Elems)
    requires i <= |s| && ParseElems(s, i, depth, kind) == Done(end) && depth <= 128
    ensures ValidElems(kind, es) && ElemsAt(es, s, i)
    ensures i + ElemsLen(es) + 1 == end <= |s| && s[end - 1] == Close(kind)
    ensures depth + 1 + NestingElems(es) <= 129
    decreases |s| - i, 2
  {
    hide ParseElems, ParseValue, ParseKey, At, KeyAt, ValueAt, KeyLen, ValueLen, AllWs, ValidKey, ValidValue, Nesting;
    var a, b, c, d := ElemSplit(s, i, depth, kind, end);
    var key := KeySound(s, a, kind, b);
    var value := ValueSound(s, b, depth + 1, c);
    var e := Elem(s[i..a], key, value, s[c..d]);
    if s[d] == ',' {
      var rest := ElemsSound(s, d + 1, depth, kind, end);
      es := More(e, rest);
    } else {
      es := One(e);
    }
  }

  // An empty container ends after its white space. The white space skipped
  // before a first element belongs to that element.
  lemma ContainerSplit(s: string, i: nat, depth: nat, kind: Kind, end: nat)
    requires i < |s| && ParseContainer(s, i, depth, kind) == Done(end)
    ensures depth <= 128 && i + 1 < end <= |s|
    ensures ParseElems(s, i + 1, depth, kind) == Done(end)
         || (AllWs(s[i + 1..end - 1]) && At(s, i + 1, s[i + 1..end - 1]) && s[end - 1] == Close(kind))
  {
    hide ParseValue, ParseKey, AllWs, At;
    SkipWsRun(s, i + 1);
  }

  lemma {:induction false} ContainerSound(s: string, i: nat, depth: nat, kind: Kind, end: nat)
      returns (v: Value)
    requires i < |s| && s[i] == Open(kind) && ParseContainer(s, i, depth, kind) == Done(end)
    ensures ValidValue(v) && ValueAt(v, s, i) && i + ValueLen(v) == end
    ensures depth + Nesting(v) <= 129
    decreases |s| - i, 0
  {
    hide ParseContainer, ParseElems, ElemsAt, ElemsLen, ValidElems, NestingElems, At, AllWs;
    ContainerSplit(s, i, depth, kind, end);
    if ParseElems(s, i + 1, depth, kind) == Done(end) {
      var es := ElemsSound(s, i + 1, depth, kind, end);
      v := Full(kind, es);
    } else {
      v := Empty(kind, s[i + 1..end - 1]);
    }
  }

  lemma LiteralSound(s: string, i: nat, end: nat) returns (v: Value)
    requires i < |s| && ParseLiteral(s, i) == Done(end)
    ensures ValidValue(v) && ValueAt(v, s, i) && i + ValueLen(v) == end && Nesting(v) == 0
  {
    v := Literal(s[i..end]);
  }

  lemma {:induction false} ValueSound(s: string, i: nat, depth: nat, end: nat) returns (v: Value)
    requires i <= |s| && ParseValue(s, i, depth) == Done(end)
    ensures ValidValue(v) && ValueAt(v, s, i) && i + ValueLen(v) == end
    ensures Nesting(v) > 0 ==> depth + Nesting(v) <= 129
    decreases |s| - i, 1
  {
    hide ParseContainer, ParseString, ParseNumber, ParseLiteral, NumAt, StringAt, ElemsAt, At, ValidChars, ValidNumber;
    if s[i] == '{' {
      v := ContainerSound(s, i, depth, ObjectKind, end);
    } else if s[i] == '[' {
      v := ContainerSound(s, i, depth, ArrayKind, end);
    } else if s[i] == '"' {
      var cs := StringSound(s, i, end);
      v := Str(cs);
    } else if s[i] == '-' || IsDigit(s[i]) {
      var n := NumberSound(s, i, end);
      v := Number(n);
    } else {
      v := LiteralSound(s, i, end);
    }
  }

  // Phase 1 accepts only JSON texts, and only those nested at most 129 deep.
  lemma AcceptsSound(s: string) returns (d: Document)
    requires Accepts(s)
    ensures ValidDocument(d) && Nesting(d.value) <= 129 && DocumentAt(d, s)
  {
    hide ParseValue, ValueAt, ValueLen, ValidValue, Nesting, AllWs, At;
    var a := SkipWs(s, 0);
    var b := ParseValue(s, a, 0).value;
    SkipWsRun(s, 0);
    SkipWsRun(s, b);
    var v := ValueSound(s, a, 0, b);
    d := Document(s[0..a], v, s[b..|s|]);
  }

  // What stands before trailing bytes is a JSON text by itself.
  lemma FrontSound(s: string, b: nat)
    requires ParseValue(s, SkipWs(s, 0), 0) == Done(b)
    ensures IsJsonText(s[..SkipWs(s, b)], 129)
  {
    hide ParseValue, ValueAt, ValueLen, ValueText, ValidValue, Nesting, AllWs, At;
    var a, n := SkipWs(s, 0), SkipWs(s, b);
    SkipWsRun(s, 0);
    SkipWsRun(s, b);
    var v := ValueSound(s, a, 0, b);
    ValueTextAt(v, s, a);
    AtSlice(s, a, ValueText(v));
    var d := Document(s[0..a], v, s[b..n]);
    assert s[..n] == s[0..a] + s[a..b] + s[b..n];
    assert ValidDocument(d) && DocumentText(d) == s[..n];
  }
}
