// The same derivations read in place: XAt(tree, s, i) says that the text of the
// tree stands in `s` at `i`, without spelling that text out. TextAt ties the two
// views together; the proofs about the parser and the scanner use this one.
module JsonSpan {
  import opened Text
  import opened JsonGrammar

  function CharLen(c: StrChar): nat {
    match c
    case Plain(_) => 1
    case Escaped(_) => 2
    case Unicode(h) => 2 + |h|
  }

  function CharsLen(cs: seq<StrChar>): nat {
    if cs == [] then 0 else CharLen(cs[0]) + CharsLen(cs[1..])
  }

  function StringLen(cs: seq<StrChar>): nat { CharsLen(cs) + 2 }

  function NumLen(n: NumberText): nat {
    (if n.minus then 1 else 0) + |n.whole| + |n.frac| + |n.exp|
  }

  function KeyLen(key: Key): nat {
    match key
    case NoKey => 0
    case Key(name, before, after) => StringLen(name) + |before| + 1 + |after|
  }

  function ValueLen(v: Value): nat {
    match v
    case Literal(w) => |w|
    case Number(n) => NumLen(n)
    case Str(cs) => StringLen(cs)
    case Empty(_, ws) => |ws| + 2
    case Full(_, es) => ElemsLen(es) + 2
  }

  function ElemLen(e: Elem): nat {
    |e.before| + KeyLen(e.key) + ValueLen(e.value) + |e.after|
  }

  function ElemsLen(es: Elems): nat {
    match es
    case One(e) => ElemLen(e)
    case More(e, rest) => ElemLen(e) + 1 + ElemsLen(rest)
  }

  ghost predicate Is(s: string, i: nat, c: char) { i < |s| && s[i] == c }

  ghost predicate CharAt(c: StrChar, s: string, i: nat) {
    match c
    case Plain(c) => Is(s, i, c)
    case Escaped(c) => Is(s, i, '\\') && Is(s, i + 1, c)
    case Unicode(h) => Is(s, i, '\\') && Is(s, i + 1, 'u') && At(s, i + 2, h)
  }

  ghost predicate CharsAt(cs: seq<StrChar>, s: string, i: nat) {
    i <= |s| && (cs != [] ==> CharAt(cs[0], s, i) && CharsAt(cs[1..], s, i + CharLen(cs[0])))
  }

  ghost predicate StringAt(cs: seq<StrChar>, s: string, i: nat) {
    Is(s, i, '"') && CharsAt(cs, s, i + 1) && Is(s, i + 1 + CharsLen(cs), '"')
  }

  ghost predicate NumAt(n: NumberText, s: string, i: nat) {
    var a := if n.minus then i + 1 else i;
    (n.minus ==> Is(s, i, '-')) && At(s, a, n.whole) && At(s, a + |n.whole|, n.frac)
    && At(s, a + |n.whole| + |n.frac|, n.exp)
  }

  ghost predicate KeyAt(key: Key, s: string, i: nat) {
    match key
    case NoKey => i <= |s|
    case Key(name, before, after) =>
      var a := i + StringLen(name);
      StringAt(name, s, i) && At(s, a, before) && Is(s, a + |before|, ':')
      && At(s, a + |before| + 1, after)
  }

  ghost predicate ValueAt(v: Value, s: string, i: nat) {
    match v
    case Literal(w) => At(s, i, w)
    case Number(n) => NumAt(n, s, i)
    case Str(cs) => StringAt(cs, s, i)
    case Empty(kind, ws) => Is(s, i, Open(kind)) && At(s, i + 1, ws) && Is(s, i + 1 + |ws|, Close(kind))
    case Full(kind, es) => Is(s, i, Open(kind)) && ElemsAt(es, s, i + 1) && Is(s, i + 1 + ElemsLen(es), Close(kind))
  }

  ghost predicate ElemAt(e: Elem, s: string, i: nat)
    decreases e
  {
    var a := i + |e.before|;
    var b := a + KeyLen(e.key);
    At(s, i, e.before) && KeyAt(e.key, s, a) && ValueAt(e.value, s, b)
    && At(s, b + ValueLen(e.value), e.after)
  }

  ghost predicate ElemsAt(es: Elems, s: string, i: nat)
    decreases es
  {
    match es
    case One(e) => ElemAt(e, s, i)
    case More(e, rest) =>
      ElemAt(e, s, i) && Is(s, i + ElemLen(e), ',') && ElemsAt(rest, s, i + ElemLen(e) + 1)
  }

  ghost predicate DocumentAt(d: Document, s: string) {
    var a := |d.before|;
    At(s, 0, d.before) && ValueAt(d.value, s, a) && At(s, a + ValueLen(d.value), d.after)
    && a + ValueLen(d.value) + |d.after| == |s|
  }

  // The two views agree

  lemma IsAt(s: string, i: nat, c: char)
    ensures At(s, i, [c]) <==> Is(s, i, c)
  {
    if At(s, i, [c]) {
      assert s[i + 0] == [c][0];
    }
  }

  lemma {:induction false} CharsTextAt(cs: seq<StrChar>, s: string, i: nat)
    ensures |CharsText(cs)| == CharsLen(cs)
    ensures CharsAt(cs, s, i) <==> At(s, i, CharsText(cs))
  {
    hide At;
    AtEmpty(s, i);
    if cs != [] {
      var c := cs[0];
      CharsTextAt(cs[1..], s, i + CharLen(c));
      AtConcat(s, i, CharText(c), CharsText(cs[1..]));
      assert CharAt(c, s, i) <==> At(s, i, CharText(c)) by {
        match c {
          case Plain(c) => IsAt(s, i, c);
          case Escaped(c) =>
            AtConcat(s, i, ['\\'], [c]);
            assert ['\\', c] == ['\\'] + [c];
            IsAt(s, i, '\\');
            IsAt(s, i + 1, c);
          case Unicode(h) =>
            AtConcat(s, i, ['\\', 'u'], h);
            AtConcat(s, i, ['\\'], ['u']);
            assert ['\\', 'u'] == ['\\'] + ['u'];
            IsAt(s, i, '\\');
            IsAt(s, i + 1, 'u');
        }
      }
    }
  }

  lemma StringTextAt(cs: seq<StrChar>, s: string, i: nat)
    ensures |StringText(cs)| == StringLen(cs)
    ensures StringAt(cs, s, i) <==> At(s, i, StringText(cs))
  {
    hide At, Is, CharsAt, CharsText, CharsLen;
    CharsTextAt(cs, s, i + 1);
    AtConcat(s, i, ['"'] + CharsText(cs), ['"']);
    AtConcat(s, i, ['"'], CharsText(cs));
    IsAt(s, i, '"');
    IsAt(s, i + 1 + CharsLen(cs), '"');
  }

  lemma NumTextAt(n: NumberText, s: string, i: nat)
    ensures |NumText(n)| == NumLen(n)
    ensures NumAt(n, s, i) <==> At(s, i, NumText(n))
  {
    hide At;
    var m := if n.minus then "-" else "";
    AtConcat(s, i, m + n.whole + n.frac, n.exp);
    AtConcat(s, i, m + n.whole, n.frac);
    AtConcat(s, i, m, n.whole);
    AtEmpty(s, i);
    IsAt(s, i, '-');
    assert !n.minus ==> m + n.whole == n.whole;
  }

  lemma KeyTextAt(key: Key, s: string, i: nat)
    ensures |KeyText(key)| == KeyLen(key)
    ensures KeyAt(key, s, i) <==> At(s, i, KeyText(key))
  {
    hide At, Is, StringAt, StringText, StringLen;
    AtEmpty(s, i);
    if key.Key? {
      var t := StringText(key.name);
      StringTextAt(key.name, s, i);
      AtConcat(s, i, t + key.before + [':'], key.after);
      AtConcat(s, i, t + key.before, [':']);
      AtConcat(s, i, t, key.before);
      IsAt(s, i + |t| + |key.before|, ':');
    }
  }

  lemma BracketTextAt(open: char, t: string, close: char, s: string, i: nat)
    ensures At(s, i, [open] + t + [close])
            <==> Is(s, i, open) && At(s, i + 1, t) && Is(s, i + 1 + |t|, close)
  {
    hide At;
    AtConcat(s, i, [open] + t, [close]);
    AtConcat(s, i, [open], t);
    IsAt(s, i, open);
    IsAt(s, i + 1 + |t|, close);
  }

  lemma {:induction false} ValueTextAt(v: Value, s: string, i: nat)
    ensures |ValueText(v)| == ValueLen(v)
    ensures ValueAt(v, s, i) <==> At(s, i, ValueText(v))
  {
    hide At, Is, NumAt, NumText, NumLen, StringAt, StringText, StringLen, ElemsAt, ElemsText, ElemsLen;
    match v {
      case Literal(_) =>
      case Number(n) => NumTextAt(n, s, i);
      case Str(cs) => StringTextAt(cs, s, i);
      case Empty(kind, ws) => BracketTextAt(Open(kind), ws, Close(kind), s, i);
      case Full(kind, es) =>
        ElemsTextAt(es, s, i + 1);
        BracketTextAt(Open(kind), ElemsText(es), Close(kind), s, i);
    }
  }

  lemma {:induction false} ElemTextAt(e: Elem, s: string, i: nat)
    ensures |ElemText(e)| == ElemLen(e)
    ensures ElemAt(e, s, i) <==> At(s, i, ElemText(e))
    decreases e
  {
    hide At, KeyAt, KeyText, KeyLen, ValueAt, ValueText, ValueLen;
    var a := i + |e.before|;
    KeyTextAt(e.key, s, a);
    ValueTextAt(e.value, s, a + KeyLen(e.key));
    var k, v := KeyText(e.key), ValueText(e.value);
    AtConcat(s, i, e.before + k + v, e.after);
    AtConcat(s, i, e.before + k, v);
    AtConcat(s, i, e.before, k);
  }

  lemma {:induction false} ElemsTextAt(es: Elems, s: string, i: nat)
    ensures |ElemsText(es)| == ElemsLen(es)
    ensures ElemsAt(es, s, i) <==> At(s, i, ElemsText(es))
    decreases es
  {
    hide At, Is, ElemAt, ElemText, ElemLen;
    ElemTextAt(es.e, s, i);
    if es.More? {
      var t := ElemText(es.e);
      ElemsTextAt(es.rest, s, i + |t| + 1);
      AtConcat(s, i, t + [','], ElemsText(es.rest));
      AtConcat(s, i, t, [',']);
      IsAt(s, i + |t|, ',');
    }
  }

  lemma DocumentTextAt(d: Document, s: string)
    ensures DocumentAt(d, s) <==> DocumentText(d) == s
  {
    hide At;
    var v := ValueText(d.value);
    ValueTextAt(d.value, s, |d.before|);
    AtConcat(s, 0, d.before + v, d.after);
    AtConcat(s, 0, d.before, v);
    AtSlice(s, 0, DocumentText(d));
    assert s[0..|s|] == s;
  }
}
