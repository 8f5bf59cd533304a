// What the text search of the extraction reads out of a record, in terms of the
// record's tree.
module JsonFields {
  import opened Text
  import opened JsonGrammar
  import opened JsonSpan
  import opened JsonScan
  import opened JsonComplete
  import opened JsonExtract
  import R = Radix

  // A name that only a key can stand for.
  predicate PlainName(k: string) { forall j :: 0 <= j < |k| ==> k[j] !in {'"', '\\', ',', ':'} }

  function Quoted(k: string): string { ['"'] + k + ['"'] }

  predicate EndsWith(t: string, u: string) { |u| <= |t| && t[|t| - |u|..] == u }

  // The search takes this for the member: a key that ends in "k" (after an
  // escaped quote, it may be longer), with the colon right after it, and, when a
  // string is wanted, the string right after that.
  predicate Matches(e: Elem, k: string, strs: bool) {
    e.key.Key? && e.key.before == "" && EndsWith(StringText(e.key.name), Quoted(k))
    && (strs ==> e.key.after == "" && e.value.Str?)
  }

  // The first such element of a value, however deep, in the order of the text.
  function First(v: Value, k: string, strs: bool): (r: Option<Elem>)
    ensures r.Some? ==> Matches(r.value, k, strs)
  {
    if v.Full? then FirstOf(v.elems, k, strs) else None
  }

  function FirstIn(e: Elem, k: string, strs: bool): (r: Option<Elem>)
    ensures r.Some? ==> Matches(r.value, k, strs)
    decreases e
  {
    if Matches(e, k, strs) then Some(e) else First(e.value, k, strs)
  }

  function FirstOf(es: Elems, k: string, strs: bool): (r: Option<Elem>)
    ensures r.Some? ==> Matches(r.value, k, strs)
    decreases es
  {
    var here := FirstIn(es.e, k, strs);
    if here.Some? || es.One? then here else FirstOf(es.rest, k, strs)
  }

  // The integer read at an element: its integer part, unless a line break comes
  // before it.
  function MemberInt(e: Elem): int {
    if e.key.NoKey? || '\n' in e.key.after || '\r' in e.key.after then 0 else
    match e.value
    case Number(n) => if n.minus then 0 - R.Value(n.whole, 10) else R.Value(n.whole, 10)
    case _ => 0
  }

  // The characters up to the first quote, escaped or not.
  function RawLen(cs: seq<StrChar>): nat {
    if cs == [] then 0
    else if cs[0] == Escaped('"') then 1
    else CharLen(cs[0]) + RawLen(cs[1..])
  }

  function MemberLen(e: Elem): nat { if e.value.Str? then RawLen(e.value.chars) else 0 }

  function IntOf(v: Value, k: string): int {
    match First(v, k, false) case None => 0 case Some(e) => MemberInt(e)
  }

  function LenOf(v: Value, k: string): nat {
    match First(v, k, true) case None => 0 case Some(e) => MemberLen(e)
  }

  // Where the pattern stands

  function Pattern(k: string, strs: bool): string { if strs then StrPattern(k) else IntPattern(k) }

  // The pattern stands in s with its second quote at q.
  predicate HitTo(s: string, q: nat, k: string, strs: bool) {
    q >= |k| + 1 && Stands(s, q - |k| - 1, Pattern(k, strs))
  }

  lemma HitShape(s: string, q: nat, k: string, strs: bool)
    requires q >= |k| + 1
    ensures HitTo(s, q, k, strs)
       <==> At(s, q - |k| - 1, Quoted(k)) && Is(s, q + 1, ':') && (strs ==> Is(s, q + 2, '"'))
  {
    hide At, Is;
    var p, tail := q - |k| - 1, if strs then [':', '"'] else [':'];
    AtSlice(s, p, Pattern(k, strs));
    assert Pattern(k, strs) == Quoted(k) + tail;
    AtConcat(s, p, Quoted(k), tail);
    IsAt(s, q + 1, ':');
    IsAt(s, q + 2, '"');
    if strs {
      assert tail == [':'] + ['"'];
      AtConcat(s, q + 1, [':'], ['"']);
    }
  }

  lemma HitChars(s: string, q: nat, k: string, strs: bool)
    requires HitTo(s, q, k, strs) && PlainName(k)
    ensures q + 1 < |s| && s[q] == '"' && s[q + 1] == ':' && s[q - |k| - 1] == '"'
    ensures forall x :: q - |k| - 1 < x < q ==> s[x] !in {'"', '\\', ',', ':'}
  {
    HitFar(s, q, k, strs);
    hide HitTo;
    HitShape(s, q, k, strs);
    var p, t := q - |k| - 1, Quoted(k);
    assert s[p + 0] == t[0] && s[p + (|k| + 1)] == t[|k| + 1];
    forall x | p < x < q ensures s[x] !in {'"', '\\', ',', ':'} {
      assert s[p + (x - p)] == t[x - p] == k[x - p - 1];
    }
  }

  ghost predicate Quiet(s: string, i: nat, j: nat) { j <= |s| && forall x :: i <= x < j ==> s[x] != '"' }

  // No match reaches from before i to i or beyond.
  ghost predicate NoneAcross(s: string, i: nat, k: string, strs: bool) {
    forall q :: i <= q && HitTo(s, q, k, strs) ==> i <= q - |k| - 1
  }

  lemma AcrossQuiet(s: string, i: nat, j: nat, k: string, strs: bool)
    requires NoneAcross(s, i, k, strs) && i <= j && Quiet(s, i, j) && PlainName(k)
    ensures NoneAcross(s, j, k, strs)
  {
    hide HitTo;
    forall q | j <= q && HitTo(s, q, k, strs) ensures j <= q - |k| - 1 {
      HitChars(s, q, k, strs);
    }
  }

  lemma AcrossMark(s: string, x: nat, k: string, strs: bool)
    requires x < |s| && s[x] in {',', ':'} && PlainName(k)
    ensures NoneAcross(s, x + 1, k, strs)
  {
    hide HitTo;
    forall q | x + 1 <= q && HitTo(s, q, k, strs) ensures x + 1 <= q - |k| - 1 {
      HitChars(s, q, k, strs);
    }
  }

  lemma WsQuiet(s: string, i: nat, w: string)
    requires At(s, i, w) && AllWs(w)
    ensures Quiet(s, i, i + |w|)
  {
    forall x | i <= x < i + |w| ensures s[x] != '"' {
      assert s[i + (x - i)] == w[x - i];
    }
  }

  // A well-formed member stands at a.
  ghost predicate MemberAt(s: string, a: nat, e: Elem) {
    e.key.Key? && ValidKey(ObjectKind, e.key) && ValidValue(e.value) && KeyAt(e.key, s, a)
    && ValueAt(e.value, s, a + KeyLen(e.key)) && Follow(s, a + KeyLen(e.key) + ValueLen(e.value))
  }

  // The first match whose second quote is in s[i..j] is at the key of r.
  ghost predicate Found(s: string, i: nat, j: nat, k: string, strs: bool, r: Option<Elem>) {
    match r
    case None => Unfound(s, i, j, k, strs)
    case Some(e) => exists a :: FoundAt(s, i, j, k, strs, e, a)
  }

  ghost predicate Unfound(s: string, i: nat, j: nat, k: string, strs: bool) {
    forall q :: i <= q < j ==> !HitTo(s, q, k, strs)
  }

  ghost predicate FoundAt(s: string, i: nat, j: nat, k: string, strs: bool, e: Elem, a: nat) {
    MemberAt(s, a, e)
    && var q := a + StringLen(e.key.name) - 1;
       i <= q < j && HitTo(s, q, k, strs) && Unfound(s, i, q, k, strs)
  }

  lemma FoundJoin(s: string, i: nat, m: nat, j: nat, k: string, strs: bool, a: Option<Elem>, b: Option<Elem>)
    requires i <= m <= j && Found(s, i, m, k, strs, a) && Found(s, m, j, k, strs, b)
    ensures Found(s, i, j, k, strs, if a.Some? then a else b)
  {
    hide HitTo, MemberAt;
    if a.Some? {
      var at :| FoundAt(s, i, m, k, strs, a.value, at);
      assert FoundAt(s, i, j, k, strs, a.value, at);
    } else if b.Some? {
      var at :| FoundAt(s, m, j, k, strs, b.value, at);
      assert FoundAt(s, i, j, k, strs, b.value, at);
    }
  }

  lemma FoundQuiet(s: string, i: nat, j: nat, k: string, strs: bool)
    requires Quiet(s, i, j) && PlainName(k)
    ensures Found(s, i, j, k, strs, None)
  {
    hide HitTo;
    forall q | i <= q < j ensures !HitTo(s, q, k, strs) {
      if HitTo(s, q, k, strs) {
        HitChars(s, q, k, strs);
      }
    }
  }

  // Inside a string every quote comes after a backslash.
  lemma {:induction false} QuoteEscaped(cs: seq<StrChar>, s: string, i: nat, x: nat)
    requires ValidChars(cs) && CharsAt(cs, s, i) && i <= x < i + CharsLen(cs) && x < |s| && s[x] == '"'
    ensures i < x && s[x - 1] == '\\'
    decreases |cs|
  {
    var n := CharLen(cs[0]);
    if x >= i + n {
      QuoteEscaped(cs[1..], s, i + n, x);
    } else if cs[0].Unicode? {
      HexQuiet(cs[0].hex, s, i + 2);
    }
  }

  lemma HexQuiet(h: string, s: string, i: nat)
    requires At(s, i, h) && ValidChar(Unicode(h))
    ensures Quiet(s, i, i + |h|)
  {
    forall x | i <= x < i + |h| ensures s[x] != '"' {
      assert s[i + (x - i)] == h[x - i];
    }
  }

  // A quote inside a string that does not come after a backslash closes it.
  lemma QuoteCloses(cs: seq<StrChar>, s: string, i: nat, q: nat)
    requires ValidChars(cs) && StringAt(cs, s, i) && i < q < i + StringLen(cs) && s[q] == '"' && s[q - 1] != '\\'
    ensures q == i + StringLen(cs) - 1
  {
    hide CharsAt, CharsLen, ValidChars;
    if q < i + 1 + CharsLen(cs) {
      QuoteEscaped(cs, s, i + 1, q);
    }
  }

  // So only the closing quote of a string can end a match.
  lemma HitCloses(s: string, i: nat, k: string, strs: bool, q: nat)
    requires NoneAcross(s, i, k, strs) && PlainName(k) && i <= q && HitTo(s, q, k, strs)
    ensures i < q && q + 1 < |s| && s[q] == '"' && s[q - 1] != '\\' && s[q + 1] == ':'
  {
    hide HitTo, PlainName;
    HitChars(s, q, k, strs);
  }

  lemma FoundString(cs: seq<StrChar>, s: string, i: nat, k: string, strs: bool)
    requires ValidChars(cs) && StringAt(cs, s, i) && NoneAcross(s, i, k, strs) && PlainName(k)
    requires Follow(s, i + StringLen(cs))
    ensures Found(s, i, i + StringLen(cs), k, strs, None)
  {
    hide HitTo, StringAt, StringLen, NoneAcross;
    forall q | i <= q < i + StringLen(cs) ensures !HitTo(s, q, k, strs) {
      if HitTo(s, q, k, strs) {
        HitCloses(s, i, k, strs, q);
        QuoteCloses(cs, s, i, q);
      }
    }
  }

  // What a value starts with tells what kind it is.
  lemma ValueOpens(v: Value, s: string, i: nat)
    requires ValidValue(v) && ValueAt(v, s, i)
    ensures i < |s| && (s[i] == '"' <==> v.Str?) && !IsWs(s[i])
    ensures !v.Number? ==> !IsDigit(s[i]) && s[i] != '-'
  {
    hide CharsAt, ElemsAt, ElemsLen, ValidElems, CharsLen;
    match v {
      case Literal(w) => assert s[i + 0] == w[0];
      case Number(n) =>
        if !n.minus {
          assert s[i + 0] == n.whole[0];
        }
      case _ =>
    }
  }

  // The key of a member matches exactly when the member does.
  lemma HitKey(e: Elem, s: string, a: nat, k: string, strs: bool)
    requires MemberAt(s, a, e) && NoneAcross(s, a, k, strs) && PlainName(k)
    ensures HitTo(s, a + StringLen(e.key.name) - 1, k, strs) <==> Matches(e, k, strs)
  {
    hide HitTo, NoneAcross, StringAt, At, ValueAt, ValidValue, ValidChars, CharsText, PlainName;
    var name, q := e.key.name, a + StringLen(e.key.name) - 1;
    EndsAt(name, s, a, k);
    ColonAfter(e.key, s, a);
    if q >= |k| + 1 {
      HitShape(s, q, k, strs);
      if HitTo(s, q, k, strs) {
        assert NoneAcross(s, a, k, strs) ==> a <= q - |k| - 1 by { AcrossFrom(s, a, q, k, strs); }
      }
    }
    if e.key.before == "" && strs {
      StringFollows(e, s, a);
    }
    assert HitTo(s, q, k, strs) ==> q >= |k| + 1 by { HitFar(s, q, k, strs); }
  }

  lemma HitFar(s: string, q: nat, k: string, strs: bool)
    ensures HitTo(s, q, k, strs) ==> q >= |k| + 1
  {
  }

  lemma AcrossFrom(s: string, i: nat, q: nat, k: string, strs: bool)
    requires NoneAcross(s, i, k, strs) && i <= q && HitTo(s, q, k, strs)
    ensures i <= q - |k| - 1
  {
  }

  lemma EndsAt(cs: seq<StrChar>, s: string, a: nat, k: string)
    requires StringAt(cs, s, a)
    ensures var q := a + StringLen(cs) - 1;
            EndsWith(StringText(cs), Quoted(k)) <==> a + |k| + 1 <= q && At(s, q - |k| - 1, Quoted(k))
  {
    hide StringAt, CharsText, StringText;
    var t, u, n := StringText(cs), Quoted(k), StringLen(cs);
    StringTextAt(cs, s, a);
    AtSlice(s, a, t);
    if |u| <= n {
      var p := a + n - |u|;
      AtSlice(s, p, u);
      assert s[p..p + |u|] == s[a..a + n][n - |u|..];
    }
  }

  lemma ColonAfter(key: Key, s: string, a: nat)
    requires key.Key? && ValidKey(ObjectKind, key) && KeyAt(key, s, a)
    ensures Is(s, a + StringLen(key.name), ':') <==> key.before == ""
  {
    hide StringAt, StringLen;
    if key.before != "" {
      assert s[a + StringLen(key.name) + 0] == key.before[0];
    }
  }

  lemma StringFollows(e: Elem, s: string, a: nat)
    requires MemberAt(s, a, e) && e.key.before == ""
    ensures Is(s, a + StringLen(e.key.name) + 1, '"') <==> e.key.after == "" && e.value.Str?
  {
    hide StringAt, StringLen, ValueAt, ValidValue;
    var b := a + StringLen(e.key.name) + 1;
    if e.key.after != "" {
      assert s[b + 0] == e.key.after[0];
    } else {
      ValueOpens(e.value, s, b);
    }
  }

  lemma FoundKey(e: Elem, s: string, a: nat, k: string, strs: bool)
    requires MemberAt(s, a, e) && NoneAcross(s, a, k, strs) && PlainName(k)
    ensures Found(s, a, a + KeyLen(e.key), k, strs, if Matches(e, k, strs) then Some(e) else None)
    ensures NoneAcross(s, a + KeyLen(e.key), k, strs)
  {
    hide HitTo, NoneAcross, Matches, ValidValue, ValueAt, ValidChars, StringAt, PlainName, CharsLen;
    var key := e.key;
    var b := a + StringLen(key.name);
    HitKey(e, s, a, k, strs);
    forall q | a <= q < b - 1 ensures !HitTo(s, q, k, strs) {
      if HitTo(s, q, k, strs) {
        HitCloses(s, a, k, strs, q);
        QuoteCloses(key.name, s, a, q);
      }
    }
    assert Found(s, a, b, k, strs, if Matches(e, k, strs) then Some(e) else None) by {
      if Matches(e, k, strs) {
        assert FoundAt(s, a, b, k, strs, e, a);
      }
    }
    var c := b + |key.before| + 1;
    WsQuiet(s, b, key.before);
    WsQuiet(s, c, key.after);
    FoundQuiet(s, b, c + |key.after|, k, strs);
    FoundJoin(s, a, b, c + |key.after|, k, strs, if Matches(e, k, strs) then Some(e) else None, None);
    AcrossMark(s, c - 1, k, strs);
    AcrossQuiet(s, c, c + |key.after|, k, strs);
  }

  lemma NumberQuiet(n: NumberText, s: string, i: nat)
    requires ValidNumber(n) && NumAt(n, s, i)
    ensures Quiet(s, i, i + NumLen(n))
  {
    var a := if n.minus then i + 1 else i;
    var b := a + |n.whole|;
    var c := b + |n.frac|;
    forall x | a <= x < b ensures s[x] != '"' {
      assert s[a + (x - a)] == n.whole[x - a];
    }
    forall x | b <= x < c ensures s[x] != '"' {
      assert s[b + (x - b)] == n.frac[x - b];
      assert x > b ==> n.frac[x - b] == n.frac[1..][x - b - 1];
    }
    forall x | c <= x < c + |n.exp| ensures s[x] != '"' {
      assert s[c + (x - c)] == n.exp[x - c];
      assert x > c ==> n.exp[x - c] == n.exp[1..][x - c - 1];
      assert x > c + 1 ==> n.exp[x - c] == n.exp[2..][x - c - 2];
    }
  }

  lemma LiteralQuiet(w: string, s: string, i: nat)
    requires ValidValue(Literal(w)) && At(s, i, w)
    ensures Quiet(s, i, i + |w|)
  {
    forall x | i <= x < i + |w| ensures s[x] != '"' {
      assert s[i + (x - i)] == w[x - i];
    }
  }

  // In a value and its parts the search finds what First says.
  lemma {:induction false} FoundValue(v: Value, s: string, i: nat, k: string, strs: bool)
    requires ValidValue(v) && ValueAt(v, s, i) && NoneAcross(s, i, k, strs) && PlainName(k)
    requires v.Str? ==> Follow(s, i + ValueLen(v))
    ensures Found(s, i, i + ValueLen(v), k, strs, First(v, k, strs))
    decreases v, 0
  {
    hide Found, NoneAcross, PlainName, ValidElems, ElemsAt, FirstOf, StringAt, ValidChars, Follow, ValidNumber, NumAt;
    hide ElemsLen, CharsLen, NumLen, At;
    match v {
      case Literal(w) =>
        LiteralQuiet(w, s, i);
        FoundQuiet(s, i, i + |w|, k, strs);
      case Number(n) =>
        NumberQuiet(n, s, i);
        FoundQuiet(s, i, i + NumLen(n), k, strs);
      case Str(cs) => FoundString(cs, s, i, k, strs);
      case Empty(_, ws) =>
        WsQuiet(s, i + 1, ws);
        FoundQuiet(s, i, i + |ws| + 2, k, strs);
      case Full(kind, es) =>
        var j := i + 1 + ElemsLen(es);
        AcrossQuiet(s, i, i + 1, k, strs);
        FoundQuiet(s, i, i + 1, k, strs);
        FoundElems(kind, es, s, i + 1, k, strs);
        FoundQuiet(s, j, j + 1, k, strs);
        FoundJoin(s, i, i + 1, j, k, strs, None, First(v, k, strs));
        FoundJoin(s, i, j, j + 1, k, strs, First(v, k, strs), None);
    }
  }

  ghost predicate Ends(s: string, i: nat) { Is(s, i, ',') || Is(s, i, ']') || Is(s, i, '}') }

  lemma {:induction false} FoundElem(kind: Kind, e: Elem, s: string, i: nat, k: string, strs: bool)
    requires ValidElem(kind, e) && ElemAt(e, s, i) && NoneAcross(s, i, k, strs) && PlainName(k)
    requires Ends(s, i + ElemLen(e))
    ensures Found(s, i, i + ElemLen(e), k, strs, FirstIn(e, k, strs))
    decreases e
  {
    hide Found, NoneAcross, PlainName, At, KeyAt, ValueAt, ValidValue, Matches, First, KeyLen, ValueLen, Quiet;
    var a := i + |e.before|;
    var b := a + KeyLen(e.key);
    var c := b + ValueLen(e.value);
    FollowWs(s, c, e.after);
    WsQuiet(s, i, e.before);
    FoundQuiet(s, i, a, k, strs);
    AcrossQuiet(s, i, a, k, strs);
    var key := if Matches(e, k, strs) then Some(e) else None;
    if e.key.Key? {
      FoundKey(e, s, a, k, strs);
    } else {
      NoKeyFound(e, s, a, k, strs);
    }
    FoundValue(e.value, s, b, k, strs);
    WsQuiet(s, c, e.after);
    FoundQuiet(s, c, c + |e.after|, k, strs);
    FoundJoin(s, i, a, b, k, strs, None, key);
    FoundJoin(s, i, b, c, k, strs, key, First(e.value, k, strs));
    FoundJoin(s, i, c, c + |e.after|, k, strs, FirstIn(e, k, strs), None);
  }

  lemma NoKeyFound(e: Elem, s: string, a: nat, k: string, strs: bool)
    requires e.key.NoKey? && NoneAcross(s, a, k, strs)
    ensures !Matches(e, k, strs) && KeyLen(e.key) == 0 && Found(s, a, a, k, strs, None)
  {
  }

  lemma {:induction false} FoundElems(kind: Kind, es: Elems, s: string, i: nat, k: string, strs: bool)
    requires ValidElems(kind, es) && ElemsAt(es, s, i) && NoneAcross(s, i, k, strs) && PlainName(k)
    requires Ends(s, i + ElemsLen(es))
    ensures Found(s, i, i + ElemsLen(es), k, strs, FirstOf(es, k, strs))
    decreases es
  {
    hide Found, NoneAcross, PlainName, ElemAt, ValidElem, FirstIn, ElemLen;
    FoundElem(kind, es.e, s, i, k, strs);
    if es.More? {
      var j := i + ElemLen(es.e);
      AcrossMark(s, j, k, strs);
      FoundQuiet(s, j, j + 1, k, strs);
      FoundElems(kind, es.rest, s, j + 1, k, strs);
      FoundJoin(s, i, j, j + 1, k, strs, FirstIn(es.e, k, strs), None);
      FoundJoin(s, i, j + 1, j + 1 + ElemsLen(es.rest), k, strs, FirstIn(es.e, k, strs), FirstOf(es.rest, k, strs));
    }
  }

  // The search over the text of an object.
  lemma FirstFound(v: Value, s: string, k: string, strs: bool)
    requires ValidValue(v) && IsObject(v) && s == ValueText(v) && PlainName(k)
    ensures Found(s, 0, |s|, k, strs, First(v, k, strs)) && ValueAt(v, s, 0)
  {
    hide Found, First, PlainName, ValidValue, ValueAt, ValueText, HitTo;
    ValueTextAt(v, s, 0);
    AtSlice(s, 0, s);
    assert s[0..|s|] == s;
    HitsFromStart(s, k, strs);
    FoundValue(v, s, 0, k, strs);
  }

  lemma HitsFromStart(s: string, k: string, strs: bool)
    ensures NoneAcross(s, 0, k, strs)
  {
  }

  lemma NotFound(s: string, k: string, strs: bool)
    requires Found(s, 0, |s|, k, strs, None)
    ensures Find(s, Pattern(k, strs), 0) == None
  {
    var r := Find(s, Pattern(k, strs), 0);
    assert r.Some? ==> HitTo(s, r.value + |k| + 1, k, strs);
  }

  lemma FoundFirst(s: string, k: string, strs: bool, e: Elem) returns (a: nat)
    requires Found(s, 0, |s|, k, strs, Some(e))
    ensures MemberAt(s, a, e) && a + StringLen(e.key.name) >= |k| + 2
    ensures Find(s, Pattern(k, strs), 0) == Some(a + StringLen(e.key.name) - |k| - 2)
  {
    hide KeyAt, ValueAt, ValidKey, ValidValue, Stands;
    a :| FoundAt(s, 0, |s|, k, strs, e, a);
    var at := a + StringLen(e.key.name) - |k| - 2;
    forall p | 0 <= p < at ensures !Stands(s, p, Pattern(k, strs)) {
      assert !HitTo(s, p + |k| + 1, k, strs);
    }
    FindIs(s, Pattern(k, strs), 0, at);
  }

  // What is read there

  lemma {:induction false} BlanksSkipped(s: string, i: nat, w: string)
    requires At(s, i, w) && AllWs(w)
    ensures '\n' !in w && '\r' !in w ==> SkipBlank(s, i) == SkipBlank(s, i + |w|)
    ensures '\n' in w || '\r' in w ==> var r := SkipBlank(s, i); r < |s| && (s[r] == '\n' || s[r] == '\r')
    decreases |w|
  {
    if w != "" {
      assert s[i + 0] == w[0];
      forall k | 0 <= k < |w[1..]| ensures s[i + 1 + k] == w[1..][k] {
        assert s[i + (k + 1)] == w[k + 1];
      }
      assert w == [w[0]] + w[1..];
      BlanksSkipped(s, i + 1, w[1..]);
    }
  }

  lemma {:induction false} DigitsRead(s: string, i: nat, d: string, j: nat, acc: int)
    requires At(s, i, d) && j <= |d| && (i + |d| < |s| ==> !IsDigit(s[i + |d|])) && AllDigits(d)
    requires acc == R.Value(d[..j], 10)
    ensures Accumulate(s, i + j, acc) == R.Value(d, 10)
    decreases |d| - j
  {
    hide At, R.Value, R.DigitValue;
    if j < |d| {
      assert d[..j + 1] == d[..j] + [d[j]];
      R.ValuePush(d[..j], d[j], 10);
      AtIndex(s, i, d, j);
      DigitsRead(s, i, d, j + 1, acc * 10 + R.DigitValue(s[i + j]));
    } else {
      AtFits(s, i, d);
      assert d[..j] == d;
    }
  }

  lemma AtFits(s: string, i: nat, t: string)
    requires At(s, i, t)
    ensures i + |t| <= |s|
  {
  }

  lemma NumberRead(n: NumberText, s: string, i: nat)
    requires ValidNumber(n) && NumAt(n, s, i) && Follow(s, i + NumLen(n))
    ensures var a := if n.minus then i + 1 else i;
            Accumulate(s, a, 0) == R.Value(n.whole, 10) && Is(s, a, n.whole[0]) && IsDigit(n.whole[0])
  {
    hide Accumulate;
    var a := if n.minus then i + 1 else i;
    var b := a + |n.whole|;
    AtIndex(s, a, n.whole, 0);
    if n.frac != "" {
      AtIndex(s, b, n.frac, 0);
    } else if n.exp != "" {
      AtIndex(s, b, n.exp, 0);
    }
    assert n.whole[..0] == "";
    DigitsRead(s, a, n.whole, 0, 0);
  }

  lemma IntRead(s: string, a: nat, e: Elem)
    requires MemberAt(s, a, e) && e.key.before == ""
    ensures a + StringLen(e.key.name) + 1 <= |s| && IntAt(s, a + StringLen(e.key.name) + 1) == MemberInt(e)
  {
    hide StringAt, StringLen, R.Value, SkipBlank, Accumulate, ValueAt, ValidValue;
    var b := a + StringLen(e.key.name) + 1;
    var c := b + |e.key.after|;
    BlanksSkipped(s, b, e.key.after);
    IntReadHere(e.value, s, c);
    if '\n' in e.key.after || '\r' in e.key.after {
      NoDigits(s, SkipBlank(s, b));
    }
  }

  lemma NoDigits(s: string, i: nat)
    requires i < |s| && !IsDigit(s[i])
    ensures Accumulate(s, i, 0) == 0
  {
  }

  // Right at the value.
  lemma IntReadHere(v: Value, s: string, c: nat)
    requires ValidValue(v) && ValueAt(v, s, c) && Follow(s, c + ValueLen(v))
    ensures c < |s| && SkipBlank(s, c) == c
    ensures IntAt(s, c) == MemberInt(Elem("", Key([], "", ""), v, ""))
  {
    hide ValidNumber, At, NumLen, R.Value, Accumulate, StringAt, ElemsAt, ElemsLen, ValidElems;
    ValueOpens(v, s, c);
    if v.Number? {
      NumberRead(v.n, s, c);
    } else {
      NoDigits(s, c);
    }
  }

  lemma {:induction false} RawRead(cs: seq<StrChar>, s: string, i: nat)
    requires ValidChars(cs) && CharsAt(cs, s, i) && Is(s, i + CharsLen(cs), '"')
    ensures QuoteDistance(s, i) == RawLen(cs)
    decreases |cs|
  {
    if cs != [] && cs[0] != Escaped('"') {
      RawRead(cs[1..], s, i + CharLen(cs[0]));
      match cs[0] {
        case Plain(_) =>
        case Escaped(_) => assert QuoteDistance(s, i + 1) == 1 + QuoteDistance(s, i + 2);
        case Unicode(h) =>
          assert s[i + 2] == h[0] && s[i + 2 + 1] == h[1] && s[i + 2 + 2] == h[2] && s[i + 2 + 3] == h[3];
          assert QuoteDistance(s, i + 4) == 2 + QuoteDistance(s, i + 6);
          assert QuoteDistance(s, i + 2) == 2 + QuoteDistance(s, i + 4);
      }
    } else if cs != [] {
      assert QuoteDistance(s, i + 1) == 0;
    }
  }

  lemma IntFieldFound(s: string, k: string, r: Option<Elem>)
    requires Found(s, 0, |s|, k, false, r) && (r.Some? ==> r.value.key.Key? && r.value.key.before == "")
    ensures IntField(s, k) == match r case None => 0 case Some(e) => MemberInt(e)
  {
    hide Found, Find, IntAt, MemberInt, MemberAt;
    match r {
      case None => NotFound(s, k, false);
      case Some(e) =>
        var a := FoundFirst(s, k, false, e);
        IntRead(s, a, e);
    }
  }

  lemma StrLenFound(s: string, k: string, r: Option<Elem>)
    requires Found(s, 0, |s|, k, true, r)
    requires r.Some? ==> r.value.key.Key? && r.value.key.before == r.value.key.after == "" && r.value.value.Str?
    ensures StrLenField(s, k) == match r case None => 0 case Some(e) => MemberLen(e)
  {
    hide Found, Find, QuoteDistance, MemberAt, RawLen;
    match r {
      case None => NotFound(s, k, true);
      case Some(e) =>
        var a := FoundFirst(s, k, true, e);
        RawFieldRead(s, a, e);
    }
  }

  // The integer field of any object: 0 when no element matches, else what stands
  // at the first that does, at whatever depth.
  lemma IntFieldExactly(v: Value, k: string)
    requires ValidValue(v) && IsObject(v) && PlainName(k)
    ensures IntField(ValueText(v), k) == IntOf(v, k)
  {
    hide First, Found, ValueText, ValidValue, PlainName, IntField, MemberInt, StringText, EndsWith;
    FirstFound(v, ValueText(v), k, false);
    IntFieldFound(ValueText(v), k, First(v, k, false));
  }

  // The length of a string field: up to the first quote, escaped or not.
  lemma StrLenExactly(v: Value, k: string)
    requires ValidValue(v) && IsObject(v) && PlainName(k)
    ensures StrLenField(ValueText(v), k) == LenOf(v, k)
  {
    hide First, Found, ValueText, ValidValue, PlainName, StrLenField, MemberLen, StringText, EndsWith;
    FirstFound(v, ValueText(v), k, true);
    StrLenFound(ValueText(v), k, First(v, k, true));
  }

  lemma RawFieldRead(s: string, a: nat, e: Elem)
    requires MemberAt(s, a, e) && e.key.before == "" && e.key.after == "" && e.value.Str?
    ensures QuoteDistance(s, a + StringLen(e.key.name) + 2) == RawLen(e.value.chars)
  {
    hide QuoteDistance, RawLen, CharsAt, CharsLen, ValidChars;
    RawRead(e.value.chars, s, a + KeyLen(e.key) + 1);
  }

  // Without an escaped quote in the name, only the name itself will do.
  lemma EndsIsWhole(cs: seq<StrChar>, k: string)
    requires ValidChars(cs) && PlainName(k) && Escaped('"') !in cs
    ensures EndsWith(StringText(cs), Quoted(k)) <==> CharsText(cs) == k
  {
    hide ValidChars, CharsText, CharsAt, CharsLen;
    var t, n := StringText(cs), |k| + 2;
    CharsTextAt(cs, t, 1);
    StringTextAt(cs, t, 0);
    AtSlice(t, 0, t);
    assert t[0..|t|] == t;
    if EndsWith(t, Quoted(k)) {
      assert t[|t| - n] == Quoted(k)[0];
      if n < |t| {
        NoQuote(cs, t, 1);
        assert false;
      }
      assert t == Quoted(k) && t[1..|t| - 1] == CharsText(cs) && Quoted(k)[1..n - 1] == k;
    }
  }

  lemma {:induction false} NoQuote(cs: seq<StrChar>, s: string, i: nat)
    requires ValidChars(cs) && CharsAt(cs, s, i) && Escaped('"') !in cs
    ensures Quiet(s, i, i + CharsLen(cs))
    decreases |cs|
  {
    if cs != [] {
      NoQuote(cs[1..], s, i + CharLen(cs[0]));
      if cs[0].Unicode? {
        HexQuiet(cs[0].hex, s, i + 2);
      }
    }
  }

  // The whole program, read off the tree

  function TotalsOf(vs: seq<Value>): Totals {
    if vs == [] then Totals(0, 0, 0) else
    var before, v := TotalsOf(vs[..|vs| - 1]), vs[|vs| - 1];
    Totals(before.records + 1, before.sumIds + IntOf(v, "id"), before.sumNameLen + LenOf(v, "name"))
  }

  ghost predicate Objects(vs: seq<Value>) { forall k :: 0 <= k < |vs| ==> ValidValue(vs[k]) && IsObject(vs[k]) }

  lemma {:induction false} TotalsAre(vs: seq<Value>)
    requires Objects(vs)
    ensures TallyValues(vs) == TotalsOf(vs)
    decreases |vs|
  {
    hide IntField, StrLenField, ValueText, IntOf, LenOf, ValidValue, IsObject;
    if vs != [] {
      var n := |vs| - 1;
      TotalsAre(vs[..n]);
      IntFieldExactly(vs[n], "id");
      StrLenExactly(vs[n], "name");
    }
  }

  lemma {:induction false} ObjectsAmong(kind: Kind, es: Elems)
    requires ValidElems(kind, es)
    ensures Objects(ObjectElems(es))
  {
    hide ValidValue, ValidKey;
    if es.More? {
      ObjectsAmong(kind, es.rest);
    }
  }

  // On every document nested at most 129 deep the program answers the number of
  // objects directly inside, with what the first matches in each of them add up
  // to.
  lemma TotalsExactly(d: Document, r: Option<Totals>)
    requires ValidDocument(d) && Nesting(d.value) <= 129 && Answers(DocumentText(d), r)
    ensures r == Some(TotalsOf(DirectObjects(d.value)))
  {
    hide DocumentText, TallyValues, TotalsOf, ValidElems, ObjectElems;
    assert IsJsonText(DocumentText(d), 129);
    if d.value.Full? {
      ObjectsAmong(d.value.kind, d.value.elems);
    }
    TotalsAre(DirectObjects(d.value));
  }

  // The object's own member of that name.
  function Own(es: Elems, k: string): Option<Elem> {
    if es.e.key.Key? && CharsText(es.e.key.name) == k then Some(es.e)
    else if es.More? then Own(es.rest, k) else None
  }

  // Nothing before the member, inside its siblings' values included, is taken
  // for it, and its key is next to its colon, and to its string.
  predicate Clear(es: Elems, k: string, strs: bool) {
    if es.e.key.Key? && CharsText(es.e.key.name) == k
    then es.e.key.before == "" && (strs ==> es.e.key.after == "" && es.e.value.Str?)
    else FirstIn(es.e, k, strs).None? && (es.More? ==> Clear(es.rest, k, strs))
  }

  lemma {:induction false} ClearFindsOwn(es: Elems, k: string, strs: bool)
    requires Clear(es, k, strs)
    ensures FirstOf(es, k, strs) == Own(es, k)
  {
    hide First, CharsText;
    if !(es.e.key.Key? && CharsText(es.e.key.name) == k) && es.More? {
      ClearFindsOwn(es.rest, k, strs);
    }
  }

  // Then the fields are those of the object's own members.
  lemma FieldsAreOwn(es: Elems, k: string)
    requires ValidElems(ObjectKind, es) && PlainName(k)
    ensures Clear(es, k, false) ==>
      IntField(ValueText(Full(ObjectKind, es)), k) == match Own(es, k) case None => 0 case Some(e) => MemberInt(e)
    ensures Clear(es, k, true) ==>
      StrLenField(ValueText(Full(ObjectKind, es)), k) == match Own(es, k) case None => 0 case Some(e) => MemberLen(e)
  {
    hide ValueText, IntField, StrLenField, ValidElems, PlainName, Own, Clear, FirstOf, MemberInt, RawLen;
    var v := Full(ObjectKind, es);
    IntFieldExactly(v, k);
    StrLenExactly(v, k);
    if Clear(es, k, false) {
      ClearFindsOwn(es, k, false);
    }
    if Clear(es, k, true) {
      ClearFindsOwn(es, k, true);
    }
  }

  // A nested member comes first, and white space before the colon hides one.

  const ID := [Plain('i'), Plain('d')]

  function Id(before: string, digit: string): Elem {
    Elem("", Key(ID, before, ""), Number(NumberText(false, digit, "", "")), "")
  }

  // {"x":{"id":1},"id":2}
  const NESTED := More(Elem("", Key([Plain('x')], "", ""), Full(ObjectKind, One(Id("", "1"))), ""), One(Id("", "2")))

  lemma NestedComesFirst()
    ensures ValidElems(ObjectKind, NESTED) && IntField(ValueText(Full(ObjectKind, NESTED)), "id") == 1
    ensures Own(NESTED, "id") == Some(Id("", "2")) && MemberInt(Id("", "2")) == 2
  {
    NestedValid();
    DigitValues();
    NestedFirst();
    hide IntField, ValueText, R.Value, NESTED, First, ValidElems, Own;
    IntFieldExactly(Full(ObjectKind, NESTED), "id");
  }

  lemma NestedValid()
    ensures ValidElems(ObjectKind, NESTED)
  {
  }

  lemma DigitValues()
    ensures R.Value("1", 10) == 1 && R.Value("2", 10) == 2 && R.Value("5", 10) == 5
  {
    assert "1"[..0] == "" && "2"[..0] == "" && "5"[..0] == "";
  }

  lemma IdText()
    ensures CharsText(ID) == "id" && CharsText([Plain('x')]) == "x"
    ensures StringText(ID) == Quoted("id") && StringText([Plain('x')]) == ['"', 'x', '"']
  {
    assert ID[1..] == [Plain('d')] && ID[1..][1..] == [] && [Plain('x')][1..] == [];
  }

  lemma NestedFirst()
    ensures First(Full(ObjectKind, NESTED), "id", false) == Some(Id("", "1"))
    ensures Own(NESTED, "id") == Some(Id("", "2"))
  {
    IdText();
    hide StringText, CharsText, ID;
    assert !EndsWith(['"', 'x', '"'], Quoted("id"));
  }

  // {"id" :5}
  const SPACED := One(Id(" ", "5"))

  lemma SpaceHides()
    ensures ValidElems(ObjectKind, SPACED) && IntField(ValueText(Full(ObjectKind, SPACED)), "id") == 0
    ensures Own(SPACED, "id") == Some(SPACED.e) && MemberInt(SPACED.e) == 5
  {
    hide IntField, ValueText, R.Value;
    DigitValues();
    IdText();
    hide StringText, CharsText;
    IntFieldExactly(Full(ObjectKind, SPACED), "id");
  }
}
