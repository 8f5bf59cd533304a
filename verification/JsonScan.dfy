// Phase 2 of json_c.c: one pass that only counts brackets, and its agreement
// with the derivation tree that phase 1 found.
module JsonScan {
  import opened Text
  import opened JsonGrammar
  import opened JsonSpan

  datatype Span = Span(start: nat, end: nat)

  // What the pass has seen: the bracket depth and its lowest value so far, the
  // start of the record being read, the records and the strings it skipped.
  datatype Scan = Scan(depth: int, low: int, recStart: nat, records: seq<Span>, strings: seq<Span>)

  const START := Scan(0, 0, 0, [], [])

  // Where the inner loop over string contents stops.
  function StringStop(s: string, i: nat): (j: nat)
    ensures i <= j
    decreases if i < |s| then |s| - i else 0
  {
    if i < |s| && s[i] != '"' then StringStop(s, if s[i] == '\\' then i + 2 else i + 1) else i
  }

  function Descend(st: Scan): Scan {
    var depth := st.depth - 1;
    st.(depth := depth, low := if depth < st.low then depth else st.low)
  }

  // One round of the outer loop on a character other than a quote.
  function OnChar(c: char, i: nat, st: Scan): Scan {
    if c == '{' then st.(recStart := if st.depth == 1 then i else st.recStart, depth := st.depth + 1)
    else if c == '}' then
      var down := Descend(st);
      if down.depth == 1 then down.(records := st.records + [Span(st.recStart, i + 1)]) else down
    else if c == '[' then st.(depth := st.depth + 1)
    else if c == ']' then Descend(st)
    else st
  }

  // The whole pass from position i on.
  function Run(s: string, i: nat, st: Scan): Scan
    decreases if i < |s| then |s| - i else 0
  {
    if i >= |s| then st
    else if s[i] == '"' then
      var j := StringStop(s, i + 1) + 1;
      Run(s, j, st.(strings := st.strings + [Span(i, j)]))
    else Run(s, i + 1, OnChar(s[i], i, st))
  }

  // The same facts, read off the tree

  function KeyStrings(key: Key, i: nat): seq<Span> {
    if key.NoKey? then [] else [Span(i, i + StringLen(key.name))]
  }

  // The string tokens of a value that starts at i, keys included, in order.
  function ValueStrings(v: Value, i: nat): seq<Span> {
    match v
    case Str(cs) => [Span(i, i + StringLen(cs))]
    case Full(_, es) => ElemsStrings(es, i + 1)
    case _ => []
  }

  function ElemStrings(e: Elem, i: nat): seq<Span>
    decreases e
  {
    var a := i + |e.before|;
    KeyStrings(e.key, a) + ValueStrings(e.value, a + KeyLen(e.key))
  }

  function ElemsStrings(es: Elems, i: nat): seq<Span>
    decreases es
  {
    ElemStrings(es.e, i) + if es.More? then ElemsStrings(es.rest, i + ElemLen(es.e) + 1) else []
  }

  predicate IsObject(v: Value) { (v.Empty? || v.Full?) && v.kind == ObjectKind }

  function ValuePos(e: Elem, i: nat): nat { i + |e.before| + KeyLen(e.key) }

  // The spans of the objects that are elements of a container, in order.
  function ObjectSpans(es: Elems, i: nat): seq<Span> {
    var a := ValuePos(es.e, i);
    (if IsObject(es.e.value) then [Span(a, a + ValueLen(es.e.value))] else [])
    + if es.More? then ObjectSpans(es.rest, i + ElemLen(es.e) + 1) else []
  }

  // Those objects themselves.
  function ObjectElems(es: Elems): seq<Value> {
    (if IsObject(es.e.value) then [es.e.value] else [])
    + if es.More? then ObjectElems(es.rest) else []
  }

  function DirectObjects(v: Value): seq<Value> { if v.Full? then ObjectElems(v.elems) else [] }

  // Where the last object among the elements starts.
  function LastStart(es: Elems, i: nat, start: nat): nat {
    var here := if IsObject(es.e.value) then ValuePos(es.e, i) else start;
    if es.More? then LastStart(es.rest, i + ElemLen(es.e) + 1, here) else here
  }

  // The pass over a value that is nested `st.depth` deep.
  function Over(v: Value, i: nat, st: Scan): Scan {
    st.(strings := st.strings + ValueStrings(v, i),
        recStart := if st.depth == 1 && IsObject(v) then i
                    else if st.depth == 0 && v.Full? then LastStart(v.elems, i + 1, st.recStart)
                    else st.recStart,
        records := st.records + (if st.depth == 1 && IsObject(v) then [Span(i, i + ValueLen(v))]
                                 else if st.depth == 0 && v.Full? then ObjectSpans(v.elems, i + 1)
                                 else []))
  }

  // The pass over the elements of a container, `st.depth` deep.
  function OverElems(es: Elems, i: nat, st: Scan): Scan {
    st.(strings := st.strings + ElemsStrings(es, i),
        recStart := if st.depth == 1 then LastStart(es, i, st.recStart) else st.recStart,
        records := st.records + if st.depth == 1 then ObjectSpans(es, i) else [])
  }

  // Characters the pass steps over without a change.
  ghost predicate Inert(w: string) {
    forall k :: 0 <= k < |w| ==> w[k] !in {'{', '}', '[', ']', '"'}
  }

  lemma {:induction false} RunInert(s: string, i: nat, w: string, st: Scan)
    requires At(s, i, w) && Inert(w)
    ensures Run(s, i, st) == Run(s, i + |w|, st)
    decreases |w|
  {
    if w != "" {
      assert s[i + 0] == w[0];
      forall k | 0 <= k < |w[1..]| ensures s[i + 1 + k] == w[1..][k] {
        assert s[i + (k + 1)] == w[k + 1];
      }
      RunInert(s, i + 1, w[1..], st);
    }
  }

  lemma {:induction false} StringStopExact(cs: seq<StrChar>, s: string, i: nat)
    requires ValidChars(cs) && CharsAt(cs, s, i) && Is(s, i + CharsLen(cs), '"')
    ensures StringStop(s, i) == i + CharsLen(cs)
    decreases |cs|
  {
    if cs != [] {
      StringStopExact(cs[1..], s, i + CharLen(cs[0]));
      if cs[0].Unicode? {
        var h := cs[0].hex;
        assert s[i + 2] == h[0] && s[i + 2 + 1] == h[1] && s[i + 2 + 2] == h[2] && s[i + 2 + 3] == h[3];
        assert StringStop(s, i + 5) == StringStop(s, i + 6);
        assert StringStop(s, i + 3) == StringStop(s, i + 4) == StringStop(s, i + 5);
      }
    }
  }

  lemma RunString(cs: seq<StrChar>, s: string, i: nat, st: Scan)
    requires ValidChars(cs) && StringAt(cs, s, i)
    ensures Run(s, i, st)
         == Run(s, i + StringLen(cs), st.(strings := st.strings + [Span(i, i + StringLen(cs))]))
  {
    StringStopExact(cs, s, i + 1);
  }

  lemma RunKey(key: Key, kind: Kind, s: string, i: nat, st: Scan)
    requires ValidKey(kind, key) && KeyAt(key, s, i)
    ensures Run(s, i, st) == Run(s, i + KeyLen(key), st.(strings := st.strings + KeyStrings(key, i)))
  {
    hide At, StringAt;
    if key.Key? {
      var a := i + StringLen(key.name);
      var st' := st.(strings := st.strings + KeyStrings(key, i));
      RunString(key.name, s, i, st);
      RunInert(s, a, key.before, st');
      assert Run(s, a + |key.before|, st') == Run(s, a + |key.before| + 1, st');
      RunInert(s, a + |key.before| + 1, key.after, st');
    } else {
      assert st == st.(strings := st.strings + []);
    }
  }

  lemma RunNumber(n: NumberText, s: string, i: nat, st: Scan)
    requires ValidNumber(n) && NumAt(n, s, i)
    ensures Run(s, i, st) == Run(s, i + NumLen(n), st)
  {
    var a := if n.minus then i + 1 else i;
    assert Inert(n.frac) by {
      forall k | 1 <= k < |n.frac| ensures IsDigit(n.frac[k]) { assert n.frac[1..][k - 1] == n.frac[k]; }
    }
    assert Inert(n.exp) by {
      forall k | 2 <= k < |n.exp| ensures IsDigit(n.exp[k]) {
        assert AllDigits(n.exp[1..]) ==> n.exp[1..][k - 1] == n.exp[k];
        assert n.exp[2..][k - 2] == n.exp[k];
      }
      assert |n.exp| >= 2 && AllDigits(n.exp[1..]) ==> n.exp[1..][0] == n.exp[1];
    }
    hide At, Inert;
    RunInert(s, a, n.whole, st);
    RunInert(s, a + |n.whole|, n.frac, st);
    RunInert(s, a + |n.whole| + |n.frac|, n.exp, st);
  }

  // Going in and out of brackets around a text that the pass reads as `inner`.
  lemma RunBrackets(kind: Kind, s: string, i: nat, j: nat, st: Scan, inner: Scan)
    requires Is(s, i, Open(kind)) && i < j && Is(s, j, Close(kind)) && st.low <= st.depth
    requires inner.depth == st.depth + 1 && inner.low == st.low
    requires Run(s, i + 1, st.(depth := st.depth + 1,
                               recStart := if kind == ObjectKind && st.depth == 1 then i else st.recStart))
          == Run(s, j, inner)
    ensures Run(s, i, st)
         == Run(s, j + 1, inner.(depth := st.depth,
                                 records := if kind == ObjectKind && st.depth == 1
                                            then inner.records + [Span(inner.recStart, j + 1)] else inner.records))
  {
  }

  // The pass over a value leaves the depth as it was, and never goes below it.
  lemma {:induction false} RunValue(v: Value, s: string, i: nat, st: Scan)
    requires ValidValue(v) && ValueAt(v, s, i) && 0 <= st.depth && st.low <= st.depth
    ensures Run(s, i, st) == Run(s, i + ValueLen(v), Over(v, i, st))
    decreases v, 0
  {
    match v {
      case Literal(w) =>
        RunInert(s, i, w, st);
        assert Over(v, i, st) == st;
      case Number(n) =>
        RunNumber(n, s, i, st);
        assert Over(v, i, st) == st;
      case Str(cs) =>
        RunString(cs, s, i, st);
        assert Over(v, i, st) == st.(strings := st.strings + ValueStrings(v, i));
      case Empty(kind, ws) => RunEmpty(kind, ws, s, i, st);
      case Full(kind, es) => RunFull(kind, es, s, i, st);
    }
  }

  function Inside(kind: Kind, i: nat, st: Scan): Scan {
    st.(depth := st.depth + 1, recStart := if kind == ObjectKind && st.depth == 1 then i else st.recStart)
  }

  lemma RunEmpty(kind: Kind, ws: string, s: string, i: nat, st: Scan)
    requires AllWs(ws) && ValueAt(Empty(kind, ws), s, i) && 0 <= st.depth && st.low <= st.depth
    ensures Run(s, i, st) == Run(s, i + |ws| + 2, Over(Empty(kind, ws), i, st))
  {
    hide At;
    var inner := Inside(kind, i, st);
    RunInert(s, i + 1, ws, inner);
    RunBrackets(kind, s, i, i + 1 + |ws|, st, inner);
    assert st.strings + [] == st.strings && st.records + [] == st.records;
  }

  lemma {:induction false} RunFull(kind: Kind, es: Elems, s: string, i: nat, st: Scan)
    requires ValidElems(kind, es) && ValueAt(Full(kind, es), s, i) && 0 <= st.depth && st.low <= st.depth
    ensures Run(s, i, st) == Run(s, i + ElemsLen(es) + 2, Over(Full(kind, es), i, st))
    decreases es, 1
  {
    hide ElemsAt, ElemsLen, ElemsStrings, ObjectSpans, LastStart, ValidElems;
    var inner := OverElems(es, i + 1, Inside(kind, i, st));
    RunElems(kind, es, s, i + 1, Inside(kind, i, st));
    RunBrackets(kind, s, i, i + 1 + ElemsLen(es), st, inner);
    assert st.records + [] == st.records;
  }

  lemma {:induction false} RunElem(kind: Kind, e: Elem, s: string, i: nat, st: Scan)
    requires ValidElem(kind, e) && ElemAt(e, s, i) && 0 <= st.depth && st.low <= st.depth
    ensures Run(s, i, st)
         == Run(s, i + ElemLen(e), Over(e.value, ValuePos(e, i),
             st.(strings := st.strings + KeyStrings(e.key, i + |e.before|))))
    decreases e
  {
    hide At, KeyAt, ValueAt, ValidKey, ValidValue, KeyLen, ValueLen, ValueStrings, KeyStrings, LastStart, ObjectSpans;
    var a := i + |e.before|;
    var b := a + KeyLen(e.key);
    var st' := st.(strings := st.strings + KeyStrings(e.key, a));
    RunInert(s, i, e.before, st);
    RunKey(e.key, kind, s, a, st);
    RunValue(e.value, s, b, st');
    RunInert(s, b + ValueLen(e.value), e.after, Over(e.value, b, st'));
  }

  lemma OverLevel(v: Value, i: nat, st: Scan)
    ensures Over(v, i, st).depth == st.depth && Over(v, i, st).low == st.low
  {
  }

  lemma RunComma(s: string, i: nat, st: Scan)
    requires Is(s, i, ',')
    ensures Run(s, i, st) == Run(s, i + 1, st)
  {
  }

  // Inside a container, deeper than the top.
  lemma {:induction false} RunElems(kind: Kind, es: Elems, s: string, i: nat, st: Scan)
    requires ValidElems(kind, es) && ElemsAt(es, s, i) && 0 < st.depth && st.low <= st.depth
    ensures Run(s, i, st) == Run(s, i + ElemsLen(es), OverElems(es, i, st))
    decreases es, 0
  {
    hide ElemAt, ValidElem, ElemLen, ValueStrings, KeyStrings, KeyLen, ValueLen, Run, Over, OverElems;
    var e := es.e;
    var a := i + |e.before|;
    var mid := Over(e.value, ValuePos(e, i), st.(strings := st.strings + KeyStrings(e.key, a)));
    RunElem(kind, e, s, i, st);
    OverLevel(e.value, ValuePos(e, i), st.(strings := st.strings + KeyStrings(e.key, a)));
    OverJoin(es, i, st, mid);
    if es.More? {
      var j := i + ElemLen(e);
      RunComma(s, j, mid);
      RunElems(kind, es.rest, s, j + 1, mid);
    }
  }

  lemma Regroup<T>(a: seq<T>, b: seq<T>, c: seq<T>)
    ensures a + b + c == a + (b + c)
    ensures a + (b + []) == a + b
    ensures a + [] == a && [] + b == b
  {
  }

  // The first element and the rest, one after the other: in the strings,
  lemma StringsJoin(es: Elems, i: nat, before: seq<Span>)
    ensures before + ElemsStrings(es, i)
         == before + KeyStrings(es.e.key, i + |es.e.before|) + ValueStrings(es.e.value, ValuePos(es.e, i))
            + if es.More? then ElemsStrings(es.rest, i + ElemLen(es.e) + 1) else []
  {
    hide ElemLen, ValueStrings, KeyStrings, KeyLen;
    var keys, values := KeyStrings(es.e.key, i + |es.e.before|), ValueStrings(es.e.value, ValuePos(es.e, i));
    var rest := if es.More? then ElemsStrings(es.rest, i + ElemLen(es.e) + 1) else [];
    assert ElemsStrings(es, i) == keys + values + rest;
    hide ElemsStrings;
    Regroup(before, keys, values);
    Regroup(before, keys + values, rest);
  }

  // in the records,
  lemma SpansJoin(es: Elems, i: nat, before: seq<Span>)
    ensures var a := ValuePos(es.e, i);
            var here := if IsObject(es.e.value) then [Span(a, a + ValueLen(es.e.value))] else [];
            var rest := if es.More? then ObjectSpans(es.rest, i + ElemLen(es.e) + 1) else [];
            before + ObjectSpans(es, i) == before + here + rest
  {
    hide ElemLen, ValueLen, KeyLen, IsObject;
    var a := ValuePos(es.e, i);
    var here := if IsObject(es.e.value) then [Span(a, a + ValueLen(es.e.value))] else [];
    var rest := if es.More? then ObjectSpans(es.rest, i + ElemLen(es.e) + 1) else [];
    assert ObjectSpans(es, i) == here + rest;
    hide ObjectSpans;
    Regroup(before, here, rest);
  }

  // in where the last object starts,
  lemma StartJoins(es: Elems, i: nat, start: nat)
    ensures var here := if IsObject(es.e.value) then ValuePos(es.e, i) else start;
            LastStart(es, i, start) == if es.More? then LastStart(es.rest, i + ElemLen(es.e) + 1, here) else here
  {
  }

  // and so in the whole pass.
  lemma OverJoin(es: Elems, i: nat, st: Scan, mid: Scan)
    requires 0 < st.depth
    requires mid == Over(es.e.value, ValuePos(es.e, i),
             st.(strings := st.strings + KeyStrings(es.e.key, i + |es.e.before|)))
    ensures OverElems(es, i, st)
         == if es.More? then OverElems(es.rest, i + ElemLen(es.e) + 1, mid) else mid
  {
    StringsJoin(es, i, st.strings);
    SpansJoin(es, i, st.records);
    StartJoins(es, i, st.recStart);
    hide ElemLen, ValueStrings, KeyStrings, ValueLen, ValuePos, ElemsStrings, ObjectSpans, LastStart, IsObject;
    if st.depth == 1 {
      assert mid.depth == 1;
      if !es.More? {
        Regroup(mid.strings, [], []);
        Regroup(mid.records, [], []);
      }
    } else {
      Regroup(st.records, [], []);
      if !es.More? {
        Regroup(mid.strings, [], []);
      }
    }
  }

  // The span holds the text of the value.
  ghost predicate Spans(s: string, r: Span, v: Value) {
    r.start <= r.end <= |s| && s[r.start..r.end] == ValueText(v)
  }

  lemma ValueSpan(v: Value, s: string, a: nat)
    requires ValueAt(v, s, a)
    ensures Spans(s, Span(a, a + ValueLen(v)), v)
  {
    hide ValueAt, ValueLen, ValueText;
    ValueTextAt(v, s, a);
    AtSlice(s, a, ValueText(v));
  }

  // One span for each value, in order.
  ghost predicate AllSpan(s: string, rs: seq<Span>, vs: seq<Value>) {
    |rs| == |vs| && forall k :: 0 <= k < |vs| ==> Spans(s, rs[k], vs[k])
  }

  lemma AllSpanConcat(s: string, rs: seq<Span>, vs: seq<Value>, rs': seq<Span>, vs': seq<Value>)
    requires AllSpan(s, rs, vs) && AllSpan(s, rs', vs')
    ensures AllSpan(s, rs + rs', vs + vs')
  {
    hide Spans;
  }

  lemma OneSpan(s: string, r: Span, v: Value)
    ensures AllSpan(s, [], []) && (Spans(s, r, v) ==> AllSpan(s, [r], [v]))
  {
    hide Spans;
  }

  // Every record is the text of its object, and there is one for each.
  lemma {:induction false} SpansAreObjects(es: Elems, s: string, i: nat)
    requires ElemsAt(es, s, i)
    ensures AllSpan(s, ObjectSpans(es, i), ObjectElems(es))
    decreases es
  {
    hide KeyAt, KeyLen, ElemLen, ValueAt, ValueLen, At, Spans, AllSpan, IsObject;
    var v, a := es.e.value, ValuePos(es.e, i);
    var r := Span(a, a + ValueLen(v));
    ValueSpan(v, s, a);
    OneSpan(s, r, v);
    var rs, vs := if IsObject(v) then [r] else [], if IsObject(v) then [v] else [];
    if es.More? {
      var j := i + ElemLen(es.e) + 1;
      SpansAreObjects(es.rest, s, j);
      AllSpanConcat(s, rs, vs, ObjectSpans(es.rest, j), ObjectElems(es.rest));
    } else {
      AllSpanConcat(s, rs, vs, [], []);
    }
  }

  // On every JSON text, of any nesting: the depth is never negative and ends at
  // zero, the strings skipped are the string tokens, and the records are the
  // objects directly inside the top-level container, each with its exact text.
  lemma ScanAgrees(d: Document, s: string)
    requires ValidDocument(d) && DocumentAt(d, s)
    ensures var end, top := Run(s, 0, START), DirectObjects(d.value);
            end.depth == 0 && end.low == 0
            && end.strings == ValueStrings(d.value, |d.before|)
            && end.records == (if d.value.Full? then ObjectSpans(d.value.elems, |d.before| + 1) else [])
            && AllSpan(s, end.records, top)
  {
    hide At, ValueText, ValidElems, ElemsStrings, ElemsLen, ObjectSpans, ObjectElems, LastStart;
    var v, a := d.value, |d.before|;
    RunInert(s, 0, d.before, START);
    RunValue(v, s, a, START);
    RunInert(s, a + ValueLen(v), d.after, Over(v, a, START));
    if v.Full? {
      SpansAreObjects(v.elems, s, a + 1);
      Regroup(START.records, ObjectSpans(v.elems, a + 1), []);
    }
    Regroup(START.strings, ValueStrings(v, a), []);
  }
}
