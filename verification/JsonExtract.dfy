// The field extraction of json_c.c and its whole run: validate, then scan.
module JsonExtract {
  import opened Text
  import opened JsonGrammar
  import opened JsonSpan
  import opened JsonScan
  import opened JsonReader
  import R = Radix

  // What is read out of one record

  lemma StandsSlice(src: string, start: nat, end: nat, p: nat, pat: string)
    requires start <= p && p + |pat| <= end <= |src|
    ensures Stands(src, p, pat) <==> Stands(src[start..end], p - start, pat)
  {
    var rec, a := src[start..end], p - start;
    assert forall k :: p <= k < p + |pat| ==> src[k] == rec[k - start];
    assert rec[a..a + |pat|] == src[p..p + |pat|];
  }

  function SkipBlank(rec: string, v: nat): (r: nat)
    requires v <= |rec|
    ensures v <= r <= |rec|
    decreases |rec| - v
  {
    if v < |rec| && (rec[v] == ' ' || rec[v] == '\t') then SkipBlank(rec, v + 1) else v
  }

  function Accumulate(rec: string, v: nat, acc: int): int
    decreases |rec| - v
  {
    if v < |rec| && IsDigit(rec[v]) then Accumulate(rec, v + 1, acc * 10 + R.DigitValue(rec[v])) else acc
  }

  function QuoteDistance(rec: string, v: nat): nat
    decreases |rec| - v
  {
    if v < |rec| && rec[v] != '"' then 1 + QuoteDistance(rec, v + 1) else 0
  }

  function IntPattern(key: string): string { "\"" + key + "\":" }

  function StrPattern(key: string): string { "\"" + key + "\":\"" }

  function IntAt(rec: string, v: nat): int
    requires v <= |rec|
  {
    var w := SkipBlank(rec, v);
    if w < |rec| && rec[w] == '-' then -Accumulate(rec, w + 1, 0) else Accumulate(rec, w, 0)
  }

  // The integer after the first `"key":` of a record, 0 without one.
  function IntField(rec: string, key: string): int {
    match Find(rec, IntPattern(key), 0)
    case None => 0
    case Some(p) => IntAt(rec, p + |IntPattern(key)|)
  }

  // The distance to the next quote after the first `"key":"` of a record.
  function StrLenField(rec: string, key: string): nat {
    match Find(rec, StrPattern(key), 0)
    case None => 0
    case Some(p) => QuoteDistance(rec, p + |StrPattern(key)|)
  }

  // The digits after a match, in the record src[start..end].
  method ReadInt(src: string, start: nat, end: nat, from: nat) returns (n: int)
    requires start <= from <= end <= |src|
    ensures n == IntAt(src[start..end], from - start)
  {
    ghost var rec := src[start..end];
    var v := from;
    while v < end && (src[v] == ' ' || src[v] == '\t')
      invariant from <= v <= end
      invariant SkipBlank(rec, v - start) == SkipBlank(rec, from - start)
    {
      v := v + 1;
    }
    var neg := v < end && src[v] == '-';
    if neg {
      v := v + 1;
    }
    var acc := 0;
    ghost var first := v;
    while v < end && '0' <= src[v] <= '9'
      invariant first <= v <= end
      invariant Accumulate(rec, v - start, acc) == Accumulate(rec, first - start, 0)
    {
      acc := acc * 10 + (src[v] as int - '0' as int);
      v := v + 1;
    }
    return if neg then -acc else acc;
  }

  lemma NoRoom(rec: string, pat: string, p: nat)
    requires p + |pat| > |rec|
    ensures Find(rec, pat, p).None?
  {
  }

  method ExtractInt(src: string, start: nat, end: nat, key: string) returns (n: int)
    requires start <= end <= |src|
    ensures n == IntField(src[start..end], key)
  {
    hide Stands, IntAt, IntPattern;
    var pat := IntPattern(key);
    ghost var rec := src[start..end];
    var p := start;
    while p + |pat| <= end
      invariant start <= p <= end + 1
      invariant p <= end ==> Find(rec, pat, p - start) == Find(rec, pat, 0)
      invariant p > end ==> Find(rec, pat, 0).None?
      decreases end + 1 - p
    {
      StandsSlice(src, start, end, p, pat);
      if Stands(src, p, pat) {
        n := ReadInt(src, start, end, p + |pat|);
        return;
      }
      p := p + 1;
    }
    NoRoom(rec, pat, p - start);
    return 0;
  }

  method ExtractStrLen(src: string, start: nat, end: nat, key: string) returns (n: nat)
    requires start <= end <= |src|
    ensures n == StrLenField(src[start..end], key)
  {
    hide Stands, StrPattern;
    var pat := StrPattern(key);
    ghost var rec := src[start..end];
    var p := start;
    while p + |pat| <= end
      invariant start <= p <= end + 1
      invariant p <= end ==> Find(rec, pat, p - start) == Find(rec, pat, 0)
      invariant p > end ==> Find(rec, pat, 0).None?
      decreases end + 1 - p
    {
      StandsSlice(src, start, end, p, pat);
      if Stands(src, p, pat) {
        n := 0;
        var v := p + |pat|;
        while v < end && src[v] != '"'
          invariant p + |pat| <= v <= end
          invariant n + QuoteDistance(rec, v - start) == QuoteDistance(rec, p + |pat| - start)
        {
          v := v + 1;
          n := n + 1;
        }
        return n;
      }
      p := p + 1;
    }
    NoRoom(rec, pat, p - start);
    return 0;
  }

  // The whole run

  datatype Totals = Totals(records: nat, sumIds: int, sumNameLen: nat)

  // The totals over the records of a scan, in order.
  function Tally(s: string, spans: seq<Span>): Totals
    requires forall r :: r in spans ==> r.start <= r.end <= |s|
  {
    if spans == [] then Totals(0, 0, 0) else
    var n, last := |spans| - 1, spans[|spans| - 1];
    var before := Tally(s, spans[..n]);
    var rec := s[last.start..last.end];
    Totals(before.records + 1, before.sumIds + IntField(rec, "id"), before.sumNameLen + StrLenField(rec, "name"))
  }

  ghost predicate InRange(s: string, st: Scan) {
    forall r :: r in st.records ==> r.start <= r.end <= |s|
  }

  // The inner loop of the scan, over the contents of a string.
  method SkipString(src: string, from: nat) returns (i: nat)
    ensures i == StringStop(src, from)
  {
    i := from;
    while i < |src| && src[i] != '"'
      invariant from <= i
      invariant StringStop(src, i) == StringStop(src, from)
      decreases |src| - i
    {
      if src[i] == '\\' {
        i := i + 1;
      }
      i := i + 1;
    }
  }

  // Phase 2 of main.
  method ScanRecords(src: string) returns (t: Totals)
    ensures InRange(src, Run(src, 0, START))
    ensures t == Tally(src, Run(src, 0, START).records)
  {
    hide StringStop, IntField, StrLenField, Tally, InRange;
    var sumIds, sumNameLen, records := 0, 0, 0;
    var i, depth, recStart := 0, 0, 0;
    ghost var st := START;
    StartTally(src);
    while i < |src|
      invariant Run(src, i, st) == Run(src, 0, START)
      invariant st.depth == depth && st.recStart == recStart <= i
      invariant InRange(src, st) && Counted(src, st, Totals(records, sumIds, sumNameLen))
      decreases |src| - i
    {
      var c := src[i];
      if c == '{' {
        if depth == 1 {
          recStart := i;
        }
        depth := depth + 1;
        KeepTally(src, st, OnChar(c, i, st));
        st := OnChar(c, i, st);
      } else if c == '}' {
        depth := depth - 1;
        if depth == 1 {
          var id := ExtractInt(src, recStart, i + 1, "id");
          var len := ExtractStrLen(src, recStart, i + 1, "name");
          CloseTally(src, st, i, Totals(records, sumIds, sumNameLen));
          sumIds := sumIds + id;
          sumNameLen := sumNameLen + len;
          records := records + 1;
        } else {
          KeepTally(src, st, OnChar(c, i, st));
        }
        st := OnChar(c, i, st);
      } else if c == '[' {
        depth := depth + 1;
        KeepTally(src, st, OnChar(c, i, st));
        st := OnChar(c, i, st);
      } else if c == ']' {
        depth := depth - 1;
        KeepTally(src, st, OnChar(c, i, st));
        st := OnChar(c, i, st);
      } else if c == '"' {
        var stop := SkipString(src, i + 1);
        ghost var next := st.(strings := st.strings + [Span(i, stop + 1)]);
        KeepTally(src, st, next);
        i, st := stop, next;
      }
      i := i + 1;
    }
    t := Totals(records, sumIds, sumNameLen);
    EndTally(src, st, t);
  }

  ghost predicate Counted(s: string, st: Scan, t: Totals)
    requires InRange(s, st)
  {
    Tally(s, st.records) == t
  }

  lemma StartTally(s: string)
    ensures InRange(s, START) && Counted(s, START, Totals(0, 0, 0))
  {
  }

  lemma KeepTally(s: string, st: Scan, next: Scan)
    requires InRange(s, st) && next.records == st.records
    ensures InRange(s, next) && forall t :: Counted(s, st, t) ==> Counted(s, next, t)
  {
  }

  lemma CloseTally(s: string, st: Scan, i: nat, t: Totals)
    requires InRange(s, st) && Counted(s, st, t) && st.depth == 2 && st.recStart <= i < |s|
    ensures var next, rec := OnChar('}', i, st), s[st.recStart..i + 1];
            InRange(s, next)
            && Counted(s, next, Totals(t.records + 1, t.sumIds + IntField(rec, "id"),
                                       t.sumNameLen + StrLenField(rec, "name")))
  {
  }

  lemma EndTally(s: string, st: Scan, t: Totals)
    requires InRange(s, st) && Counted(s, st, t)
    ensures (forall r :: r in st.records ==> r.start <= r.end <= |s|) && Tally(s, st.records) == t
  {
  }

  // The same totals over the objects of a tree.
  function TallyValues(vs: seq<Value>): Totals {
    if vs == [] then Totals(0, 0, 0) else
    var n := |vs| - 1;
    var before, rec := TallyValues(vs[..n]), ValueText(vs[n]);
    Totals(before.records + 1, before.sumIds + IntField(rec, "id"), before.sumNameLen + StrLenField(rec, "name"))
  }

  lemma {:induction false} TallyTree(s: string, spans: seq<Span>, vs: seq<Value>)
    requires AllSpan(s, spans, vs)
    ensures forall r :: r in spans ==> r.start <= r.end <= |s|
    ensures Tally(s, spans) == TallyValues(vs)
    decreases |vs|
  {
    hide IntField, StrLenField, ValueText;
    if vs != [] {
      TallyTree(s, spans[..|spans| - 1], vs[..|vs| - 1]);
    }
  }

  // What the program answers; None stands for exit code 1. A text is processed
  // exactly when it is a JSON text nested at most 129 deep, and then the totals
  // are taken over the objects directly inside its top-level container.
  ghost predicate Answers(src: string, r: Option<Totals>) {
    && (r.Some? <==> IsJsonText(src, 129))
    && (r.Some? ==> forall d: Document {:trigger DocumentText(d)} ::
         ValidDocument(d) && DocumentText(d) == src ==> r.value == TallyValues(DirectObjects(d.value)))
  }

  method Process(src: string) returns (r: Option<Totals>)
    ensures Answers(src, r)
  {
    hide IsJsonText, ValidDocument, DocumentText, DirectObjects, TallyValues, Tally;
    var reader := new Reader(src);
    var v := reader.Validate();
    if !v.Accepted? {
      return None;
    }
    var t := ScanRecords(src);
    forall d: Document | ValidDocument(d) && DocumentText(d) == src
      ensures t == TallyValues(DirectObjects(d.value))
    {
      DocumentTextAt(d, src);
      ScanAgrees(d, src);
      TallyTree(src, Run(src, 0, START).records, DirectObjects(d.value));
    }
    return Some(t);
  }
}
