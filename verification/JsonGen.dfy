// gen_json.py: the generated workload, and what the C program makes of it.
module JsonGen {
  import opened Text
  import opened JsonGrammar
  import opened JsonExtract
  import opened JsonFields
  import opened JsonScan
  import R = Radix

  // The parts with commas between them.
  function Join(parts: seq<string>): string {
    if |parts| == 0 then "" else if |parts| == 1 then parts[0] else parts[0] + [','] + Join(parts[1..])
  }

  // json.dumps with separators (",", ":")

  function Member(name: string, value: string): string { Quoted(name) + [':'] + value }

  // The number of a user, padded to eight digits.
  function Pad8(k: nat): string { R.PadStart(R.Dec(k), 8) }

  function Name(k: nat): string { "user_" + Pad8(k) }

  // repr of (k % 1000) / 8.0, which is exact
  function Eighths(r: nat): string {
    match r
    case 0 => ".0" case 1 => ".125" case 2 => ".25" case 3 => ".375"
    case 4 => ".5" case 5 => ".625" case 6 => ".75" case _ => ".875"
  }

  function Score(k: nat): string { R.Dec(k % 1000 / 8) + Eighths(k % 1000 % 8) }

  function Active(k: nat): string { if k % 2 == 0 then "true" else "false" }

  function Tags(k: nat): seq<string> { ["t" + R.Dec(k % 17), "x" + R.Dec(k % 6)] }

  function TagsText(k: nat): string { ['['] + Join([Quoted(Tags(k)[0]), Quoted(Tags(k)[1])]) + [']'] }

  function Members(k: nat): seq<string> {
    [Member("id", R.Dec(k)),
     Member("name", Quoted(Name(k))),
     Member("score", Score(k)),
     Member("active", Active(k)),
     Member("tags", TagsText(k))]
  }

  function RecordText(k: nat): string { ['{'] + Join(Members(k)) + ['}'] }

  function Records(n: nat): seq<string> { seq(n, (k: nat) => RecordText(k)) }

  function DocText(n: nat): string { ['['] + Join(Records(n)) + [']'] }

  // The loop of main: records are added until the bytes counted for them reach
  // the target.
  function Bytes(n: nat): nat { if n == 0 then 0 else Bytes(n - 1) + |RecordText(n - 1)| + 1 }

  // Those bytes are the document's, but for its last bracket.
  lemma {:induction false} DocLength(n: nat)
    ensures |DocText(n)| == if n == 0 then 2 else Bytes(n) + 1
  {
    hide RecordText;
    JoinLength(Records(n));
    LengthsAre(n);
  }

  function Lengths(parts: seq<string>): nat { if parts == [] then 0 else |parts[0]| + 1 + Lengths(parts[1..]) }

  lemma {:induction false} JoinLength(parts: seq<string>)
    ensures parts != [] ==> |Join(parts)| + 1 == Lengths(parts)
    ensures parts == [] ==> Join(parts) == ""
    decreases |parts|
  {
    if |parts| > 1 {
      JoinLength(parts[1..]);
    }
  }

  lemma {:induction false} LengthsPush(parts: seq<string>, last: string)
    ensures Lengths(parts + [last]) == Lengths(parts) + |last| + 1
    decreases |parts|
  {
    if parts == [] {
      assert parts + [last] == [last] && [last][1..] == [];
    } else {
      assert (parts + [last])[1..] == parts[1..] + [last];
      LengthsPush(parts[1..], last);
    }
  }

  lemma {:induction false} LengthsAre(n: nat)
    ensures Lengths(Records(n)) == Bytes(n)
  {
    hide RecordText;
    if n > 0 {
      LengthsAre(n - 1);
      assert Records(n) == Records(n - 1) + [RecordText(n - 1)];
      LengthsPush(Records(n - 1), RecordText(n - 1));
    }
  }

  method Generate(target: real) returns (doc: string, count: nat)
    ensures doc == DocText(count)
    ensures Bytes(count) as real >= target
    ensures forall m: nat :: m < count ==> (Bytes(m) as real) < target
  {
    hide RecordText;
    var parts: seq<string>, total, k := [], 0, 0;
    while (total as real) < target
      invariant parts == Records(k) && total == Bytes(k) && k <= total
      invariant forall m: nat :: m < k ==> (Bytes(m) as real) < target
      decreases target.Floor + 1 - total
    {
      var s := RecordText(k);
      parts := parts + [s];
      total := total + |s| + 1;
      k := k + 1;
    }
    doc := ['['] + Join(parts) + [']'];
    count := k;
  }

  // The derivation tree of the document

  function PlainChars(s: string): seq<StrChar> { seq(|s|, i requires 0 <= i < |s| => Plain(s[i])) }

  function ToElems(es: seq<Elem>): Elems
    requires |es| > 0
  {
    if |es| == 1 then One(es[0]) else More(es[0], ToElems(es[1..]))
  }

  function Item(v: Value): Elem { Elem("", NoKey, v, "") }

  function Field(name: string, v: Value): Elem { Elem("", Key(PlainChars(name), "", ""), v, "") }

  function Whole(n: nat, frac: string): Value { Number(NumberText(false, R.Dec(n), frac, "")) }

  function TagsTree(k: nat): Value {
    Full(ArrayKind, ToElems([Item(Str(PlainChars(Tags(k)[0]))), Item(Str(PlainChars(Tags(k)[1])))]))
  }

  function Fields(k: nat): seq<Elem> {
    [Field("id", Whole(k, "")),
     Field("name", Str(PlainChars(Name(k)))),
     Field("score", Whole(k % 1000 / 8, Eighths(k % 1000 % 8))),
     Field("active", Literal(Active(k))),
     Field("tags", TagsTree(k))]
  }

  function RecordTree(k: nat): Value { Full(ObjectKind, ToElems(Fields(k))) }

  function RecordTrees(n: nat): seq<Value> { seq(n, (k: nat) => RecordTree(k)) }

  function DocTree(n: nat): Document {
    var records := seq(n, (k: nat) => Item(RecordTree(k)));
    Document("", if n == 0 then Empty(ArrayKind, "") else Full(ArrayKind, ToElems(records)), "")
  }

  ghost predicate PlainText(s: string) {
    forall k :: 0 <= k < |s| ==> s[k] >= ' ' && s[k] != '"' && s[k] != '\\'
  }

  lemma {:induction false} PlainCharsText(s: string)
    ensures CharsText(PlainChars(s)) == s
  {
    if s != "" {
      PlainCharsText(s[1..]);
      assert PlainChars(s)[1..] == PlainChars(s[1..]);
      assert PlainChars(s)[0] == Plain(s[0]);
    }
  }

  lemma QuoteText(s: string)
    requires PlainText(s)
    ensures ValidChars(PlainChars(s)) && StringText(PlainChars(s)) == Quoted(s)
  {
    PlainCharsText(s);
  }

  lemma {:induction false} ElemsJoin(es: seq<Elem>, kind: Kind, parts: seq<string>)
    requires |es| == |parts| > 0
    requires forall k :: 0 <= k < |es| ==> ValidElem(kind, es[k]) && ElemText(es[k]) == parts[k]
    ensures ValidElems(kind, ToElems(es)) && ElemsText(ToElems(es)) == Join(parts)
    decreases |es|
  {
    hide ValidElem, ElemText;
    if |es| > 1 {
      ElemsJoin(es[1..], kind, parts[1..]);
    }
  }

  lemma {:induction false} ElemsNesting(es: seq<Elem>, bound: nat)
    requires |es| > 0 && forall k :: 0 <= k < |es| ==> Nesting(es[k].value) <= bound
    ensures NestingElems(ToElems(es)) <= bound
    decreases |es|
  {
    if |es| > 1 {
      ElemsNesting(es[1..], bound);
    }
  }

  lemma {:induction false} ElemsObjects(es: seq<Elem>, vs: seq<Value>)
    requires |es| == |vs| > 0
    requires forall k :: 0 <= k < |es| ==> es[k].value == vs[k] && IsObject(vs[k])
    ensures ObjectElems(ToElems(es)) == vs
    decreases |es|
  {
    if |es| > 1 {
      ElemsObjects(es[1..], vs[1..]);
      assert vs == [vs[0]] + vs[1..];
    }
  }

  lemma ItemText(v: Value)
    requires ValidValue(v)
    ensures ValidElem(ArrayKind, Item(v)) && ElemText(Item(v)) == ValueText(v)
  {
    hide ValidValue, ValueText;
  }

  lemma FieldText(name: string, v: Value, value: string)
    requires PlainText(name) && ValidValue(v) && ValueText(v) == value
    ensures ValidElem(ObjectKind, Field(name, v)) && ElemText(Field(name, v)) == Member(name, value)
  {
    hide ValidValue, ValueText, ValidChars;
    QuoteText(name);
  }

  lemma WholeText(n: nat, frac: string)
    requires ValidFrac(frac)
    ensures ValidValue(Whole(n, frac)) && ValueText(Whole(n, frac)) == R.Dec(n) + frac
  {
    hide R.Dec, ValidFrac;
    R.DecDigits(n);
    if R.Dec(n)[0] == '0' {
      assert R.Dec(0) == "0" by { R.DecZero(); }
    }
    assert "" + R.Dec(n) + frac + "" == R.Dec(n) + frac;
  }

  lemma NamePlain(k: nat)
    ensures PlainText(Name(k)) && |Name(k)| == 5 + if |R.Dec(k)| < 8 then 8 else |R.Dec(k)|
  {
    R.DecDigits(k);
  }

  lemma TagsTreeText(k: nat)
    ensures ValidValue(TagsTree(k)) && Nesting(TagsTree(k)) == 1
    ensures ValueText(TagsTree(k)) == TagsText(k)
  {
    hide R.Dec, ValidChars, StringText;
    var t := Tags(k);
    R.DecDigits(k % 17);
    R.DecDigits(k % 6);
    QuoteText(t[0]);
    QuoteText(t[1]);
    var a, b := Str(PlainChars(t[0])), Str(PlainChars(t[1]));
    ItemText(a);
    ItemText(b);
    ElemsJoin([Item(a), Item(b)], ArrayKind, [Quoted(t[0]), Quoted(t[1])]);
    ElemsNesting([Item(a), Item(b)], 0);
  }

  lemma EighthsFrac(r: nat)
    ensures ValidFrac(Eighths(r))
  {
  }

  lemma FieldsText(k: nat)
    ensures forall i :: 0 <= i < 5 ==> ValidElem(ObjectKind, Fields(k)[i]) && ElemText(Fields(k)[i]) == Members(k)[i]
    ensures forall i :: 0 <= i < 5 ==> Nesting(Fields(k)[i].value) <= 1
  {
    hide ValidElem, ElemText, ValidFrac, Member, Quoted, Tags, TagsTree, TagsText, Eighths, R.Dec, Name;
    assert ValidFrac("") by { NoFrac(); }
    WholeText(k, "");
    assert R.Dec(k) + "" == R.Dec(k);
    FieldText("id", Whole(k, ""), R.Dec(k));
    NamePlain(k);
    QuoteText(Name(k));
    FieldText("name", Str(PlainChars(Name(k))), Quoted(Name(k)));
    EighthsFrac(k % 1000 % 8);
    WholeText(k % 1000 / 8, Eighths(k % 1000 % 8));
    FieldText("score", Whole(k % 1000 / 8, Eighths(k % 1000 % 8)), Score(k));
    FieldText("active", Literal(Active(k)), Active(k));
    TagsTreeText(k);
    FieldText("tags", TagsTree(k), TagsText(k));
  }

  lemma NoFrac()
    ensures ValidFrac("")
  {
  }

  lemma RecordTreeText(k: nat)
    ensures ValidValue(RecordTree(k)) && ValueText(RecordTree(k)) == RecordText(k)
    ensures Nesting(RecordTree(k)) <= 2 && IsObject(RecordTree(k))
  {
    hide ValidElem, ElemText, Fields, Members, Join, ToElems;
    FieldsText(k);
    ElemsJoin(Fields(k), ObjectKind, Members(k)) by { FiveEach(k); }
    ElemsNesting(Fields(k), 1) by { FiveEach(k); }
  }

  lemma FiveEach(k: nat)
    ensures |Fields(k)| == |Members(k)| == 5
  {
  }

  // The whole document is derived, three levels deep.
  lemma DocTreeText(n: nat)
    ensures ValidDocument(DocTree(n)) && DocumentText(DocTree(n)) == DocText(n)
    ensures Nesting(DocTree(n).value) <= 3
    ensures DirectObjects(DocTree(n).value) == RecordTrees(n)
  {
    hide RecordTree, RecordText, ToElems, Join, ElemText, ValidElem;
    if n == 0 {
      EmptyJoin();
    } else {
      var es := seq(n, (k: nat) => Item(RecordTree(k)));
      forall k | 0 <= k < n
        ensures ValidElem(ArrayKind, es[k]) && ElemText(es[k]) == Records(n)[k]
        ensures Nesting(es[k].value) <= 2 && IsObject(RecordTrees(n)[k])
      {
        RecordTreeText(k);
        ItemText(RecordTree(k));
      }
      ElemsJoin(es, ArrayKind, Records(n));
      ElemsNesting(es, 2);
      ElemsObjects(es, RecordTrees(n));
    }
  }

  lemma EmptyJoin()
    ensures DocText(0) == ['[', ']']
  {
  }

  // What the members of a record are worth

  // A number with a point: its value times 10^m, for m digits after the point.
  function Scaled(n: NumberText): int
    requires n.frac != ""
  {
    R.Value(n.whole, 10) * R.Pow(10, |n.frac| - 1) + R.Value(n.frac[1..], 10)
  }

  // The score of record k is (k mod 1000) / 8, with no needless digits.
  lemma ScoreMeans(k: nat)
    ensures Fields(k)[2].value.Number?
    ensures var n := Fields(k)[2].value.n;
            && !n.minus && n.exp == "" && |n.frac| >= 2 && n.frac[0] == '.'
            && 8 * Scaled(n) == k % 1000 * R.Pow(10, |n.frac| - 1)
            && (n.frac[|n.frac| - 1] == '0' ==> n.frac == ".0")
  {
    hide R.Dec, R.Value, R.Pow, PlainChars, Name, Active, TagsTree;
    var r := k % 1000;
    R.DecValue(r / 8);
    EighthsMean(r % 8);
    var f := Eighths(r % 8);
    var p := R.Pow(10, |f| - 1);
    EightTimes(r, r / 8, R.Value(f[1..], 10), p);
  }

  lemma EightTimes(r: nat, q: nat, v: nat, p: nat)
    requires q == r / 8 && 8 * v == r % 8 * p
    ensures 8 * (q * p + v) == r * p
  {
    assert r == 8 * q + r % 8;
    assert r * p == 8 * q * p + r % 8 * p;
  }

  lemma EighthsMean(r: nat)
    requires r < 8
    ensures var f := Eighths(r);
            && |f| >= 2 && f[0] == '.' && (f[|f| - 1] == '0' ==> f == ".0")
            && 8 * R.Value(f[1..], 10) == r * R.Pow(10, |f| - 1)
  {
    ThreeDigits(Eighths(r)[1..]);
    assert R.Pow(10, 1) == 10 && R.Pow(10, 2) == 100 && R.Pow(10, 3) == 1000;
  }

  lemma ThreeDigits(t: string)
    requires 1 <= |t| <= 3
    ensures R.Value(t, 10)
         == if |t| == 1 then R.DigitValue(t[0])
            else if |t| == 2 then 10 * R.DigitValue(t[0]) + R.DigitValue(t[1])
            else 100 * R.DigitValue(t[0]) + 10 * R.DigitValue(t[1]) + R.DigitValue(t[2])
  {
    hide R.DigitValue;
    assert R.Value(t[..1], 10) == R.DigitValue(t[0]) by { assert t[..1][..0] == ""; }
    assert |t| >= 2 ==> t[..2][..1] == t[..1] && R.Value(t[..2], 10) == 10 * R.DigitValue(t[0]) + R.DigitValue(t[1]);
    assert t[..|t|] == t;
  }

  // The record's members, their keys in order and their values: the number, its
  // name with eight digits or more, the score, whether it is even, and its two
  // remainders.
  lemma RecordMeans(k: nat)
    ensures RecordTree(k) == Full(ObjectKind, ToElems(Fields(k))) && |Fields(k)| == 5
    ensures forall j :: 0 <= j < 5 ==>
      Fields(k)[j].key == Key(PlainChars(["id", "name", "score", "active", "tags"][j]), "", "")
    ensures Fields(k)[0].value == Number(NumberText(false, R.Dec(k), "", "")) && R.Value(R.Dec(k), 10) == k
    ensures Name(k)[..5] == "user_" && R.Value(Name(k)[5..], 10) == k && |Name(k)[5..]| >= 8
            && (Name(k)[5] == '0' ==> |Name(k)[5..]| == 8)
    ensures Fields(k)[1].value == Str(PlainChars(Name(k)))
    ensures Fields(k)[3].value == Literal(if k % 2 == 0 then "true" else "false")
    ensures Fields(k)[4].value
         == Full(ArrayKind, More(Elem("", NoKey, Str(PlainChars("t" + R.Dec(k % 17))), ""),
                                 One(Elem("", NoKey, Str(PlainChars("x" + R.Dec(k % 6))), ""))))
  {
    hide R.Dec, R.Value, PlainChars, Pad8;
    var a, b := Item(Str(PlainChars(Tags(k)[0]))), Item(Str(PlainChars(Tags(k)[1])));
    assert ToElems([a, b]) == More(a, One(b)) by { assert [a, b][1..] == [b]; }
    R.DecValue(k);
    NumberPadded(k);
    assert Name(k)[5..] == Pad8(k);
  }

  lemma NumberPadded(k: nat)
    ensures R.Value(Pad8(k), 10) == k && |Pad8(k)| >= 8 && (Pad8(k)[0] == '0' ==> |Pad8(k)| == 8)
  {
    hide R.Dec, R.Value;
    var d := R.Dec(k);
    R.DecValue(k);
    R.DecDigits(k);
    if |d| < 8 {
      R.ValueOfZeros(8 - |d|, d);
    } else if d[0] == '0' {
      R.DecZero();
    }
  }

  lemma {:induction false} PlainRaw(s: string)
    requires PlainText(s)
    ensures RawLen(PlainChars(s)) == |s|
    decreases |s|
  {
    if s != "" {
      PlainRaw(s[1..]);
      assert PlainChars(s)[1..] == PlainChars(s[1..]);
    }
  }

  lemma FirstElems(es: seq<Elem>)
    requires |es| >= 3
    ensures var t := ToElems(es); t.More? && t.e == es[0] && t.rest.More? && t.rest.e == es[1]
  {
  }

  // The first two members are the ones looked for.
  lemma RecordMembers(k: nat)
    ensures First(RecordTree(k), "id", false) == Some(Field("id", Whole(k, "")))
    ensures First(RecordTree(k), "name", true) == Some(Field("name", Str(PlainChars(Name(k)))))
  {
    hide Name, R.Dec, ToElems, StringText, Score, Active, TagsTree, Eighths, PlainChars;
    var es := Fields(k);
    FirstElems(es);
    QuoteText("id");
    QuoteText("name");
    FieldMatches("id", Whole(k, ""), false);
    FieldMatches("name", Str(PlainChars(Name(k))), true);
    assert |Quoted("id")| < |Quoted("name")|;
    hide Fields, Quoted;
    var t := ToElems(es);
    assert FirstIn(t.e, "id", false) == Some(es[0]);
    assert FirstIn(t.e, "name", true) == None;
    assert FirstIn(t.rest.e, "name", true) == Some(es[1]);
    assert FirstOf(t.rest, "name", true) == Some(es[1]);
  }

  lemma FieldMatches(name: string, v: Value, strs: bool)
    requires PlainText(name) && (strs ==> v.Str?)
    ensures Matches(Field(name, v), name, strs)
  {
    hide PlainChars, StringText;
    QuoteText(name);
    assert Quoted(name)[0..] == Quoted(name);
  }

  // What the extraction reads out of record k.
  lemma RecordFields(k: nat)
    ensures IntField(RecordText(k), "id") == k
    ensures StrLenField(RecordText(k), "name") == |Name(k)|
  {
    hide IntField, StrLenField, RecordText, RecordTree, R.Dec, R.Value, Name, First;
    RecordTreeText(k);
    RecordMembers(k);
    IntFieldExactly(RecordTree(k), "id");
    StrLenExactly(RecordTree(k), "name");
    R.DecValue(k);
    NamePlain(k);
    PlainRaw(Name(k));
  }

  // The sum of the name lengths.
  function NameLens(n: nat): nat { if n == 0 then 0 else NameLens(n - 1) + |Name(n - 1)| }

  lemma {:induction false} RecordTotals(n: nat)
    ensures TallyValues(RecordTrees(n)) == Totals(n, n * (n - 1) / 2, NameLens(n))
  {
    hide RecordTree, RecordText, IntField, StrLenField, Name;
    if n > 0 {
      RecordTotals(n - 1);
      assert RecordTrees(n)[..n - 1] == RecordTrees(n - 1);
      RecordTreeText(n - 1);
      RecordFields(n - 1);
      Triangle(n);
    }
  }

  lemma Triangle(n: nat)
    requires n > 0
    ensures n * (n - 1) / 2 == (n - 1) * (n - 2) / 2 + (n - 1)
  {
    assert n * (n - 1) == (n - 1) * (n - 2) + 2 * (n - 1);
  }

  lemma {:induction false} NameLensExactly(n: nat)
    ensures NameLens(n) >= 13 * n
    ensures NameLens(n) == 13 * n <==> n <= 100000000
  {
    hide Name;
    if n > 0 {
      NameLensExactly(n - 1);
      NamePlain(n - 1);
      R.DecIsShow(n - 1);
      R.ShowLength(n - 1, 10, false, 8);
      TenToTheEighth();
    }
  }

  lemma TenToTheEighth()
    ensures R.Pow(10, 8) == 100000000
  {
  }

  // End to end: the C program accepts every generated document and reports the
  // number of records, the sum of their ids and the length of their names. The
  // names have 13 characters each exactly up to 10^8 records.
  lemma EndToEnd(n: nat, r: Option<Totals>)
    requires Answers(DocText(n), r)
    ensures r.Some? && r.value.records == n && r.value.sumIds == n * (n - 1) / 2
    ensures r.value.sumNameLen == 13 * n <==> n <= 100000000
  {
    hide ValidDocument, DocumentText, DocText, DirectObjects, TallyValues, RecordTrees, Nesting;
    var d := DocTree(n);
    DocTreeText(n);
    assert IsJsonText(DocText(n), 129);
    RecordTotals(n);
    NameLensExactly(n);
    assert DocumentText(d) == DocText(n);
  }
}
