// The grammar of RFC 8259, sections 2 to 7, as derivation trees. A tree is
// well formed when every leaf obeys its production, and ValueText spells out
// the text it derives. White space around the structural characters belongs to
// the neighbouring element, which derives the same language.
module JsonGrammar {
  import opened Text

  datatype Kind = ArrayKind | ObjectKind

  datatype StrChar =
    | Plain(c: char)
    | Escaped(c: char)
    | Unicode(hex: string)

  datatype NumberText = NumberText(minus: bool, whole: string, frac: string, exp: string)

  datatype Key =
    | NoKey
    | Key(name: seq<StrChar>, before: string, after: string)

  datatype Value =
    | Literal(word: string)
    | Number(n: NumberText)
    | Str(chars: seq<StrChar>)
    | Empty(kind: Kind, ws: string)
    | Full(kind: Kind, elems: Elems)

  datatype Elem = Elem(before: string, key: Key, value: Value, after: string)

  datatype Elems = One(e: Elem) | More(e: Elem, rest: Elems)

  // JSON-text = ws value ws
  datatype Document = Document(before: string, value: Value, after: string)

  // Character classes

  predicate IsWs(c: char) { c == ' ' || c == '\t' || c == '\n' || c == '\r' }

  predicate IsHex(c: char) { '0' <= c <= '9' || 'a' <= c <= 'f' || 'A' <= c <= 'F' }

  predicate IsEscapable(c: char) {
    c == '"' || c == '\\' || c == '/' || c == 'b' || c == 'f' || c == 'n' || c == 'r' || c == 't'
  }

  ghost predicate AllWs(w: string) { forall k :: 0 <= k < |w| ==> IsWs(w[k]) }

  ghost predicate AllDigits(w: string) { forall k :: 0 <= k < |w| ==> IsDigit(w[k]) }

  // Well-formed trees

  ghost predicate ValidChar(c: StrChar) {
    match c
    case Plain(c) => c >= ' ' && c != '"' && c != '\\'
    case Escaped(c) => IsEscapable(c)
    case Unicode(h) => |h| == 4 && forall k :: 0 <= k < 4 ==> IsHex(h[k])
  }

  ghost predicate ValidChars(cs: seq<StrChar>) {
    forall k :: 0 <= k < |cs| ==> ValidChar(cs[k])
  }

  // int = zero / ( digit1-9 *DIGIT )
  ghost predicate ValidWhole(w: string) {
    w == "0" || (w != "" && AllDigits(w) && w[0] != '0')
  }

  // frac = decimal-point 1*DIGIT, or absent
  ghost predicate ValidFrac(w: string) {
    w == "" || (|w| >= 2 && w[0] == '.' && AllDigits(w[1..]))
  }

  // exp = e [ minus / plus ] 1*DIGIT, or absent
  ghost predicate ValidExp(w: string) {
    w == "" ||
    (|w| >= 2 && (w[0] == 'e' || w[0] == 'E') &&
     (AllDigits(w[1..]) || (|w| >= 3 && (w[1] == '+' || w[1] == '-') && AllDigits(w[2..]))))
  }

  ghost predicate ValidNumber(n: NumberText) {
    ValidWhole(n.whole) && ValidFrac(n.frac) && ValidExp(n.exp)
  }

  ghost predicate ValidKey(kind: Kind, key: Key) {
    match key
    case NoKey => kind == ArrayKind
    case Key(name, before, after) => kind == ObjectKind && ValidChars(name) && AllWs(before) && AllWs(after)
  }

  ghost predicate ValidValue(v: Value) {
    match v
    case Literal(w) => w == "true" || w == "false" || w == "null"
    case Number(n) => ValidNumber(n)
    case Str(cs) => ValidChars(cs)
    case Empty(_, ws) => AllWs(ws)
    case Full(kind, es) => ValidElems(kind, es)
  }

  ghost predicate ValidElem(kind: Kind, e: Elem)
    decreases e
  {
    AllWs(e.before) && ValidKey(kind, e.key) && ValidValue(e.value) && AllWs(e.after)
  }

  ghost predicate ValidElems(kind: Kind, es: Elems)
    decreases es
  {
    ValidElem(kind, es.e) && (es.More? ==> ValidElems(kind, es.rest))
  }

  ghost predicate ValidDocument(d: Document) {
    AllWs(d.before) && ValidValue(d.value) && AllWs(d.after)
  }

  // How deep containers nest: a scalar is 0, an empty container 1.

  function Nesting(v: Value): nat {
    match v
    case Empty(_, _) => 1
    case Full(_, es) => 1 + NestingElems(es)
    case _ => 0
  }

  function NestingElems(es: Elems): nat {
    match es
    case One(e) => Nesting(e.value)
    case More(e, rest) => Max(Nesting(e.value), NestingElems(rest))
  }

  // The text a tree derives

  function Open(kind: Kind): char { if kind == ArrayKind then '[' else '{' }

  function Close(kind: Kind): char { if kind == ArrayKind then ']' else '}' }

  function CharText(c: StrChar): string {
    match c
    case Plain(c) => [c]
    case Escaped(c) => ['\\', c]
    case Unicode(h) => ['\\', 'u'] + h
  }

  function CharsText(cs: seq<StrChar>): string {
    if cs == [] then "" else CharText(cs[0]) + CharsText(cs[1..])
  }

  function StringText(cs: seq<StrChar>): string { ['"'] + CharsText(cs) + ['"'] }

  function NumText(n: NumberText): string {
    (if n.minus then "-" else "") + n.whole + n.frac + n.exp
  }

  function KeyText(key: Key): string {
    match key
    case NoKey => ""
    case Key(name, before, after) => StringText(name) + before + [':'] + after
  }

  function ValueText(v: Value): string {
    match v
    case Literal(w) => w
    case Number(n) => NumText(n)
    case Str(cs) => StringText(cs)
    case Empty(kind, ws) => [Open(kind)] + ws + [Close(kind)]
    case Full(kind, es) => [Open(kind)] + ElemsText(es) + [Close(kind)]
  }

  function ElemText(e: Elem): string {
    e.before + KeyText(e.key) + ValueText(e.value) + e.after
  }

  function ElemsText(es: Elems): string {
    match es
    case One(e) => ElemText(e)
    case More(e, rest) => ElemText(e) + [','] + ElemsText(rest)
  }

  function DocumentText(d: Document): string { d.before + ValueText(d.value) + d.after }

  // `s` is a JSON text whose containers nest at most `limit` deep.
  ghost predicate IsJsonText(s: string, limit: nat) {
    exists d: Document :: ValidDocument(d) && Nesting(d.value) <= limit && DocumentText(d) == s
  }
}
