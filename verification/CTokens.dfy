// What the C header lexer reads: the tokens of a source text and their places.
module CTokens {
  import opened Text
  import R = Radix

  datatype Kind =
    | Ident(name: string) | IntLit(value: int) | StringLit(text: string)
    | Void | Int | Short | Long | Signed | Unsigned | Float | Double | Char
    | Const | Volatile | Static | Extern | Inline | Struct | Union | Enum | Typedef
    | LParen | RParen | LBrace | RBrace | LBracket | RBracket | Semicolon | Comma
    | Star | Equal | Pipe | Ampersand | Plus | Minus | Tilde | Exclamation | Ellipsis
    | Hash | Newline | Eof

  datatype Token = Token(kind: Kind, line: nat, col: nat)

  // The character tables of the library that the lexer asks about letters and
  // numerals.
  datatype Tables = Tables(alphabetic: char -> bool, numeric: char -> bool)

  // Where tables agree with ASCII.
  ghost predicate Ascii(u: Tables) {
    forall c: char :: c < 128 as char ==>
      (u.alphabetic(c) <==> 'a' <= c <= 'z' || 'A' <= c <= 'Z') && (u.numeric(c) <==> '0' <= c <= '9')
  }

  datatype Class = Digit | Hex | Suffix | Word

  predicate In(u: Tables, k: Class, c: char) {
    match k
    case Digit => '0' <= c <= '9'
    case Hex => '0' <= c <= '9' || 'a' <= c <= 'f' || 'A' <= c <= 'F'
    case Suffix => c == 'u' || c == 'U' || c == 'l' || c == 'L'
    case Word => u.alphabetic(c) || u.numeric(c) || c == '_'
  }

  // Where the longest run of a class from i on ends.
  function RunEnd(u: Tables, s: string, i: nat, k: Class): (j: nat)
    requires i <= |s|
    ensures i <= j <= |s|
    decreases |s| - i
  {
    if i < |s| && In(u, k, s[i]) then RunEnd(u, s, i + 1, k) else i
  }

  function Peek(s: string, i: nat): Option<char> { if i < |s| then Some(s[i]) else None }

  function LineEnd(s: string, i: nat): (j: nat)
    requires i <= |s|
    ensures i <= j <= |s|
    decreases |s| - i
  {
    if i == |s| || s[i] == '\n' then i else LineEnd(s, i + 1)
  }

  // Just after the closing of a block comment, or the end of the text.
  function BlockEnd(s: string, i: nat): (j: nat)
    requires i <= |s|
    ensures i <= j <= |s|
    decreases |s| - i
  {
    if i == |s| then i
    else if s[i] == '*' && Peek(s, i + 1) == Some('/') then i + 2
    else BlockEnd(s, i + 1)
  }

  datatype Str = Str(text: string, end: nat)

  function Unescape(c: char): char {
    match c
    case 'n' => '\n'
    case 't' => '\t'
    case 'r' => '\r'
    case '0' => '\0'
    case _ => c
  }

  // A string literal from just after its opening quote.
  function Quoted(s: string, i: nat): (r: Str)
    requires i <= |s|
    ensures i <= r.end <= |s|
    decreases |s| - i
  {
    if i == |s| then Str("", i)
    else if s[i] == '"' then Str("", i + 1)
    else if s[i] == '\\' then
      if i + 1 == |s| then Str("", i + 1) else
      var r := Quoted(s, i + 2);
      Str([Unescape(s[i + 1])] + r.text, r.end)
    else
      var r := Quoted(s, i + 1);
      Str([s[i]] + r.text, r.end)
  }

  // Numbers

  const LIMIT := 0x8000_0000_0000_0000

  predicate IsDigitIn(c: char, radix: nat) {
    ('0' <= c <= '9' || 'a' <= c <= 'f' || 'A' <= c <= 'F') && R.DigitValue(c) < radix
  }

  predicate AllDigits(s: string, radix: nat) { forall k :: 0 <= k < |s| ==> IsDigitIn(s[k], radix) }

  // i64::from_str_radix on a text without a sign.
  function FromStrRadix(s: string, radix: nat): Option<int> {
    if s == "" || !AllDigits(s, radix) || R.Value(s, radix) >= LIMIT then None else Some(R.Value(s, radix))
  }

  function UnwrapOrZero(v: Option<int>): int { if v.Some? then v.value else 0 }

  // str::trim_start_matches
  function TrimStart(s: string, t: string): string
    requires t != ""
  {
    if |t| <= |s| && s[..|t|] == t then TrimStart(s[|t|..], t) else s
  }

  function LiteralValue(t: string, hex: bool): int {
    if hex then UnwrapOrZero(FromStrRadix(TrimStart(TrimStart(t, "0x"), "0X"), 16))
    else if |t| > 1 && t[0] == '0' then UnwrapOrZero(FromStrRadix(t, 8))
    else UnwrapOrZero(FromStrRadix(t, 10))
  }

  predicate HexAhead(s: string, i: nat) {
    Peek(s, i) == Some('0') && (Peek(s, i + 1) == Some('x') || Peek(s, i + 1) == Some('X'))
  }

  // Where the digits of a literal end, before any suffix.
  function DigitsEnd(u: Tables, s: string, i: nat): (j: nat)
    requires i < |s|
    ensures i <= j <= |s|
  {
    if HexAhead(s, i) then RunEnd(u, s, i + 2, Hex) else RunEnd(u, s, i, Digit)
  }

  datatype Lexeme = Lexeme(kind: Option<Kind>, end: nat)

  function Number(u: Tables, s: string, i: nat): (r: Lexeme)
    requires i < |s|
    ensures i <= r.end <= |s|
  {
    var d := DigitsEnd(u, s, i);
    Lexeme(Some(IntLit(LiteralValue(s[i..d], HexAhead(s, i)))), RunEnd(u, s, d, Suffix))
  }

  // Words and symbols

  function WordKind(id: string): Kind {
    match id
    case "void" => Void
    case "int" => Int
    case "short" => Short
    case "long" => Long
    case "signed" => Signed
    case "unsigned" => Unsigned
    case "float" => Float
    case "double" => Double
    case "char" => Char
    case "const" => Const
    case "volatile" => Volatile
    case "static" => Static
    case "extern" => Extern
    case "inline" => Inline
    case "struct" => Struct
    case "union" => Union
    case "enum" => Enum
    case "typedef" => Typedef
    case _ => Ident(id)
  }

  function SymbolKind(c: char): Option<Kind> {
    match c
    case '(' => Some(LParen)
    case ')' => Some(RParen)
    case '{' => Some(LBrace)
    case '}' => Some(RBrace)
    case '[' => Some(LBracket)
    case ']' => Some(RBracket)
    case ';' => Some(Semicolon)
    case ',' => Some(Comma)
    case '*' => Some(Star)
    case '=' => Some(Equal)
    case '|' => Some(Pipe)
    case '&' => Some(Ampersand)
    case '+' => Some(Plus)
    case '-' => Some(Minus)
    case '~' => Some(Tilde)
    case '!' => Some(Exclamation)
    case '#' => Some(Hash)
    case _ => None
  }

  function Symbol(s: string, i: nat): (r: Lexeme)
    requires i < |s|
    ensures i < r.end <= |s|
  {
    if s[i] == '.' then
      if Peek(s, i + 1) == Some('.') && Peek(s, i + 2) == Some('.') then Lexeme(Some(Ellipsis), i + 3)
      else Lexeme(None, i + 1)
    else Lexeme(SymbolKind(s[i]), i + 1)
  }

  predicate IsBlank(c: char) { c == ' ' || c == '\t' || c == '\r' }

  predicate StartsWord(u: Tables, c: char) { u.alphabetic(c) || c == '_' }

  // What stands at i: a token, or something passed over.
  function Next(u: Tables, s: string, i: nat): (r: Lexeme)
    requires i < |s|
    ensures i < r.end <= |s|
  {
    var c := s[i];
    var d := Peek(s, i + 1);
    if IsBlank(c) then Lexeme(None, i + 1)
    else if c == '\n' then Lexeme(Some(Newline), i + 1)
    else if c == '\\' && d == Some('\n') then Lexeme(None, i + 2)
    else if c == '/' && d == Some('/') then Lexeme(None, LineEnd(s, i + 2))
    else if c == '/' && d == Some('*') then Lexeme(None, BlockEnd(s, i + 2))
    else if c == '"' then Lexeme(Some(StringLit(Quoted(s, i + 1).text)), Quoted(s, i + 1).end)
    else if In(u, Digit, c) then Number(u, s, i)
    else if StartsWord(u, c) then Lexeme(Some(WordKind(s[i..RunEnd(u, s, i, Word)])), RunEnd(u, s, i, Word))
    else Symbol(s, i)
  }

  // Places

  // Where the line of position i starts.
  function LineStart(s: string, i: nat): (b: nat)
    requires i <= |s|
    ensures b <= i && (b == 0 || s[b - 1] == '\n')
    ensures '\n' !in s[b..i]
  {
    if i == 0 || s[i - 1] == '\n' then i else LineStart(s, i - 1)
  }

  // Both count from 1.
  function Line(s: string, i: nat): nat
    requires i <= |s|
  {
    1 + multiset(s[..i])['\n']
  }

  function Column(s: string, i: nat): nat
    requires i <= |s|
  {
    1 + i - LineStart(s, i)
  }

  function Here(s: string, i: nat, kind: Kind): Token
    requires i <= |s|
  {
    Token(kind, Line(s, i), Column(s, i))
  }

  // The tokens from i on.
  function Lex(u: Tables, s: string, i: nat): (ts: seq<Token>)
    requires i <= |s|
    decreases |s| - i
  {
    if i == |s| then [Here(s, i, Eof)] else
    var x := Next(u, s, i);
    (if x.kind.Some? then [Here(s, i, x.kind.value)] else []) + Lex(u, s, x.end)
  }
}
