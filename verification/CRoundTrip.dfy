// Printing tokens as C text, and lexing the text back.
module CRoundTrip {
  import opened Text
  import opened CTokens
  import opened CLiterals
  import R = Radix

  // Between tokens: blanks, block comments and line continuations.
  datatype Gap = Blank(c: char) | Comment(text: string) | Splice

  predicate IsGap(g: Gap) {
    match g
    case Blank(c) => c == ' ' || c == '\t' || c == '\r'
    case Comment(t) => forall k :: 0 <= k < |t| - 1 ==> t[k] != '*' || t[k + 1] != '/'
    case Splice => true
  }

  function GapText(g: Gap): (t: string)
    ensures t != ""
  {
    match g
    case Blank(c) => [c]
    case Comment(t) => "/*" + t + "*/"
    case Splice => "\\\n"
  }

  function GapsText(gaps: seq<Gap>): string {
    if gaps == [] then "" else GapText(gaps[0]) + GapsText(gaps[1..])
  }

  function Escape(c: char): (t: string)
    ensures t != "" && t[0] != '"'
  {
    match c
    case '\n' => "\\n"
    case '\t' => "\\t"
    case '\r' => "\\r"
    case '\0' => "\\0"
    case '"' => "\\\""
    case '\\' => "\\\\"
    case _ => [c]
  }

  function Escaped(t: string): string {
    if t == "" then "" else Escape(t[0]) + Escaped(t[1..])
  }

  function KeywordText(kind: Kind): string {
    match kind
    case Void => "void"
    case Int => "int"
    case Short => "short"
    case Long => "long"
    case Signed => "signed"
    case Unsigned => "unsigned"
    case Float => "float"
    case Double => "double"
    case Char => "char"
    case Const => "const"
    case Volatile => "volatile"
    case Static => "static"
    case Extern => "extern"
    case Inline => "inline"
    case Struct => "struct"
    case Union => "union"
    case Enum => "enum"
    case Typedef => "typedef"
    case _ => ""
  }

  function SymbolChar(kind: Kind): Option<char> {
    match kind
    case LParen => Some('(')
    case RParen => Some(')')
    case LBrace => Some('{')
    case RBrace => Some('}')
    case LBracket => Some('[')
    case RBracket => Some(']')
    case Semicolon => Some(';')
    case Comma => Some(',')
    case Star => Some('*')
    case Equal => Some('=')
    case Pipe => Some('|')
    case Ampersand => Some('&')
    case Plus => Some('+')
    case Minus => Some('-')
    case Tilde => Some('~')
    case Exclamation => Some('!')
    case Hash => Some('#')
    case _ => None
  }

  function Spelling(kind: Kind): string {
    match kind
    case Ident(name) => name
    case IntLit(value) => if value >= 0 then R.Dec(value) else ""
    case StringLit(text) => "\"" + Escaped(text) + "\""
    case Ellipsis => "..."
    case Newline => "\n"
    case _ => if SymbolChar(kind).Some? then [SymbolChar(kind).value] else KeywordText(kind)
  }

  ghost predicate IsName(u: Tables, name: string) {
    name != "" && NameStart(u, name[0]) && forall k :: 0 <= k < |name| ==> NameChar(u, name[k])
  }

  // What can be printed: any name that is no keyword, any value the lexer's
  // integers hold, any string.
  ghost predicate Printable(u: Tables, kind: Kind) {
    match kind
    case Ident(name) => IsName(u, name) && forall k :: KeywordText(k) != name
    case IntLit(value) => 0 <= value < 0x8000_0000_0000_0000
    case Eof => false
    case _ => true
  }

  // A token, the gaps after it, and a comment to the end of the line.
  datatype Item = Item(kind: Kind, gaps: seq<Gap>, note: Option<string>)

  function NoteText(note: Option<string>): string { if note.Some? then "//" + note.value else "" }

  predicate WordLike(u: Tables, kind: Kind) { Spelling(kind) != "" && NameChar(u, Spelling(kind)[0]) }

  // Two words do not touch, a word is not continued on the next line, and a
  // line comment ends its line.
  ghost predicate Apart(u: Tables, items: seq<Item>) {
    forall k :: 0 <= k < |items| ==>
      && (WordLike(u, items[k].kind) && items[k].gaps != [] ==> !items[k].gaps[0].Splice?)
      && (k + 1 < |items| && WordLike(u, items[k].kind) && WordLike(u, items[k + 1].kind) ==> items[k].gaps != [])
      && (k + 1 < |items| && items[k].note.Some? ==> items[k + 1].kind.Newline?)
  }

  ghost predicate AllPrintable(u: Tables, items: seq<Item>) {
    forall k :: 0 <= k < |items| ==>
      && Printable(u, items[k].kind) && (forall g :: g in items[k].gaps ==> IsGap(g))
      && (items[k].note.Some? ==> '\n' !in items[k].note.value)
  }

  function Print(items: seq<Item>): string {
    if items == [] then ""
    else Spelling(items[0].kind) + GapsText(items[0].gaps) + NoteText(items[0].note) + Print(items[1..])
  }

  // Where an item starts, when it and those after it end the text.
  function StartOf(s: string, items: seq<Item>): (i: nat)
    ensures i <= |s|
  {
    if |Print(items)| <= |s| then |s| - |Print(items)| else 0
  }

  // The tokens have the kinds of the items, in order, each with the place where
  // its item starts, and Eof comes last.
  ghost predicate Tells(s: string, ts: seq<Token>, items: seq<Item>) {
    && |ts| == |items| + 1 && ts[|items|] == Here(s, |s|, Eof)
    && forall k :: 0 <= k < |items| ==> ts[k] == Here(s, StartOf(s, items[k..]), items[k].kind)
  }

  // One token

  lemma KeywordKind(kind: Kind)
    requires KeywordText(kind) != ""
    ensures WordKind(KeywordText(kind)) == kind
  {
  }

  // Every other name is itself.
  lemma NameKind(name: string)
    requires name != ""
    ensures WordKind(name) == Ident(name) <==> forall kind :: KeywordText(kind) != name
  {
    var kind := WordKind(name);
    assert kind != Ident(name) ==> KeywordText(kind) == name;
    if kind == Ident(name) {
      forall k ensures KeywordText(k) != name {
        if KeywordText(k) == name {
          KeywordKind(k);
        }
      }
    }
  }

  lemma KeywordIsName(u: Tables, kind: Kind)
    requires Ascii(u) && KeywordText(kind) != ""
    ensures IsName(u, KeywordText(kind))
  {
    var t := KeywordText(kind);
    assert forall m :: 0 <= m < |t| ==> 'a' <= t[m] <= 'z';
  }

  lemma SymbolCharKind(u: Tables, kind: Kind)
    requires Ascii(u) && SymbolChar(kind).Some?
    ensures SymbolKind(SymbolChar(kind).value) == Some(kind) && !NameChar(u, SymbolChar(kind).value)
  {
  }

  // The kinds without contents are symbols or keywords.
  lemma PlainSpelling(kind: Kind)
    requires !kind.StringLit? && !kind.Newline? && !kind.Ellipsis? && !kind.IntLit? && !kind.Ident? && !kind.Eof?
    ensures if SymbolChar(kind).Some? then Spelling(kind) == [SymbolChar(kind).value]
            else Spelling(kind) == KeywordText(kind) != ""
  {
    hide KeywordText, SymbolChar, Escaped, R.Dec;
    if SymbolChar(kind).None? {
      PlainKeyword(kind);
    }
  }

  lemma PlainKeyword(kind: Kind)
    requires !kind.StringLit? && !kind.Newline? && !kind.Ellipsis? && !kind.IntLit? && !kind.Ident? && !kind.Eof?
    requires SymbolChar(kind).None?
    ensures KeywordText(kind) != ""
  {
  }

  lemma WordRead(u: Tables, s: string, i: nat, name: string)
    requires Ascii(u) && IsName(u, name) && At(s, i, name) && WordStops(u, s, i + |name|)
    ensures Next(u, s, i) == Lexeme(Some(WordKind(name)), i + |name|)
  {
    hide WordKind, LineEnd, BlockEnd, Quoted, Number, Symbol;
    AtSlice(s, i, name);
    assert s[i] == name[0];
    forall m | i <= m < i + |name| ensures In(u, Word, s[m]) {
      assert s[i + (m - i)] == name[m - i];
    }
    RunIs(u, s, i, i + |name|, Word);
  }

  // A name of letters, digits and underscores is read as one word.
  lemma NameRead(u: Tables, s: string, i: nat, name: string)
    requires Ascii(u) && At(s, i, name) && WordStops(u, s, i + |name|) && name != ""
    requires 'a' <= name[0] <= 'z' || 'A' <= name[0] <= 'Z' || name[0] == '_'
    requires forall c :: c in name ==> 'a' <= c <= 'z' || 'A' <= c <= 'Z' || '0' <= c <= '9' || c == '_'
    ensures Next(u, s, i) == Lexeme(Some(WordKind(name)), i + |name|)
    ensures (forall kind :: KeywordText(kind) != name) ==> Next(u, s, i).kind == Some(Ident(name))
  {
    hide Next, WordKind;
    forall k | 0 <= k < |name| ensures NameChar(u, name[k]) {
      assert name[k] in name;
    }
    WordRead(u, s, i, name);
    NameKind(name);
  }

  // A character that starts nothing is passed over by itself.
  lemma OtherRead(u: Tables, s: string, i: nat)
    requires i < |s| && !NameStart(u, s[i]) && !Decimal(s[i]) && s[i] != '"' && s[i] != '\n'
    requires forall kind :: SymbolChar(kind) != Some(s[i])
    requires s[i] == '/' ==> Peek(s, i + 1) != Some('/') && Peek(s, i + 1) != Some('*')
    requires s[i] == '\\' ==> Peek(s, i + 1) != Some('\n')
    requires !At(s, i, "...")
    ensures Next(u, s, i) == Lexeme(None, i + 1)
  {
    hide LineEnd, BlockEnd, Quoted, Number, WordKind, RunEnd;
    if SymbolKind(s[i]).Some? {
      SymbolKindChar(s[i]);
    }
    if s[i] == '.' && Peek(s, i + 1) == Some('.') && Peek(s, i + 2) == Some('.') {
      Dots(s, i);
    }
  }

  lemma SymbolKindChar(c: char)
    requires SymbolKind(c).Some?
    ensures SymbolChar(SymbolKind(c).value) == Some(c)
  {
  }

  lemma Dots(s: string, i: nat)
    requires i + 2 < |s| && s[i] == s[i + 1] == s[i + 2] == '.'
    ensures At(s, i, "...")
  {
  }

  lemma SymbolRead(u: Tables, s: string, i: nat)
    requires Ascii(u) && i < |s| && SymbolKind(s[i]).Some?
    ensures Next(u, s, i) == Lexeme(SymbolKind(s[i]), i + 1)
  {
    hide LineEnd, BlockEnd, Quoted, Number, WordKind, RunEnd;
  }

  lemma {:induction false} QuotedEscaped(s: string, i: nat, t: string)
    requires At(s, i, Escaped(t) + "\"")
    ensures Quoted(s, i) == Str(t, i + |Escaped(t)| + 1)
    decreases |t|
  {
    hide Escape;
    AtConcat(s, i, Escaped(t), "\"");
    if t == "" {
      assert s[i + 0] == "\""[0];
    } else {
      var e, more := Escape(t[0]), Escaped(t[1..]);
      AtConcat(s, i, e, more);
      AtConcat(s, i + |e|, more, "\"");
      QuotedEscaped(s, i + |e|, t[1..]);
      QuotedEscape(s, i, t[0]);
      assert t == [t[0]] + t[1..];
    }
  }

  lemma QuotedEscape(s: string, i: nat, c: char)
    requires At(s, i, Escape(c))
    ensures var r := Quoted(s, i + |Escape(c)|); Quoted(s, i) == Str([c] + r.text, r.end)
  {
    var e := Escape(c);
    assert s[i + 0] == e[0];
    if |e| == 2 {
      assert s[i + 1] == e[1];
    }
  }

  // A backslash before any other character stands for that character.
  lemma OtherEscape(s: string, i: nat)
    requires i + 1 < |s| && s[i] == '\\' && s[i + 1] !in {'n', 't', 'r', '0'}
    ensures Quoted(s, i) == Str([s[i + 1]] + Quoted(s, i + 2).text, Quoted(s, i + 2).end)
  {
  }

  // A string or block comment without an end takes the rest of the text.
  lemma {:induction false} OpenString(s: string, i: nat)
    requires i <= |s| && '"' !in s[i..] && '\\' !in s[i..]
    ensures Quoted(s, i) == Str(s[i..], |s|)
    decreases |s| - i
  {
    if i < |s| {
      assert s[i..] == [s[i]] + s[i + 1..];
      OpenString(s, i + 1);
    }
  }

  lemma {:induction false} OpenComment(s: string, i: nat)
    requires i <= |s| && forall k :: i <= k < |s| - 1 ==> !(s[k] == '*' && s[k + 1] == '/')
    ensures BlockEnd(s, i) == |s|
    decreases |s| - i
  {
    if i < |s| {
      OpenComment(s, i + 1);
    }
  }

  lemma StringRead(u: Tables, s: string, i: nat, t: string)
    requires Ascii(u) && At(s, i, "\"" + Escaped(t) + "\"")
    ensures Next(u, s, i) == Lexeme(Some(StringLit(t)), i + |Escaped(t)| + 2)
  {
    hide LineEnd, BlockEnd, Quoted, Number, WordKind, RunEnd, Symbol, Escaped;
    assert "\"" + Escaped(t) + "\"" == "\"" + (Escaped(t) + "\"");
    AtConcat(s, i, "\"", Escaped(t) + "\"");
    QuotedEscaped(s, i + 1, t);
    assert s[i + 0] == "\""[0];
  }

  lemma NumeralConstant(n: nat)
    ensures Constant(R.Dec(n)) == Some(n)
  {
    hide R.Dec, R.Value;
    var t := R.Dec(n);
    R.DecDigits(n);
    R.DecValue(n);
    assert AllDigits(t, 10);
    assert |t| > 1 ==> '0' <= t[1] <= '9';
    if n == 0 {
      R.DecZero();
      OctalZero();
    }
  }

  lemma OctalZero()
    ensures R.Value("0", 8) == 0 && AllDigits("0", 8)
  {
  }

  lemma IntRead(u: Tables, s: string, i: nat, n: nat)
    requires Ascii(u) && n < 0x8000_0000_0000_0000 && At(s, i, R.Dec(n)) && WordStops(u, s, i + |R.Dec(n)|)
    ensures Next(u, s, i) == Lexeme(Some(IntLit(n)), i + |R.Dec(n)|)
  {
    hide R.Dec, Next, At;
    NumeralConstant(n);
    assert R.Dec(n) + "" == R.Dec(n);
    LiteralRead(u, s, i, R.Dec(n), "");
  }

  lemma DotsRead(u: Tables, s: string, i: nat)
    requires Ascii(u) && At(s, i, "...")
    ensures Next(u, s, i) == Lexeme(Some(Ellipsis), i + 3)
  {
    hide LineEnd, BlockEnd, Quoted, Number, WordKind, RunEnd;
    assert s[i + 0] == "..."[0] && s[i + 1] == "..."[1] && s[i + 2] == "..."[2];
  }

  // Each token is read back from its spelling, wherever it stands.
  lemma TokenRead(u: Tables, s: string, i: nat, kind: Kind)
    requires Ascii(u) && Printable(u, kind) && At(s, i, Spelling(kind))
    requires WordLike(u, kind) ==> WordStops(u, s, i + |Spelling(kind)|)
    ensures Spelling(kind) != "" && Next(u, s, i) == Lexeme(Some(kind), i + |Spelling(kind)|)
  {
    hide Next, R.Dec, Escaped, WordKind;
    match kind
    case Ident(name) =>
      NameKind(name);
      WordRead(u, s, i, name);
    case IntLit(value) =>
      R.DecDigits(value);
      IntRead(u, s, i, value);
    case StringLit(text) => StringRead(u, s, i, text);
    case Newline => NewlineRead(u, s, i);
    case Ellipsis => DotsRead(u, s, i);
    case _ => PlainRead(u, s, i, kind);
  }

  lemma NewlineRead(u: Tables, s: string, i: nat)
    requires At(s, i, "\n")
    ensures Next(u, s, i) == Lexeme(Some(Newline), i + 1)
  {
    assert s[i + 0] == "\n"[0];
  }

  lemma PlainRead(u: Tables, s: string, i: nat, kind: Kind)
    requires Ascii(u) && Printable(u, kind) && At(s, i, Spelling(kind))
    requires !kind.StringLit? && !kind.Newline? && !kind.Ellipsis? && !kind.IntLit? && !kind.Ident?
    requires WordLike(u, kind) ==> WordStops(u, s, i + |Spelling(kind)|)
    ensures Spelling(kind) != "" && Next(u, s, i) == Lexeme(Some(kind), i + |Spelling(kind)|)
  {
    hide Next, Spelling, KeywordText, WordKind, SymbolKind, SymbolChar;
    PlainSpelling(kind);
    if SymbolChar(kind).Some? {
      SymbolCharKind(u, kind);
      assert s[i + 0] == Spelling(kind)[0];
      SymbolRead(u, s, i);
    } else {
      KeywordKind(kind);
      KeywordIsName(u, kind);
      WordRead(u, s, i, Spelling(kind));
    }
  }

  // Gaps

  lemma {:induction false} BlockFrom(s: string, i: nat, t: string, k: nat)
    requires At(s, i, t) && At(s, i + |t|, "*/") && IsGap(Comment(t)) && k <= |t|
    ensures BlockEnd(s, i + k) == i + |t| + 2
    decreases |t| - k
  {
    var e := i + |t|;
    assert s[e + 0] == "*/"[0] && s[e + 1] == "*/"[1];
    if k < |t| {
      assert s[i + k] == t[k];
      if k + 1 < |t| {
        assert s[i + (k + 1)] == t[k + 1];
      }
      BlockFrom(s, i, t, k + 1);
    }
  }

  lemma CommentRead(u: Tables, s: string, i: nat, t: string)
    requires IsGap(Comment(t)) && At(s, i, "/*" + t + "*/")
    ensures Next(u, s, i) == Lexeme(None, i + |t| + 4)
  {
    assert "/*" + t + "*/" == "/*" + (t + "*/");
    AtConcat(s, i, "/*", t + "*/");
    AtConcat(s, i + 2, t, "*/");
    assert s[i + 0] == "/*"[0] && s[i + 1] == "/*"[1];
    BlockFrom(s, i + 2, t, 0);
    hide LineEnd, BlockEnd, Quoted, Number, WordKind, RunEnd, Symbol, At;
  }

  lemma GapRead(u: Tables, s: string, i: nat, g: Gap)
    requires IsGap(g) && At(s, i, GapText(g))
    ensures Next(u, s, i) == Lexeme(None, i + |GapText(g)|)
  {
    if g.Comment? {
      hide Next, At, IsGap;
      CommentRead(u, s, i, g.text);
    } else {
      hide LineEnd, BlockEnd, Quoted, Number, WordKind, RunEnd, Symbol;
      var t := GapText(g);
      assert s[i + 0] == t[0];
      assert g.Splice? ==> s[i + 1] == t[1];
    }
  }

  lemma AtInside(s: string, i: nat, t: string)
    requires At(s, i, t)
    ensures i + |t| <= |s|
  {
  }

  lemma {:induction false} GapsRead(u: Tables, s: string, i: nat, gaps: seq<Gap>)
    requires (forall g :: g in gaps ==> IsGap(g)) && At(s, i, GapsText(gaps)) && i <= |s|
    ensures Lex(u, s, i) == Lex(u, s, i + |GapsText(gaps)|)
    decreases |gaps|
  {
    hide Next, IsGap, GapText, At, Line, Column;
    if gaps != [] {
      AtConcat(s, i, GapText(gaps[0]), GapsText(gaps[1..]));
      AtInside(s, i, GapText(gaps[0]));
      GapRead(u, s, i, gaps[0]);
      var j := i + |GapText(gaps[0])|;
      assert Lex(u, s, i) == [] + Lex(u, s, j) == Lex(u, s, j);
      GapsRead(u, s, j, gaps[1..]);
    }
  }

  // All tokens

  lemma SpellingNotEmpty(u: Tables, kind: Kind)
    requires Printable(u, kind)
    ensures Spelling(kind) != ""
  {
    hide R.Dec, Escaped, WordKind;
    if !kind.StringLit? && !kind.Newline? && !kind.Ellipsis? && !kind.IntLit? && !kind.Ident? {
      hide Spelling, KeywordText, SymbolChar;
      PlainSpelling(kind);
    }
  }

  lemma GapStops(u: Tables, s: string, i: nat, g: Gap)
    requires Ascii(u) && IsGap(g) && !g.Splice? && At(s, i, GapText(g))
    ensures WordStops(u, s, i)
  {
    assert s[i + 0] == GapText(g)[0];
  }

  lemma NoteStops(u: Tables, s: string, i: nat, text: string)
    requires Ascii(u) && At(s, i, "//" + text)
    ensures WordStops(u, s, i)
  {
    assert s[i + 0] == ("//" + text)[0];
  }

  // After a word, what follows does not go on with it.
  lemma RestStops(u: Tables, s: string, j: nat, items: seq<Item>)
    requires Ascii(u) && AllPrintable(u, items) && Apart(u, items) && items != [] && WordLike(u, items[0].kind)
    requires At(s, j, GapsText(items[0].gaps))
    requires var k := j + |GapsText(items[0].gaps)|;
             At(s, k, NoteText(items[0].note)) && At(s, k + |NoteText(items[0].note)|, Print(items[1..]))
             && k + |NoteText(items[0].note)| + |Print(items[1..])| == |s|
    ensures WordStops(u, s, j)
  {
    hide IsGap, GapText, Printable, WordLike, Spelling;
    var gaps, note, more := items[0].gaps, items[0].note, items[1..];
    if gaps != [] {
      AtConcat(s, j, GapText(gaps[0]), GapsText(gaps[1..]));
      GapStops(u, s, j, gaps[0]);
    } else if note.Some? {
      NoteStops(u, s, j, note.value);
    } else if more != [] {
      assert more[0] == items[1];
      NextStops(u, s, j, more);
    }
  }

  lemma NextStops(u: Tables, s: string, j: nat, items: seq<Item>)
    requires items != [] && Printable(u, items[0].kind) && !WordLike(u, items[0].kind) && At(s, j, Print(items))
    ensures WordStops(u, s, j)
  {
    hide Printable, Spelling;
    var t := Spelling(items[0].kind);
    SpellingNotEmpty(u, items[0].kind);
    assert s[j + 0] == Print(items)[0] == t[0];
  }

  // A line comment is passed over up to the end of its line.
  lemma {:induction false} LineEndIs(s: string, i: nat, text: string)
    requires At(s, i, text) && '\n' !in text && (i + |text| == |s| || s[i + |text|] == '\n')
    ensures LineEnd(s, i) == i + |text|
    decreases |text|
  {
    if text != "" {
      assert s[i + 0] == text[0];
      forall k | 0 <= k < |text| - 1 ensures s[i + 1 + k] == text[1..][k] {
        assert s[i + (k + 1)] == text[k + 1];
      }
      LineEndIs(s, i + 1, text[1..]);
    }
  }

  lemma NoteRead(u: Tables, s: string, i: nat, note: Option<string>)
    requires At(s, i, NoteText(note)) && i <= |s|
    requires note.Some? ==> '\n' !in note.value
    requires var e := i + |NoteText(note)|; note.Some? ==> e == |s| || s[e] == '\n'
    ensures Lex(u, s, i) == Lex(u, s, i + |NoteText(note)|)
  {
    hide Number, WordKind, RunEnd, Symbol, Quoted, BlockEnd, Line, Column;
    if note.Some? {
      AtConcat(s, i, "//", note.value);
      assert s[i + 0] == "//"[0] && s[i + 1] == "//"[1];
      LineEndIs(s, i + 2, note.value);
      var j := i + |NoteText(note)|;
      assert Next(u, s, i) == Lexeme(None, j);
      assert Lex(u, s, i) == [] + Lex(u, s, j) == Lex(u, s, j);
    }
  }

  // The character after a line comment ends the line.
  lemma NoteEnds(s: string, j: nat, u: Tables, items: seq<Item>)
    requires Apart(u, items) && items != [] && items[0].note.Some?
    requires At(s, j, Print(items[1..])) && j + |Print(items[1..])| == |s|
    ensures j == |s| || s[j] == '\n'
  {
    hide WordLike;
    var more := items[1..];
    if more != [] {
      assert items[0 + 1].kind.Newline?;
      assert Spelling(more[0].kind) == "\n";
      assert s[j + 0] == Print(more)[0] == "\n"[0];
    }
  }

  lemma LexToken(u: Tables, s: string, i: nat, kind: Kind)
    requires i < |s| && Next(u, s, i).kind == Some(kind)
    ensures Lex(u, s, i) == [Here(s, i, kind)] + Lex(u, s, Next(u, s, i).end)
  {
    hide Next, Line, Column;
  }

  lemma TellsPush(s: string, t: Token, ts: seq<Token>, items: seq<Item>)
    requires items != [] && t == Here(s, StartOf(s, items), items[0].kind) && Tells(s, ts, items[1..])
    ensures Tells(s, [t] + ts, items)
  {
    hide Line, Column, StartOf;
    var all := [t] + ts;
    assert items[0..] == items;
    forall k | 1 <= k < |items| ensures all[k] == Here(s, StartOf(s, items[k..]), items[k].kind) {
      assert items[1..][k - 1..] == items[k..] && items[1..][k - 1] == items[k] && all[k] == ts[k - 1];
    }
  }

  lemma AtFour(s: string, i: nat, a: string, b: string, c: string, d: string)
    requires At(s, i, a + b + c + d)
    ensures At(s, i, a) && At(s, i + |a|, b) && At(s, i + |a| + |b|, c) && At(s, i + |a| + |b| + |c|, d)
    ensures i + |a| + |b| + |c| + |d| <= |s|
  {
    AtConcat(s, i, a + b + c, d);
    AtConcat(s, i, a + b, c);
    AtConcat(s, i, a, b);
    AtInside(s, i, a + b + c + d);
    hide At;
  }

  // Where an item's rest starts.
  function RestAt(i: nat, item: Item): nat {
    i + |Spelling(item.kind)| + |GapsText(item.gaps)| + |NoteText(item.note)|
  }

  lemma FirstAt(s: string, i: nat, items: seq<Item>)
    requires items != [] && At(s, i, Print(items)) && i + |Print(items)| == |s|
    ensures var a := i + |Spelling(items[0].kind)|;
            var b := a + |GapsText(items[0].gaps)|;
            && At(s, i, Spelling(items[0].kind)) && At(s, a, GapsText(items[0].gaps))
               && At(s, b, NoteText(items[0].note))
            && At(s, RestAt(i, items[0]), Print(items[1..])) && RestAt(i, items[0]) + |Print(items[1..])| == |s|
  {
    hide At, Spelling, GapsText, NoteText;
    var it := items[0];
    assert Print(items) == Spelling(it.kind) + GapsText(it.gaps) + NoteText(it.note) + Print(items[1..]);
    hide Print;
    AtFour(s, i, Spelling(it.kind), GapsText(it.gaps), NoteText(it.note), Print(items[1..]));
  }

  lemma ItemPrintable(u: Tables, items: seq<Item>)
    requires AllPrintable(u, items) && items != []
    ensures Printable(u, items[0].kind) && (forall g :: g in items[0].gaps ==> IsGap(g))
    ensures items[0].note.Some? ==> '\n' !in items[0].note.value
  {
    hide Printable, IsGap;
  }

  // Gaps and a line comment are passed over.
  lemma SpaceRead(u: Tables, s: string, a: nat, gaps: seq<Gap>, note: Option<string>, end: nat)
    requires (forall g :: g in gaps ==> IsGap(g)) && (note.Some? ==> '\n' !in note.value)
    requires end == a + |GapsText(gaps)| + |NoteText(note)| <= |s|
    requires At(s, a, GapsText(gaps)) && At(s, a + |GapsText(gaps)|, NoteText(note))
    requires note.Some? ==> end == |s| || s[end] == '\n'
    ensures Lex(u, s, a) == Lex(u, s, end)
  {
    hide At, IsGap, GapsText, NoteText, Lex;
    GapsRead(u, s, a, gaps);
    NoteRead(u, s, a + |GapsText(gaps)|, note);
  }

  // The first token and what follows it, and where the rest stands.
  lemma FirstRead(u: Tables, s: string, i: nat, items: seq<Item>)
    requires Ascii(u) && AllPrintable(u, items) && Apart(u, items) && items != []
    requires At(s, i, Print(items)) && i + |Print(items)| == |s|
    ensures var j := RestAt(i, items[0]);
            && At(s, j, Print(items[1..])) && j + |Print(items[1..])| == |s|
            && Lex(u, s, i) == [Here(s, i, items[0].kind)] + Lex(u, s, j)
  {
    hide Ascii, AllPrintable, At, Next, Line, Column, Printable, Spelling, WordLike, WordStops, IsGap, GapsText;
    hide NoteText, Lex, Apart, Print;
    FirstAt(s, i, items);
    ItemPrintable(u, items);
    var kind := items[0].kind;
    var a := i + |Spelling(kind)|;
    if WordLike(u, kind) {
      RestStops(u, s, a, items);
    }
    TokenRead(u, s, i, kind);
    if items[0].note.Some? {
      NoteEnds(s, RestAt(i, items[0]), u, items);
    }
    SpaceRead(u, s, a, items[0].gaps, items[0].note, RestAt(i, items[0]));
    LexToken(u, s, i, kind);
  }

  lemma {:induction false} LexPrint(u: Tables, s: string, i: nat, items: seq<Item>)
    requires Ascii(u) && AllPrintable(u, items) && Apart(u, items)
    requires At(s, i, Print(items)) && i + |Print(items)| == |s|
    ensures Tells(s, Lex(u, s, i), items)
    decreases |items|
  {
    hide Ascii, AllPrintable, Apart, At, Next, Line, Column, Spelling, GapsText, RestAt;
    if items == [] {
      assert Lex(u, s, i) == [Here(s, i, Eof)];
    } else {
      hide Lex, Print, Tells;
      var j := RestAt(i, items[0]);
      FirstRead(u, s, i, items);
      Shorter(u, items);
      LexPrint(u, s, j, items[1..]);
      assert StartOf(s, items) == i by { AtInside(s, i, Print(items)); }
      TellsPush(s, Here(s, i, items[0].kind), Lex(u, s, j), items);
    }
  }

  lemma Shorter(u: Tables, items: seq<Item>)
    requires AllPrintable(u, items) && Apart(u, items) && items != []
    ensures AllPrintable(u, items[1..]) && Apart(u, items[1..])
  {
  }

  // Lexing printed tokens gives their kinds back, each at the place where it was
  // printed, then Eof.
  lemma RoundTrip(u: Tables, lead: seq<Gap>, items: seq<Item>)
    requires Ascii(u) && AllPrintable(u, items) && Apart(u, items) && forall g :: g in lead ==> IsGap(g)
    ensures var s := GapsText(lead) + Print(items); Tells(s, Lex(u, s, 0), items)
  {
    hide Ascii, IsGap, Apart, AllPrintable, Lex, Tells, Print, GapsText;
    var a, b := GapsText(lead), Print(items);
    SliceAt(a + b, 0, |a|);
    SliceAt(a + b, |a|, |a + b|);
    assert (a + b)[0..|a|] == a && (a + b)[|a|..|a + b|] == b;
    hide At;
    GapsRead(u, a + b, 0, lead);
    LexPrint(u, a + b, |a|, items);
  }
}
