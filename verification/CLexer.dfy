// The lexer itself: a cursor with a line and a column, moved one character at
// a time.
module CLexing {
  import opened Text
  import opened CTokens

  class CLexer {
    const u: Tables
    const chars: string
    var pos: nat
    var line: nat
    var col: nat

    ghost predicate Valid()
      reads this
    {
      pos <= |chars| && line == Line(chars, pos) && col == Column(chars, pos)
    }

    constructor (u: Tables, src: string)
      ensures Valid() && this.u == u && chars == src && pos == 0
    {
      this.u, chars, pos, line, col := u, src, 0, 1, 1;
    }

    method Advance() returns (ch: Option<char>)
      requires Valid()
      modifies this`pos, this`line, this`col
      ensures Valid() && ch == Peek(chars, old(pos)) && pos == if ch.Some? then old(pos) + 1 else old(pos)
    {
      ch := Peek(chars, pos);
      if ch.None? {
        return;
      }
      assert chars[..pos + 1] == chars[..pos] + [chars[pos]];
      pos := pos + 1;
      if ch.value == '\n' {
        line, col := line + 1, 1;
      } else {
        col := col + 1;
      }
    }

    method SkipLineComment()
      requires Valid()
      modifies this`pos, this`line, this`col
      ensures Valid() && pos == LineEnd(chars, old(pos))
    {
      hide Line, Column;
      while Peek(chars, pos).Some?
        invariant Valid() && LineEnd(chars, pos) == LineEnd(chars, old(pos))
        decreases |chars| - pos
      {
        if chars[pos] == '\n' {
          break;
        }
        var _ := Advance();
      }
    }

    method SkipBlockComment()
      requires Valid()
      modifies this`pos, this`line, this`col
      ensures Valid() && pos == BlockEnd(chars, old(pos))
    {
      hide Line, Column;
      while Peek(chars, pos).Some?
        invariant Valid() && BlockEnd(chars, pos) == BlockEnd(chars, old(pos))
        decreases |chars| - pos
      {
        if chars[pos] == '*' && Peek(chars, pos + 1) == Some('/') {
          var _ := Advance();
          var _ := Advance();
          break;
        }
        var _ := Advance();
      }
    }

    method ReadString() returns (s: string)
      requires Valid()
      modifies this`pos, this`line, this`col
      ensures Valid() && Str(s, pos) == Quoted(chars, old(pos))
    {
      hide Line, Column, Unescape;
      s := "";
      ghost var all := Quoted(chars, pos);
      while Peek(chars, pos).Some?
        invariant Valid() && pos <= all.end
        invariant Quoted(chars, pos).end == all.end && s + Quoted(chars, pos).text == all.text
        decreases |chars| - pos
      {
        ghost var rest := Quoted(chars, pos);
        var c := chars[pos];
        var _ := Advance();
        if c == '"' {
          break;
        } else if c == '\\' {
          if Peek(chars, pos).None? {
            break;
          }
          assert rest.text == [Unescape(chars[pos])] + Quoted(chars, pos + 1).text;
          s := s + [Unescape(chars[pos])];
          var _ := Advance();
        } else {
          s := s + [c];
        }
      }
    }

    // Advance over a run, collecting it.
    method TakeRun(k: Class) returns (s: string)
      requires Valid()
      modifies this`pos, this`line, this`col
      ensures Valid() && pos == RunEnd(u, chars, old(pos), k) && s == chars[old(pos)..pos]
    {
      hide Line, Column;
      s := "";
      while Peek(chars, pos).Some? && In(u, k, chars[pos])
        invariant Valid() && old(pos) <= pos && RunEnd(u, chars, pos, k) == RunEnd(u, chars, old(pos), k)
        invariant s == chars[old(pos)..pos]
        decreases |chars| - pos
      {
        s := s + [chars[pos]];
        var _ := Advance();
      }
    }

    method ReadNumber() returns (val: int)
      requires Valid() && pos < |chars| && In(u, Digit, chars[pos])
      modifies this`pos, this`line, this`col
      ensures Valid() && Number(u, chars, old(pos)) == Lexeme(Some(IntLit(val)), pos)
    {
      hide Line, Column, LiteralValue;
      var s := "";
      var isHex := HexAhead(chars, pos);
      if isHex {
        s := [chars[pos], chars[pos + 1]];
        var _ := Advance();
        var _ := Advance();
        var digits := TakeRun(Hex);
        s := s + digits;
      } else {
        s := TakeRun(Digit);
      }
      assert s == chars[old(pos)..pos];
      var _ := TakeRun(Suffix);
      val := LiteralValue(s, isHex);
    }

    method ReadSymbol() returns (kind: Option<Kind>)
      requires Valid() && pos < |chars|
      modifies this`pos, this`line, this`col
      ensures Valid() && Symbol(chars, old(pos)) == Lexeme(kind, pos)
    {
      hide Line, Column, SymbolKind;
      var ch := chars[pos];
      var _ := Advance();
      if ch == '.' {
        if Peek(chars, pos) == Some('.') && Peek(chars, pos + 1) == Some('.') {
          var _ := Advance();
          var _ := Advance();
          return Some(Ellipsis);
        }
        return None;
      }
      return SymbolKind(ch);
    }

    // One round of the main loop.
    method Step() returns (kind: Option<Kind>)
      requires Valid() && pos < |chars|
      modifies this`pos, this`line, this`col
      ensures Valid() && Next(u, chars, old(pos)) == Lexeme(kind, pos)
    {
      hide Line, Column, Number, Symbol, WordKind, LineEnd, BlockEnd, Quoted, RunEnd;
      var ch, next := chars[pos], Peek(chars, pos + 1);
      if IsBlank(ch) {
        var _ := Advance();
        return None;
      }
      if ch == '\n' {
        var _ := Advance();
        return Some(Newline);
      }
      if (ch == '\\' && next == Some('\n')) || (ch == '/' && (next == Some('/') || next == Some('*'))) {
        var _ := Advance();
        var _ := Advance();
        if ch == '/' && next == Some('/') {
          SkipLineComment();
        } else if ch == '/' {
          SkipBlockComment();
        }
        return None;
      }
      if ch == '"' {
        var _ := Advance();
        var s := ReadString();
        return Some(StringLit(s));
      }
      if In(u, Digit, ch) {
        var val := ReadNumber();
        return Some(IntLit(val));
      }
      if StartsWord(u, ch) {
        var id := TakeRun(Word);
        return Some(WordKind(id));
      }
      kind := ReadSymbol();
    }

    method Tokenize() returns (tokens: seq<Token>)
      requires Valid()
      modifies this`pos, this`line, this`col
      ensures tokens == Lex(u, chars, old(pos)) && Valid() && pos == |chars|
    {
      hide Line, Column, Next;
      tokens := [];
      while pos < |chars|
        invariant Valid() && tokens + Lex(u, chars, pos) == Lex(u, chars, old(pos))
        decreases |chars| - pos
      {
        ghost var rest := Lex(u, chars, pos);
        var line, col := line, col;
        var kind := Step();
        if kind.Some? {
          assert rest == [Token(kind.value, line, col)] + Lex(u, chars, pos);
          tokens := tokens + [Token(kind.value, line, col)];
        } else {
          assert rest == [] + Lex(u, chars, pos) == Lex(u, chars, pos);
        }
      }
      tokens := tokens + [Token(Eof, line, col)];
    }
  }
}
