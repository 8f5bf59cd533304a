// Where the lexer's tokens stand: places follow the order of the text.
module CPlaces {
  import opened Text
  import opened CTokens

  predicate Before(a: Token, b: Token) { a.line < b.line || (a.line == b.line && a.col < b.col) }

  lemma {:induction false} SameLine(s: string, i: nat, j: nat)
    requires i <= j <= |s| && '\n' !in s[i..j]
    ensures LineStart(s, j) == LineStart(s, i)
    decreases j
  {
  }

  lemma LinesBetween(s: string, i: nat, j: nat)
    requires i <= j <= |s|
    ensures Line(s, i) <= Line(s, j)
    ensures '\n' in s[i..j] ==> Line(s, i) < Line(s, j)
  {
    var a, b := s[..i], s[i..j];
    assert s[..j] == a + b;
    assert multiset(a + b) == multiset(a) + multiset(b);
    if '\n' in b {
      assert '\n' in multiset(b);
    }
  }

  // A later position has a later place.
  lemma PlaceOrder(s: string, i: nat, j: nat, a: Kind, b: Kind)
    requires i < j <= |s|
    ensures Before(Here(s, i, a), Here(s, j, b))
  {
    hide LineStart, Line;
    LinesBetween(s, i, j);
    if '\n' !in s[i..j] {
      SameLine(s, i, j);
    }
  }

  // What stands right before `rest` in a text: the place counts the line breaks,
  // and the characters since the last one, both from 1.
  lemma PlaceIs(before: string, line: string, rest: string, kind: Kind)
    requires '\n' !in line && (before == "" || before[|before| - 1] == '\n')
    ensures var s := before + line + rest;
            Here(s, |before| + |line|, kind) == Token(kind, 1 + multiset(before)['\n'], 1 + |line|)
  {
    var s, n := before + line + rest, |before|;
    assert s[..n + |line|] == before + line && s[n..n + |line|] == line;
    assert multiset(before + line) == multiset(before) + multiset(line);
    assert n > 0 ==> s[n - 1] == before[n - 1];
    assert '\n' !in multiset(line);
    SameLine(s, n, n + |line|);
  }

  // In the order of their places, with one Eof, the last.
  ghost predicate InOrder(ts: seq<Token>) {
    && ts != [] && ts[|ts| - 1].kind == Eof
    && forall k :: 0 <= k < |ts| - 1 ==> ts[k].kind != Eof && Before(ts[k], ts[k + 1])
  }

  lemma OnlyEof(t: Token)
    requires t.kind == Eof
    ensures InOrder([t])
  {
  }

  lemma InOrderPush(t: Token, ts: seq<Token>)
    requires InOrder(ts) && t.kind != Eof && Before(t, ts[0])
    ensures InOrder([t] + ts)
  {
  }

  lemma {:induction false} LexAscends(u: Tables, s: string, i: nat)
    requires i <= |s|
    ensures var ts := Lex(u, s, i);
            ts != [] && InOrder(ts) && !Before(ts[0], Here(s, i, Eof)) && ts[|ts| - 1] == Here(s, |s|, Eof)
    decreases |s| - i
  {
    hide Next, Line, Column, InOrder;
    var end := Here(s, i, Eof);
    if i == |s| {
      OnlyEof(end);
    } else {
      var x := Next(u, s, i);
      var rest := Lex(u, s, x.end);
      LexAscends(u, s, x.end);
      PlaceOrder(s, i, x.end, Eof, Eof);
      if x.kind.Some? {
        NextNotEof(u, s, i);
        var t := Here(s, i, x.kind.value);
        InOrderPush(t, rest);
        assert Lex(u, s, i) == [t] + rest;
      } else {
        assert Lex(u, s, i) == [] + rest == rest;
      }
    }
  }

  lemma NextNotEof(u: Tables, s: string, i: nat)
    requires i < |s|
    ensures Next(u, s, i).kind != Some(Eof)
  {
    hide Quoted, LineEnd, BlockEnd, RunEnd, LiteralValue;
  }
}
