// Phase 1 of json_c.c: a recursive-descent recogniser that moves one cursor.
module JsonReader {
  import opened Text
  import opened JsonGrammar
  import opened JsonParse
  import opened JsonSound
  import opened JsonComplete
  import opened JsonViable

  datatype Verdict = Accepted | Rejected(at: nat) | Trailing(at: nat)

  function Answer(ok: bool, pos: nat): Parsed { if ok then Done(pos) else Failed(pos) }

  lemma LiteralByFirstLetter(s: string, i: nat)
    requires i < |s|
    ensures s[i] == 't' ==> (ParseLiteral(s, i).Done? <==> At(s, i, "true"))
    ensures s[i] == 'f' ==> (ParseLiteral(s, i).Done? <==> At(s, i, "false"))
    ensures s[i] == 'n' ==> (ParseLiteral(s, i).Done? <==> At(s, i, "null"))
    ensures s[i] != 't' && s[i] != 'f' && s[i] != 'n' ==> ParseLiteral(s, i).Failed?
    ensures ParseLiteral(s, i).Done? ==> ParseLiteral(s, i).value == i + if s[i] == 'f' then 5 else 4
  {
    forall w | w in {"true", "null", "false"} && At(s, i, w)
      ensures i + |w| <= |s| && s[i + 1] == w[1] && s[i + 2] == w[2] && s[i + 3] == w[3]
      ensures w == "false" ==> s[i + 1 + 3] == w[4]
    {
    }
  }

  lemma {:induction false} WsEnd(s: string, i: nat)
    requires i <= |s|
    ensures SkipWs(s, i) < |s| ==> !IsWs(s[SkipWs(s, i)])
    decreases |s| - i
  {
    if i < |s| && IsWs(s[i]) {
      WsEnd(s, i + 1);
    }
  }

  class Reader {
    const src: string
    var pos: nat

    constructor (text: string)
      ensures src == text && pos == 0
    {
      src := text;
      pos := 0;
    }

    method SkipWhite()
      requires pos <= |src|
      modifies this`pos
      ensures pos == SkipWs(src, old(pos))
    {
      while pos < |src|
        invariant pos <= |src|
        invariant SkipWs(src, pos) == SkipWs(src, old(pos))
      {
        var c := src[pos];
        if c == ' ' || c == '\t' || c == '\n' || c == '\r' {
          pos := pos + 1;
        } else {
          break;
        }
      }
    }

    method MatchLit(word: string) returns (ok: bool)
      requires pos <= |src|
      modifies this`pos
      ensures ok <==> At(src, old(pos), word)
      ensures pos == if ok then old(pos) + |word| else old(pos)
    {
      AtSlice(src, pos, word);
      if pos + |word| > |src| || src[pos..pos + |word|] != word {
        return false;
      }
      pos := pos + |word|;
      return true;
    }

    // One round of the loop of parse_string that does not end it.
    method ReadChar() returns (ok: bool)
      requires pos < |src| && src[pos] != '"'
      modifies this`pos
      ensures old(pos) <= pos <= |src|
      ensures Answer(ok, pos) == ParseChar(src, old(pos))
    {
      var c := src[pos];
      if c < ' ' {
        return false;
      }
      if c == '\\' {
        pos := pos + 1;
        if pos >= |src| {
          return false;
        }
        var e := src[pos];
        if e == 'u' {
          pos := pos + 1;
          ghost var start := pos;
          for k := 0 to 4
            invariant start + k == pos <= |src|
            invariant HexStop(src, start, 4) == HexStop(src, pos, 4 - k)
          {
            if pos >= |src| {
              return false;
            }
            var h := src[pos];
            if !('0' <= h <= '9' || 'a' <= h <= 'f' || 'A' <= h <= 'F') {
              return false;
            }
            pos := pos + 1;
          }
        } else if e == '"' || e == '\\' || e == '/' || e == 'b' || e == 'f' || e == 'n' || e == 'r' || e == 't' {
          pos := pos + 1;
        } else {
          return false;
        }
      } else {
        pos := pos + 1;
      }
      return true;
    }

    method ReadString() returns (ok: bool)
      requires pos <= |src|
      modifies this`pos
      ensures old(pos) <= pos <= |src|
      ensures Answer(ok, pos) == ParseString(src, old(pos))
    {
      hide ParseChar;
      if pos >= |src| || src[pos] != '"' {
        return false;
      }
      pos := pos + 1;
      while pos < |src|
        invariant old(pos) < pos <= |src|
        invariant ParseChars(src, pos) == ParseString(src, old(pos))
        decreases |src| - pos
      {
        if src[pos] == '"' {
          pos := pos + 1;
          return true;
        }
        ok := ReadChar();
        if !ok {
          return false;
        }
      }
      return false;
    }

    // The `while` loops of parse_number over a run of digits.
    method SkipDigitRun()
      requires pos <= |src|
      modifies this`pos
      ensures pos == SkipDigits(src, old(pos))
    {
      while pos < |src| && '0' <= src[pos] <= '9'
        invariant pos <= |src|
        invariant SkipDigits(src, pos) == SkipDigits(src, old(pos))
      {
        pos := pos + 1;
      }
    }

    // parse_number, in its three parts.
    method ReadWhole() returns (ok: bool)
      requires pos <= |src|
      modifies this`pos
      ensures old(pos) <= pos <= |src|
      ensures Answer(ok, pos) == ParseWhole(src, old(pos))
    {
      if pos >= |src| || src[pos] < '0' || src[pos] > '9' {
        return false;
      }
      if src[pos] == '0' {
        pos := pos + 1;
        if pos < |src| && '0' <= src[pos] <= '9' {
          return false;
        }
      } else {
        SkipDigitRun();
      }
      return true;
    }

    method ReadFrac() returns (ok: bool)
      requires pos <= |src|
      modifies this`pos
      ensures old(pos) <= pos <= |src|
      ensures Answer(ok, pos) == ParseFrac(src, old(pos))
    {
      if pos < |src| && src[pos] == '.' {
        pos := pos + 1;
        if pos >= |src| || src[pos] < '0' || src[pos] > '9' {
          return false;
        }
        SkipDigitRun();
      }
      return true;
    }

    method ReadExp() returns (ok: bool)
      requires pos <= |src|
      modifies this`pos
      ensures old(pos) <= pos <= |src|
      ensures Answer(ok, pos) == ParseExp(src, old(pos))
    {
      if pos < |src| && (src[pos] == 'e' || src[pos] == 'E') {
        pos := pos + 1;
        if pos < |src| && (src[pos] == '+' || src[pos] == '-') {
          pos := pos + 1;
        }
        if pos >= |src| || src[pos] < '0' || src[pos] > '9' {
          return false;
        }
        SkipDigitRun();
      }
      return true;
    }

    method ReadNumber() returns (ok: bool)
      requires pos <= |src|
      modifies this`pos
      ensures old(pos) <= pos <= |src|
      ensures Answer(ok, pos) == ParseNumber(src, old(pos))
    {
      hide ParseWhole, ParseFrac, ParseExp;
      if pos < |src| && src[pos] == '-' {
        pos := pos + 1;
      }
      ok := ReadWhole();
      if ok {
        ok := ReadFrac();
      }
      if ok {
        ok := ReadExp();
      }
    }

    // `"key" :` with the white space around the colon.
    method ReadKey() returns (ok: bool)
      requires pos <= |src|
      modifies this`pos
      ensures old(pos) <= pos <= |src|
      ensures Answer(ok, pos) == ParseKey(src, old(pos), ObjectKind)
    {
      hide ParseString;
      ok := ReadString();
      if !ok {
        return false;
      }
      SkipWhite();
      if pos >= |src| || src[pos] != ':' {
        return false;
      }
      pos := pos + 1;
      SkipWhite();
      return true;
    }

    method ReadObject(depth: nat) returns (ok: bool)
      requires pos < |src| && src[pos] == '{'
      modifies this`pos
      ensures old(pos) <= pos <= |src|
      ensures Answer(ok, pos) == ParseContainer(src, old(pos), depth, ObjectKind)
      decreases |src| - pos, 0
    {
      hide ParseKey, ParseValue, SkipWs;
      ghost var goal := ParseContainer(src, pos, depth, ObjectKind);
      if depth > 128 {
        return false;
      }
      pos := pos + 1;
      SkipWhite();
      if pos < |src| && src[pos] == '}' {
        pos := pos + 1;
        return true;
      }
      while true
        invariant old(pos) < pos <= |src|
        invariant ParseElems(src, pos, depth, ObjectKind) == goal == ParseContainer(src, old(pos), depth, ObjectKind)
        decreases |src| - pos
      {
        hide ParseContainer;
        SkipWhite();
        ok := ReadKey();
        if !ok {
          return false;
        }
        ok := ReadValue(depth + 1);
        if !ok {
          return false;
        }
        SkipWhite();
        if pos < |src| && src[pos] == ',' {
          pos := pos + 1;
          continue;
        }
        if pos < |src| && src[pos] == '}' {
          pos := pos + 1;
          return true;
        }
        return false;
      }
    }

    method ReadArray(depth: nat) returns (ok: bool)
      requires pos < |src| && src[pos] == '['
      modifies this`pos
      ensures old(pos) <= pos <= |src|
      ensures Answer(ok, pos) == ParseContainer(src, old(pos), depth, ArrayKind)
      decreases |src| - pos, 0
    {
      hide ParseString, ParseValue, SkipWs;
      ghost var goal := ParseContainer(src, pos, depth, ArrayKind);
      if depth > 128 {
        return false;
      }
      pos := pos + 1;
      SkipWhite();
      if pos < |src| && src[pos] == ']' {
        pos := pos + 1;
        return true;
      }
      while true
        invariant old(pos) < pos <= |src|
        invariant ParseElems(src, pos, depth, ArrayKind) == goal == ParseContainer(src, old(pos), depth, ArrayKind)
        decreases |src| - pos
      {
        hide ParseContainer;
        SkipWhite();
        ok := ReadValue(depth + 1);
        if !ok {
          return false;
        }
        SkipWhite();
        if pos < |src| && src[pos] == ',' {
          pos := pos + 1;
          continue;
        }
        if pos < |src| && src[pos] == ']' {
          pos := pos + 1;
          return true;
        }
        return false;
      }
    }

    method ReadValue(depth: nat) returns (ok: bool)
      requires pos <= |src|
      modifies this`pos
      ensures old(pos) <= pos <= |src|
      ensures Answer(ok, pos) == ParseValue(src, old(pos), depth)
      decreases |src| - pos, 1
    {
      hide ParseContainer, ParseString, ParseNumber, ParseLiteral, At;
      if pos >= |src| {
        return false;
      }
      var c := src[pos];
      LiteralByFirstLetter(src, pos);
      if c == '{' {
        ok := ReadObject(depth);
      } else if c == '[' {
        ok := ReadArray(depth);
      } else if c == '"' {
        ok := ReadString();
      } else if c == '-' || '0' <= c <= '9' {
        ok := ReadNumber();
      } else if c == 't' {
        ok := MatchLit("true");
      } else if c == 'f' {
        ok := MatchLit("false");
      } else if c == 'n' {
        ok := MatchLit("null");
      } else {
        ok := false;
      }
    }

    // Phase 1 of main, with the position each failure reports.
    method Validate() returns (v: Verdict)
      modifies this`pos
      ensures v.Accepted? <==> IsJsonText(src, 129)
      ensures v.Rejected? ==>
        v.at <= |src| && Viable(src[..v.at])
        && forall n :: v.at < n <= |src| && Viable(src[..n]) ==> BeginsLiteral(src[v.at..n])
      ensures v.Trailing? ==> v.at < |src| && !IsWs(src[v.at]) && IsJsonText(src[..v.at], 129)
    {
      hide ParseValue, IsJsonText, Viable, BeginsLiteral;
      AcceptsExactly(src);
      pos := 0;
      SkipWhite();
      var ok := ReadValue(0);
      if !ok {
        RejectedThere(src, pos);
        return Rejected(pos);
      }
      FrontSound(src, pos);
      WsEnd(src, pos);
      SkipWhite();
      if pos != |src| {
        return Trailing(pos);
      }
      return Accepted;
    }
  }
}
