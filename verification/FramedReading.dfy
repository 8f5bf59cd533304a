// The demonstration client's decoder: one byte at a time, with a tolerant
// reading of the header lines.
module FramedReading {
  import opened Text
  import R = Radix
  import F = Framing

  const LABEL := "content-length:"
  const CRLF := "\r\n"

  function LowerChar(c: char): char { if 'A' <= c <= 'Z' then c - 'A' + 'a' else c }

  function Lower(s: string): (t: string)
    ensures |t| == |s|
  {
    seq(|s|, i requires 0 <= i < |s| => LowerChar(s[i]))
  }

  function Lines(head: string): (lines: seq<string>)
    ensures |lines| > 0
    decreases |head|
  {
    var at := Find(head, CRLF, 0);
    if at.None? then [head] else [head[..at.value]] + Lines(head[at.value + |CRLF|..])
  }

  // bytes.strip()
  predicate IsSpace(c: char) { c == ' ' || '\t' <= c <= '\r' }

  function StripLeft(s: string): string { if s != "" && IsSpace(s[0]) then StripLeft(s[1..]) else s }

  function StripRight(s: string): string {
    if s != "" && IsSpace(s[|s| - 1]) then StripRight(s[..|s| - 1]) else s
  }

  function Strip(s: string): string { StripRight(StripLeft(s)) }

  // int(): an optional sign, then digits in groups that single underscores separate.
  predicate IsNumeral(s: string) {
    s != "" && IsDigit(s[0]) && IsDigit(s[|s| - 1]) && forall k :: 0 <= k < |s| ==> InNumeral(s, k)
  }

  predicate InNumeral(s: string, k: nat)
    requires k < |s|
  {
    IsDigit(s[k]) || (k > 0 && s[k] == '_' && IsDigit(s[k - 1]))
  }

  function Digits(s: string): string {
    if s == "" then "" else Digits(s[..|s| - 1]) + if s[|s| - 1] == '_' then "" else [s[|s| - 1]]
  }

  function ToInt(s: string): Option<int> {
    var t := Strip(s);
    var u := if t != "" && (t[0] == '-' || t[0] == '+') then t[1..] else t;
    if !IsNumeral(u) then None
    else if t[0] == '-' then Some(0 - R.Value(Digits(u), 10))
    else Some(R.Value(Digits(u), 10))
  }

  predicate Labelled(line: string) { |LABEL| <= |line| && Lower(line)[..|LABEL|] == LABEL }

  // The last labelled line decides; None is an exception. The label ends with
  // the line's first colon.
  function Length(lines: seq<string>): Option<int> {
    if lines == [] then Some(0) else
    var n := |lines| - 1;
    var before := Length(lines[..n]);
    if before.None? || !Labelled(lines[n]) then before else ToInt(lines[n][|LABEL|..])
  }

  // Where a slice [:length] ends: a negative length counts from the end.
  function SliceEnd(s: string, length: int): (e: nat)
    requires length <= |s|
    ensures e <= |s|
  {
    if length >= 0 then length else if |s| + length >= 0 then |s| + length else 0
  }

  // A reader waits for more, or its thread has ended by an exception.
  datatype Reader = Waiting(messages: seq<string>, buf: string) | Ended(messages: seq<string>)

  function Prepend(messages: seq<string>, r: Reader): Reader {
    match r
    case Waiting(m, b) => Waiting(messages + m, b)
    case Ended(m) => Ended(messages + m)
  }

  function Drain(buf: string): Reader
    decreases |buf|
  {
    var at := Find(buf, F.BREAK, 0);
    if at.None? then Waiting([], buf) else
    var rest := buf[at.value + |F.BREAK|..];
    var length := Length(Lines(buf[..at.value]));
    if length.None? then Ended([])
    else if |rest| < length.value then Waiting([], buf)
    else
      var e := SliceEnd(rest, length.value);
      Prepend([rest[..e]], Drain(rest[e..]))
  }

  // The reader after the bytes of a stream, read one at a time.
  function Receive(stream: string): Reader {
    if stream == "" then Waiting([], "") else
    var n := |stream| - 1;
    match Receive(stream[..n])
    case Ended(m) => Ended(m)
    case Waiting(m, b) => Prepend(m, Drain(b + [stream[n]]))
  }

  method HeaderLength(head: string) returns (length: Option<int>)
    ensures length == Length(Lines(head))
  {
    length := Some(0);
    var lines := Lines(head);
    for i := 0 to |lines|
      invariant length.Some? && length == Length(lines[..i])
    {
      assert lines[..i + 1][..i] == lines[..i];
      if Labelled(lines[i]) {
        length := ToInt(lines[i][|LABEL|..]);
        if length.None? {
          EndedStays(lines, i + 1);
          return;
        }
      }
    }
    assert lines[..|lines|] == lines;
  }

  lemma {:induction false} EndedStays(lines: seq<string>, i: nat)
    requires i <= |lines| && Length(lines[..i]).None?
    ensures Length(lines).None?
    decreases |lines| - i
  {
    if i == |lines| {
      assert lines[..i] == lines;
    } else {
      assert lines[..i + 1][..i] == lines[..i];
      EndedStays(lines, i + 1);
    }
  }

  class FramedReader {
    var buf: string
    var messages: seq<string>

    constructor ()
      ensures buf == "" && messages == []
    {
      buf, messages := "", [];
    }

    // One byte arrives; `alive` is false when the thread ends.
    method Feed(chunk: char) returns (alive: bool)
      modifies this
      ensures var r := Prepend(old(messages), Drain(old(buf) + [chunk]));
              messages == r.messages && alive == r.Waiting? && (alive ==> buf == r.buf)
    {
      hide Lines, Length;
      buf := buf + [chunk];
      ghost var all := Prepend(messages, Drain(buf));
      alive := true;
      while true
        invariant Prepend(messages, Drain(buf)) == all
        decreases |buf|
      {
        var at := Find(buf, F.BREAK, 0);
        if at.None? {
          break;
        }
        var head, rest := buf[..at.value], buf[at.value + |F.BREAK|..];
        var length := HeaderLength(head);
        if length.None? {
          alive := false;
          break;
        }
        if |rest| < length.value {
          break;
        }
        var e := SliceEnd(rest, length.value);
        PrependTwice(messages, [rest[..e]], Drain(rest[e..]));
        messages, buf := messages + [rest[..e]], rest[e..];
      }
      assert messages + [] == messages;
    }

    // The thread's loop over everything the server writes.
    method Loop(stream: string) returns (alive: bool)
      requires buf == "" && messages == []
      modifies this
      ensures var r := Receive(stream); messages == r.messages && alive == r.Waiting? && (alive ==> buf == r.buf)
    {
      hide Drain;
      alive := true;
      for i := 0 to |stream|
        invariant alive && Receive(stream[..i]) == Waiting(messages, buf)
      {
        assert stream[..i + 1][..i] == stream[..i];
        alive := Feed(stream[i]);
        if !alive {
          EndedForGood(stream, i + 1);
          return;
        }
      }
      assert stream[..|stream|] == stream;
    }
  }

  lemma {:induction false} EndedForGood(stream: string, i: nat)
    requires i <= |stream| && Receive(stream[..i]).Ended?
    ensures Receive(stream) == Receive(stream[..i])
    decreases |stream| - i
  {
    if i == |stream| {
      assert stream[..i] == stream;
    } else {
      assert stream[..i + 1][..i] == stream[..i];
      EndedForGood(stream, i + 1);
    }
  }

  lemma PrependTwice(a: seq<string>, b: seq<string>, r: Reader)
    ensures Prepend(a + b, r) == Prepend(a, Prepend(b, r))
  {
  }

  // Reading in pieces

  // No header met while draining s states a negative length that reaches into
  // what follows it, when t comes after s.
  predicate NoCut(s: string, t: string)
    decreases |s|
  {
    var at := Find(s, F.BREAK, 0);
    at.Some? ==>
      var rest := s[at.value + |F.BREAK|..];
      var length := Length(Lines(s[..at.value]));
      length.Some? && length.value <= |rest| ==>
        (length.value < 0 ==> |rest| + |t| + length.value <= 0) && NoCut(rest[SliceEnd(rest, length.value)..], t)
  }

  // A reader that has drained, and then gets more.
  function Then(r: Reader, t: string): Reader {
    if r.Waiting? then Prepend(r.messages, Drain(r.buf + t)) else r
  }

  lemma FindStays(s: string, t: string, u: string)
    requires u != "" && Find(s, u, 0).Some?
    ensures Find(s + t, u, 0) == Find(s, u, 0)
  {
    var i, j := Find(s, u, 0).value, Find(s + t, u, 0);
    StandsIn(s, t, i, u);
    if j.value < i {
      StandsIn(s, t, j.value, u);
    }
  }

  // The first header of a buffer is that of the buffer with more behind it.
  lemma HeaderStays(s: string, t: string)
    requires Find(s, F.BREAK, 0).Some?
    ensures var i := Find(s, F.BREAK, 0).value;
            && Find(s + t, F.BREAK, 0) == Some(i) && (s + t)[..i] == s[..i]
            && (s + t)[i + |F.BREAK|..] == s[i + |F.BREAK|..] + t
  {
    hide Find;
    FindStays(s, t, F.BREAK);
    var i := Find(s, F.BREAK, 0).value;
    assert (s + t)[..i] == s[..i] && (s + t)[i + |F.BREAK|..] == s[i + |F.BREAK|..] + t;
  }

  // Draining in two goes is draining at once if and only if there is nothing
  // more, or no header of the first part cuts into what follows.
  lemma {:induction false} DrainTwice(s: string, t: string)
    ensures Then(Drain(s), t) == Drain(s + t) <==> t == "" || NoCut(s, t)
    decreases |s|, 0
  {
    hide Lines, Length, Find;
    var at := Find(s, F.BREAK, 0);
    if at.None? {
      PrependNothing(Drain(s + t));
      NothingMore(s);
    } else {
      HeaderStays(s, t);
      var rest := s[at.value + |F.BREAK|..];
      var length := Length(Lines(s[..at.value]));
      if length.Some? {
        if |rest| < length.value {
          PrependNothing(Drain(s + t));
          NothingMore(s);
        } else {
          BodyTwice(rest, t, length.value);
        }
      }
    }
  }

  lemma NothingMore(s: string)
    ensures s + "" == s
  {
  }

  lemma BodyTwice(rest: string, t: string, length: int)
    requires length <= |rest|
    ensures var e, e' := SliceEnd(rest, length), SliceEnd(rest + t, length);
            Then(Prepend([rest[..e]], Drain(rest[e..])), t) == Prepend([(rest + t)[..e']], Drain((rest + t)[e'..]))
            <==> t == "" || ((length < 0 ==> |rest| + |t| + length <= 0) && NoCut(rest[e..], t))
    decreases |rest| - SliceEnd(rest, length), 1
  {
    hide Drain, NoCut;
    var e, e' := SliceEnd(rest, length), SliceEnd(rest + t, length);
    var d := Drain(rest[e..]);
    ThenPrepend([rest[..e]], d, t);
    if t == "" {
      assert rest + t == rest && rest[e..] + t == rest[e..];
      DrainTwice(rest[e..], t);
    } else if length < 0 && |rest| + |t| + length > 0 {
      FirstMessage(rest[..e], Then(d, t));
      FirstMessage((rest + t)[..e'], Drain((rest + t)[e'..]));
      assert |(rest + t)[..e']| == e' != e == |rest[..e]|;
    } else {
      assert e' == e && (rest + t)[..e] == rest[..e] && (rest + t)[e..] == rest[e..] + t;
      DrainTwice(rest[e..], t);
      SameAfter([rest[..e]], Then(d, t), Drain(rest[e..] + t));
    }
  }

  lemma ThenPrepend(messages: seq<string>, r: Reader, t: string)
    ensures Then(Prepend(messages, r), t) == Prepend(messages, Then(r, t))
  {
    hide Drain;
    if r.Waiting? {
      PrependTwice(messages, r.messages, Drain(r.buf + t));
    }
  }

  lemma FirstMessage(m: string, r: Reader)
    ensures Prepend([m], r).messages != [] && Prepend([m], r).messages[0] == m
  {
  }

  lemma SameAfter(messages: seq<string>, a: Reader, b: Reader)
    ensures Prepend(messages, a) == Prepend(messages, b) <==> a == b
  {
    var n := |messages|;
    assert Prepend(messages, a).messages[n..] == a.messages && Prepend(messages, b).messages[n..] == b.messages;
  }

  lemma PrependNothing(r: Reader)
    ensures Prepend([], r) == r
  {
  }

  // A stream without cuts has none in its first part.
  lemma {:induction false} NoCutFront(s: string, t: string)
    requires NoCut(s + t, "")
    ensures NoCut(s, t) && NoCut(s, "")
    decreases |s|
  {
    hide Lines, Length, Find;
    var at := Find(s, F.BREAK, 0);
    if at.Some? {
      HeaderStays(s, t);
      var rest := s[at.value + |F.BREAK|..];
      var length := Length(Lines(s[..at.value]));
      if length.Some? && length.value <= |rest| {
        var e := SliceEnd(rest, length.value);
        assert (rest + t)[e..] == rest[e..] + t;
        NoCutFront(rest[e..], t);
      }
    }
  }

  lemma {:induction false} BytesWithoutCut(stream: string)
    requires NoCut(stream, "")
    ensures Receive(stream) == Drain(stream)
  {
    hide Drain, NoCut;
    if stream == "" {
      NothingYet();
    } else {
      var n := |stream| - 1;
      assert stream == stream[..n] + [stream[n]];
      NoCutFront(stream[..n], [stream[n]]);
      DrainTwice(stream[..n], [stream[n]]);
      BytesWithoutCut(stream[..n]);
    }
  }

  lemma NothingYet()
    ensures NoCut("", "") && Drain("") == Waiting([], "")
  {
  }

  // Up to a cut both readings agree, and there byte by byte delivers an empty
  // message, where one look at the whole delivers another.
  ghost predicate ShowsCut(s: string, k: nat, m: nat) {
    && k <= |s| && NoCut(s[..k], "")
    && |Drain(s[..k]).messages| > m && Drain(s[..k]).messages[m] == ""
    && |Drain(s).messages| > m && Drain(s).messages[m] != ""
  }

  lemma {:induction false} CutShows(s: string) returns (k: nat, m: nat)
    requires !NoCut(s, "")
    ensures ShowsCut(s, k, m)
    decreases |s|
  {
    hide Lines, Length, Find, Drain;
    var i := Find(s, F.BREAK, 0).value;
    var a := i + |F.BREAK|;
    var rest := s[a..];
    var length := Length(Lines(s[..i])).value;
    var e := SliceEnd(rest, length);
    if length < 0 && |rest| + length > 0 {
      k, m := a, 0;
      CutHere(s, i, length);
    } else {
      var k', m' := CutShows(rest[e..]);
      k, m := a + e + k', m' + 1;
      CutLater(s, i, length, e, k', m');
    }
  }

  lemma FindFront(s: string, t: string, i: nat)
    requires Find(s + t, F.BREAK, 0) == Some(i) && i + |F.BREAK| <= |s|
    ensures Find(s, F.BREAK, 0) == Some(i)
  {
    hide Stands;
    StandsIn(s, t, i, F.BREAK);
    forall j | 0 <= j < i ensures !Stands(s, j, F.BREAK) {
      StandsIn(s, t, j, F.BREAK);
    }
    FindIs(s, F.BREAK, 0, i);
  }

  lemma SlicesOf(s: string, i: nat, k: nat)
    requires i + |F.BREAK| <= k <= |s|
    ensures s[..k] + s[k..] == s && s[..k][..i] == s[..i] && s[..k][i + |F.BREAK|..] == s[i + |F.BREAK|..k]
  {
  }

  lemma HeaderOf(s: string, i: nat, k: nat)
    requires Find(s, F.BREAK, 0) == Some(i) && i + |F.BREAK| <= k <= |s|
    ensures Find(s[..k], F.BREAK, 0) == Some(i) && s[..k][..i] == s[..i]
    ensures s[..k][i + |F.BREAK|..] == s[i + |F.BREAK|..k]
  {
    hide Find, Stands;
    SlicesOf(s, i, k);
    FindFront(s[..k], s[k..], i);
  }

  lemma CutHere(s: string, i: nat, length: int)
    requires Find(s, F.BREAK, 0) == Some(i) && Length(Lines(s[..i])) == Some(length)
    requires length < 0 && |s| - i - |F.BREAK| + length > 0
    ensures ShowsCut(s, i + |F.BREAK|, 0)
  {
    hide Lines, Length, Find;
    var a := i + |F.BREAK|;
    HeaderOf(s, i, a);
    NothingYet();
    var rest, pre := s[a..], s[..a];
    var e := SliceEnd(rest, length);
    FirstMessage(rest[..e], Drain(rest[e..]));
    assert pre[a..] == "";
    FirstMessage("", Drain(""));
  }

  lemma CutLater(s: string, i: nat, length: int, e: nat, k: nat, m: nat)
    requires Find(s, F.BREAK, 0) == Some(i) && Length(Lines(s[..i])) == Some(length)
    requires var rest := s[i + |F.BREAK|..];
             && length <= |rest| && e == SliceEnd(rest, length) && (length < 0 ==> |rest| + length <= 0)
             && ShowsCut(rest[e..], k, m)
    ensures ShowsCut(s, i + |F.BREAK| + e + k, m + 1)
  {
    hide Lines, Length, Find;
    var a := i + |F.BREAK|;
    var n := a + e + k;
    var rest, pre, part := s[a..], s[..n], s[a..][e..];
    HeaderOf(s, i, n);
    assert pre[a..][..e] == rest[..e] && pre[a..][e..] == part[..k];
    assert Drain(s) == Prepend([rest[..e]], Drain(part));
    assert Drain(pre) == Prepend([rest[..e]], Drain(part[..k]));
    assert NoCut(pre, "");
    hide Drain, NoCut;
    NextMessage(rest[..e], Drain(part), m);
    NextMessage(rest[..e], Drain(part[..k]), m);
  }

  lemma NextMessage(first: string, r: Reader, m: nat)
    requires m < |r.messages|
    ensures |Prepend([first], r).messages| > m + 1 && Prepend([first], r).messages[m + 1] == r.messages[m]
  {
  }

  // Messages once delivered stay.
  lemma {:induction false} ReceiveGrows(stream: string, k: nat)
    requires k <= |stream|
    ensures Receive(stream[..k]).messages <= Receive(stream).messages
    decreases |stream| - k
  {
    hide Drain;
    if k == |stream| {
      assert stream[..k] == stream;
    } else {
      assert stream[..k + 1][..k] == stream[..k];
      ReceiveGrows(stream, k + 1);
    }
  }

  // Reading byte by byte delivers what one look at the whole stream delivers if
  // and only if no header states a negative length that cuts into what follows.
  lemma ByteByByte(stream: string)
    ensures Receive(stream) == Drain(stream) <==> NoCut(stream, "")
  {
    hide Drain, NoCut, Receive;
    if NoCut(stream, "") {
      BytesWithoutCut(stream);
    } else {
      var k, m := CutShows(stream);
      BytesWithoutCut(stream[..k]);
      ReceiveGrows(stream, k);
      assert Receive(stream).messages[m] == "";
    }
  }

  // Header lines

  function Joined(lines: seq<string>): string
    requires lines != []
    decreases |lines|
  {
    if |lines| == 1 then lines[0] else lines[0] + "\r\n" + Joined(lines[1..])
  }

  // The lines of a header are its parts between line breaks.
  lemma {:induction false} LinesExactly(head: string)
    ensures Joined(Lines(head)) == head
    ensures forall k, i :: 0 <= k < |Lines(head)| ==> !Stands(Lines(head)[k], i, "\r\n")
    decreases |head|
  {
    hide Stands;
    var at := Find(head, CRLF, 0);
    if at.Some? {
      Fits(head, at.value);
      var first, rest := head[..at.value], head[at.value + |CRLF|..];
      LinesExactly(rest);
      assert Lines(head)[1..] == Lines(rest);
      assert head == first + CRLF + rest by { Cut(head, at.value); }
      forall i ensures !Stands(first, i, CRLF) {
        FirstLine(head, at.value, i);
      }
    }
  }

  lemma Fits(s: string, at: nat)
    requires Stands(s, at, CRLF)
    ensures at + |CRLF| <= |s|
  {
  }

  lemma Cut(s: string, at: nat)
    requires Stands(s, at, CRLF)
    ensures s == s[..at] + CRLF + s[at + |CRLF|..]
  {
  }

  lemma FirstLine(head: string, at: nat, i: nat)
    requires Find(head, CRLF, 0) == Some(at)
    ensures !Stands(head[..at], i, CRLF)
  {
    if i + |CRLF| <= at {
      assert head[..at] + head[at..] == head;
      StandsIn(head[..at], head[at..], i, CRLF);
    }
  }

  // A labelled line starts with the label in any mixture of cases.
  lemma LabelledExactly(line: string)
    ensures Labelled(line)
       <==> |line| >= 15
            && forall k :: 0 <= k < 15 ==> line[k] == "content-length:"[k] || line[k] == "CONTENT-LENGTH:"[k]
  {
    var small, big := "content-length:", "CONTENT-LENGTH:";
    if |line| >= 15 {
      forall k | 0 <= k < 15 ensures LowerChar(line[k]) == small[k] <==> line[k] == small[k] || line[k] == big[k] {
        CaseOf(line[k], small[k], big[k]) by { LabelCases(k); }
      }
      assert forall k :: 0 <= k < 15 ==> Lower(line)[..|LABEL|][k] == LowerChar(line[k]);
    }
  }

  predicate Cases(small: char, big: char) {
    if 'a' <= small <= 'z' then small as int == big as int + 32 else small == big && !('A' <= big <= 'Z')
  }

  lemma CaseOf(c: char, small: char, big: char)
    requires Cases(small, big)
    ensures LowerChar(c) == small <==> c == small || c == big
  {
  }

  lemma LabelCases(k: nat)
    requires k < 15
    ensures Cases("content-length:"[k], "CONTENT-LENGTH:"[k])
  {
  }

  // No label, no length.
  lemma {:induction false} NoLabel(lines: seq<string>)
    requires forall k :: 0 <= k < |lines| ==> !Labelled(lines[k])
    ensures Length(lines) == Some(0)
  {
    hide Labelled, ToInt;
    if lines != [] {
      NoLabel(lines[..|lines| - 1]);
    }
  }

  // Else the last labelled line decides, unless a number before it is bad.
  lemma {:induction false} LastLabelDecides(before: seq<string>, line: string, after: seq<string>)
    requires Labelled(line) && forall k :: 0 <= k < |after| ==> !Labelled(after[k])
    ensures Length(before + [line] + after) == if Length(before).None? then None else ToInt(line[15..])
    decreases |after|
  {
    hide Labelled, ToInt;
    var all := before + [line] + after;
    if after == [] {
      assert all[..|before|] == before;
    } else {
      var n := |after| - 1;
      assert all[..|before| + 1 + n] == before + [line] + after[..n];
      LastLabelDecides(before, line, after[..n]);
    }
  }

  // Numbers may have a sign and white space around them.

  predicate Spaces(t: string) { forall k :: 0 <= k < |t| ==> t[k] in {' ', '\t', '\n', '\r', 11 as char, 12 as char} }

  lemma {:induction false} LeftStripped(a: string, t: string)
    requires Spaces(a) && t != "" && !IsSpace(t[0])
    ensures StripLeft(a + t) == t
    decreases |a|
  {
    if a == "" {
      assert a + t == t;
    } else {
      assert (a + t)[1..] == a[1..] + t;
      LeftStripped(a[1..], t);
    }
  }

  lemma {:induction false} RightStripped(t: string, b: string)
    requires Spaces(b) && t != "" && !IsSpace(t[|t| - 1])
    ensures StripRight(t + b) == t
    decreases |b|
  {
    if b == "" {
      assert t + b == t;
    } else {
      var n := |b| - 1;
      assert (t + b)[..|t| + n] == t + b[..n];
      RightStripped(t, b[..n]);
    }
  }

  lemma Stripped(a: string, t: string, b: string)
    requires Spaces(a) && Spaces(b) && t != "" && !IsSpace(t[0]) && !IsSpace(t[|t| - 1])
    ensures Strip(a + t + b) == t
  {
    hide StripLeft, StripRight, IsSpace;
    assert a + t + b == a + (t + b) && (t + b)[0] == t[0];
    LeftStripped(a, t + b);
    RightStripped(t, b);
  }

  lemma DigitsNumeral(d: string)
    requires d != "" && forall k :: 0 <= k < |d| ==> '0' <= d[k] <= '9'
    ensures IsNumeral(d) && Digits(d) == d
  {
    DigitsAlone(d);
  }

  lemma Ends(sign: string, d: string)
    requires d != "" && (forall k :: 0 <= k < |d| ==> '0' <= d[k] <= '9') && (sign == "" || sign == "-" || sign == "+")
    ensures var t := sign + d; t != "" && !IsSpace(t[0]) && !IsSpace(t[|t| - 1])
  {
    var t := sign + d;
    assert t[|t| - 1] == d[|d| - 1];
    assert t[0] == if sign == "" then d[0] else sign[0];
  }

  lemma NumberRead(a: string, sign: string, d: string, b: string)
    requires Spaces(a) && Spaces(b) && (sign == "" || sign == "-" || sign == "+")
    requires d != "" && forall k :: 0 <= k < |d| ==> '0' <= d[k] <= '9'
    ensures ToInt(a + (sign + d) + b) == Some(if sign == "-" then 0 - R.Value(d, 10) else R.Value(d, 10))
  {
    hide R.Value, Strip, Digits, Spaces, IsNumeral, IsSpace, ToInt;
    Ends(sign, d);
    Stripped(a, sign + d, b);
    DigitsNumeral(d);
    SignedInt(a + (sign + d) + b, sign, d);
  }

  lemma {:induction false} LeftKeeps(s: string, c: char)
    requires c in s && !IsSpace(c)
    ensures c in StripLeft(s)
    decreases |s|
  {
    if IsSpace(s[0]) {
      assert s == [s[0]] + s[1..];
      LeftKeeps(s[1..], c);
    }
  }

  lemma {:induction false} RightKeeps(s: string, c: char)
    requires c in s && !IsSpace(c)
    ensures c in StripRight(s)
    decreases |s|
  {
    var n := |s| - 1;
    if IsSpace(s[n]) {
      assert s == s[..n] + [s[n]];
      RightKeeps(s[..n], c);
    }
  }

  // Any other character makes it no number.
  lemma NotANumber(s: string, c: char)
    requires c in s && !('0' <= c <= '9') && c !in {'_', '+', '-', ' '} && !('\t' <= c <= '\r')
    ensures ToInt(s) == None
  {
    hide StripLeft, StripRight, Digits;
    LeftKeeps(s, c);
    RightKeeps(StripLeft(s), c);
    var t := Strip(s);
    var u := if t[0] == '-' || t[0] == '+' then t[1..] else t;
    assert c in u by {
      var k :| 0 <= k < |t| && t[k] == c;
      assert u == t || u[k - 1] == c;
    }
    var j :| 0 <= j < |u| && u[j] == c;
    NotNumeral(u, j);
    hide IsNumeral;
  }

  lemma NotNumeral(u: string, j: nat)
    requires j < |u| && !IsDigit(u[j]) && u[j] != '_'
    ensures !IsNumeral(u)
  {
    assert !InNumeral(u, j);
  }

  lemma SignedInt(s: string, sign: string, d: string)
    requires Strip(s) == sign + d && d != "" && '0' <= d[0] <= '9' && IsNumeral(d) && Digits(d) == d
    requires sign == "" || sign == "-" || sign == "+"
    ensures ToInt(s) == Some(if sign == "-" then 0 - R.Value(d, 10) else R.Value(d, 10))
  {
    hide R.Value, Strip, Digits, IsNumeral;
    if sign == "" {
      assert sign + d == d;
    } else {
      assert (sign + d)[1..] == d && (sign + d)[0] == sign[0];
    }
  }

  // Frames

  lemma LowerLabel(d: string)
    ensures Labelled(F.NAME + d) && (F.NAME + d)[|LABEL|..] == " " + d
  {
  }

  lemma {:induction false} DigitsAlone(s: string)
    requires forall k :: 0 <= k < |s| ==> IsDigit(s[k])
    ensures Digits(s) == s
  {
    if s != "" {
      var n := |s| - 1;
      DigitsAlone(s[..n]);
      assert s == s[..n] + [s[n]];
    }
  }

  lemma SpacedNumber(n: nat)
    ensures ToInt(" " + R.Dec(n)) == Some(n)
  {
    hide R.Dec;
    var d := R.Dec(n);
    R.DecDigits(n);
    var s := " " + d;
    assert s[1..] == d && StripLeft(d) == d;
    assert Strip(s) == d;
    DigitsAlone(d);
    R.DecValue(n);
  }

  // No text without a carriage return holds a line break.
  lemma NoBreak(s: string, u: string, from: nat, to: nat)
    requires u != "" && u[0] == '\r'
    requires from <= to <= |s| && forall k :: from <= k < to ==> s[k] != '\r'
    ensures forall k :: from <= k < to ==> !Stands(s, k, u)
  {
  }

  lemma HeadLength(n: nat)
    ensures forall k :: 0 <= k < |F.NAME + R.Dec(n)| ==> (F.NAME + R.Dec(n))[k] != '\r'
    ensures Length(Lines(F.NAME + R.Dec(n))) == Some(n)
  {
    hide R.Dec, Labelled, ToInt;
    var d := R.Dec(n);
    var head := F.NAME + d;
    R.DecDigits(n);
    NoBreak(head, CRLF, 0, |head|);
    assert Lines(head) == [head];
    LowerLabel(d);
    SpacedNumber(n);
    assert [head][..0] == [];
  }

  lemma HeadEnds(head: string, rest: string)
    requires forall k :: 0 <= k < |head| ==> head[k] != '\r'
    ensures var s := head + F.BREAK + rest;
            Find(s, F.BREAK, 0) == Some(|head|) && s[..|head|] == head && s[|head| + |F.BREAK|..] == rest
  {
    var s := head + F.BREAK + rest;
    assert s[..|head|] == head && s[|head|..|head| + |F.BREAK|] == F.BREAK;
    assert forall k :: 0 <= k < |head| ==> s[k] == head[k];
    NoBreak(s, F.BREAK, 0, |head|);
    FindIs(s, F.BREAK, 0, |head|);
  }

  lemma FrameFirst(body: string, more: string)
    requires NoCut(more, "")
    ensures NoCut(F.Frame(body) + more, "")
    ensures Drain(F.Frame(body) + more) == Prepend([body], Drain(more))
  {
    hide Lines, Length, Find, R.Dec;
    var head, rest := F.NAME + R.Dec(|body|), body + more;
    HeadLength(|body|);
    HeadEnds(head, rest);
    assert F.Frame(body) + more == head + F.BREAK + rest;
    assert rest[..|body|] == body && rest[|body|..] == more;
  }

  lemma {:induction false} FramesRead(bodies: seq<string>)
    ensures NoCut(F.Frames(bodies), "") && Drain(F.Frames(bodies)) == Waiting(bodies, "")
  {
    hide Drain, F.Frame, NoCut;
    if bodies == [] {
      NothingYet();
    } else {
      FramesRead(bodies[1..]);
      FrameFirst(bodies[0], F.Frames(bodies[1..]));
      assert bodies == [bodies[0]] + bodies[1..];
    }
  }

  // Both decoders, on what either encoder writes, deliver exactly the messages.
  lemma DecodersAgree(bodies: seq<string>, chunks: seq<string>)
    requires F.Concat(chunks) == F.Frames(bodies)
    ensures F.Receive(chunks) == F.Decoded(bodies, "")
    ensures Receive(F.Frames(bodies)) == Waiting(bodies, "")
  {
    hide Drain, NoCut, Receive, F.Drain, F.Receive, F.Concat;
    F.ClientReceives(bodies, chunks);
    FramesRead(bodies);
    ByteByByte(F.Frames(bodies));
  }
}
