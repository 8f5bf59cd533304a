// The framing of the LSP base protocol: two encoders, and the client's decoder.
// A byte is a char.
module Framing {
  import opened Text
  import R = Radix

  const NAME := "Content-Length: "
  const BREAK := "\r\n\r\n"

  function DigitsEnd(s: string, i: nat): (j: nat)
    ensures i <= j && (i <= |s| ==> j <= |s|)
    ensures forall k :: i <= k < j ==> k < |s| && IsDigit(s[k])
    ensures j < |s| ==> !IsDigit(s[j])
    decreases |s| - i
  {
    if i < |s| && IsDigit(s[i]) then DigitsEnd(s, i + 1) else i
  }

  datatype Header = Header(length: nat, end: nat)

  // Content-Length: (\d+)\r\n\r\n, matched at i.
  function MatchAt(s: string, i: nat): (r: Option<Header>)
    ensures r.Some? ==> i + |NAME| + 1 + |BREAK| <= r.value.end <= |s|
  {
    var a := i + |NAME|;
    if !Stands(s, i, NAME) then None else
    var b := DigitsEnd(s, a);
    if b == a || !Stands(s, b, BREAK) then None
    else Some(Header(R.Value(s[a..b], 10), b + |BREAK|))
  }

  // The leftmost match at or after i.
  function Search(s: string, i: nat): (r: Option<Header>)
    ensures r.Some? ==> i + 21 <= r.value.end <= |s|
    decreases |s| - i
  {
    if i >= |s| then None
    else if MatchAt(s, i).Some? then MatchAt(s, i)
    else Search(s, i + 1)
  }

  function ContentLength(buffer: string): Option<Header> { Search(buffer, 0) }

  datatype Decoded = Decoded(bodies: seq<string>, rest: string)

  // Every complete message of a buffer, and what is left.
  function Drain(buffer: string): Decoded
    decreases |buffer|
  {
    var h := ContentLength(buffer);
    if h.None? || |buffer| < h.value.end + h.value.length then Decoded([], buffer) else
    var cut := h.value.end + h.value.length;
    var d := Drain(buffer[cut..]);
    Decoded([buffer[h.value.end..cut]] + d.bodies, d.rest)
  }

  class Client {
    var buffer: string
    var handled: seq<string>

    constructor ()
      ensures buffer == "" && handled == []
    {
      buffer, handled := "", [];
    }

    // The handler of the server's output.
    method OnData(chunk: string)
      modifies this
      ensures var d := Drain(old(buffer) + chunk); handled == old(handled) + d.bodies && buffer == d.rest
    {
      hide ContentLength;
      buffer := buffer + chunk;
      ghost var all := Drain(buffer);
      while true
        invariant var d := Drain(buffer); handled + d.bodies == old(handled) + all.bodies && d.rest == all.rest
        decreases |buffer|
      {
        var h := ContentLength(buffer);
        if h.None? {
          break;
        }
        if |buffer| < h.value.end + h.value.length {
          break;
        }
        var body := buffer[h.value.end..h.value.end + h.value.length];
        ghost var d := Drain(buffer);
        assert d.bodies == [body] + d.bodies[1..];
        buffer := buffer[h.value.end + h.value.length..];
        handled := handled + [body];
      }
    }
  }

  // Chunks

  function Concat(chunks: seq<string>): string {
    if chunks == [] then "" else Concat(chunks[..|chunks| - 1]) + chunks[|chunks| - 1]
  }

  // The client after these chunks.
  function Receive(chunks: seq<string>): Decoded {
    if chunks == [] then Decoded([], "") else
    var n := |chunks| - 1;
    var before := Receive(chunks[..n]);
    var d := Drain(before.rest + chunks[n]);
    Decoded(before.bodies + d.bodies, d.rest)
  }

  // A header that is complete in a buffer stays the same when more arrives.
  lemma MatchStays(s: string, t: string, i: nat)
    requires MatchAt(s, i).Some?
    ensures MatchAt(s + t, i) == MatchAt(s, i)
  {
    hide Stands;
    var a := i + |NAME|;
    var b := DigitsEnd(s, a);
    StandsIn(s, t, i, NAME);
    StandsIn(s, t, b, BREAK);
    assert s[b] == '\r' by { StandsChar(s, b, BREAK, 0); }
    DigitsEndSame(s, t, a, b);
    assert (s + t)[a..b] == s[a..b];
  }

  lemma {:induction false} DigitsEndSame(s: string, t: string, i: nat, b: nat)
    requires i <= b < |s| && DigitsEnd(s, i) == b
    ensures DigitsEnd(s + t, i) == b
    decreases |s| - i
  {
    if i < b {
      DigitsEndSame(s, t, i + 1, b);
    }
  }

  // No header text contains a second C.
  lemma OneC(s: string, i: nat, k: nat)
    requires MatchAt(s, i).Some? && i < k < MatchAt(s, i).value.end
    ensures s[k] != 'C'
  {
  }

  lemma StartsWithC(s: string, i: nat)
    requires MatchAt(s, i).Some?
    ensures s[i] == 'C'
  {
  }

  // Before a complete header, more input makes no new match.
  lemma NoNewMatch(s: string, t: string, j: nat, i: nat)
    requires j < i && MatchAt(s, i).Some? && MatchAt(s, j).None?
    ensures MatchAt(s + t, j).None?
  {
    if MatchAt(s + t, j).Some? {
      var e := MatchAt(s + t, j).value.end;
      if i < e {
        hide MatchAt;
        StartsWithC(s, i);
        OneC(s + t, j, i);
      } else {
        var a := j + |NAME|;
        var b := DigitsEnd(s + t, a);
        StandsIn(s, t, j, NAME);
        StandsIn(s, t, b, BREAK);
        DigitsEndBack(s, t, a, b);
      }
    }
  }

  lemma {:induction false} DigitsEndBack(s: string, t: string, i: nat, b: nat)
    requires i <= b < |s| && DigitsEnd(s + t, i) == b
    ensures DigitsEnd(s, i) == b
    decreases |s| - i
  {
    if i < b {
      DigitsEndBack(s, t, i + 1, b);
    }
  }

  lemma {:induction false} SearchStays(s: string, t: string, j: nat)
    requires Search(s, j).Some?
    ensures Search(s + t, j) == Search(s, j)
    decreases |s| - j
  {
    hide MatchAt;
    if MatchAt(s, j).Some? {
      MatchStays(s, t, j);
    } else {
      SearchStays(s, t, j + 1);
      var i := SearchIndex(s, j + 1);
      NoNewMatch(s, t, j, i);
    }
  }

  lemma {:induction false} SearchIndex(s: string, j: nat) returns (i: nat)
    requires Search(s, j).Some?
    ensures j <= i && MatchAt(s, i).Some?
    decreases |s| - j
  {
    hide MatchAt;
    i := j;
    if MatchAt(s, j).None? {
      i := SearchIndex(s, j + 1);
    }
  }

  // Draining in two goes is draining at once: on any bytes at all.
  lemma {:induction false} DrainTwice(s: string, t: string)
    ensures var d := Drain(s);
            var e := Drain(d.rest + t);
            Drain(s + t) == Decoded(d.bodies + e.bodies, e.rest)
    decreases |s|
  {
    hide Search;
    var h := ContentLength(s);
    if h.None? || |s| < h.value.end + h.value.length {
      var e := Drain(s + t);
      assert [] + e.bodies == e.bodies;
    } else {
      var cut := h.value.end + h.value.length;
      SearchStays(s, t, 0);
      DrainTwice(s[cut..], t);
      assert (s + t)[cut..] == s[cut..] + t;
      assert (s + t)[h.value.end..cut] == s[h.value.end..cut];
      var d, e := Drain(s[cut..]), Drain(Drain(s[cut..]).rest + t);
      assert [s[h.value.end..cut]] + (d.bodies + e.bodies) == [s[h.value.end..cut]] + d.bodies + e.bodies;
    }
  }

  // However a stream is cut into chunks, the client handles the same messages
  // and keeps the same bytes.
  lemma {:induction false} ChunkingInvariance(chunks: seq<string>)
    ensures Receive(chunks) == Drain(Concat(chunks))
  {
    hide Drain;
    if chunks == [] {
      NothingToDrain();
    } else {
      var n := |chunks| - 1;
      ChunkingInvariance(chunks[..n]);
      DrainTwice(Concat(chunks[..n]), chunks[n]);
    }
  }

  lemma NothingToDrain()
    ensures Drain("") == Decoded([], "")
  {
  }

  // The header's pattern matches where the name, one or more digits and an empty
  // line stand, and nowhere else;
  lemma MatchExactly(s: string, i: nat, h: Header)
    ensures MatchAt(s, i) == Some(h) <==> exists d :: IsHeader(s, i, h, d)
  {
    hide MatchAt, IsHeader;
    if MatchAt(s, i) == Some(h) {
      var d := MatchIs(s, i, h);
    }
    forall d | IsHeader(s, i, h, d) ensures MatchAt(s, i) == Some(h) {
      HeaderMatches(s, i, h, d);
    }
  }

  lemma MatchIs(s: string, i: nat, h: Header) returns (d: string)
    requires MatchAt(s, i) == Some(h)
    ensures IsHeader(s, i, h, d)
  {
    hide R.Value;
    var a := i + |NAME|;
    d := s[a..DigitsEnd(s, a)];
    ThreeStand(s, i, NAME, d, BREAK);
  }

  lemma HeaderMatches(s: string, i: nat, h: Header, d: string)
    requires IsHeader(s, i, h, d)
    ensures MatchAt(s, i) == Some(h)
  {
    hide R.Value;
    var a := i + |NAME|;
    ThreeStand(s, i, NAME, d, BREAK);
    assert s[a..a + |d|] == d;
    forall k | a <= k < a + |d| ensures IsDigit(s[k]) {
      assert s[k] == d[k - a];
    }
    StandsChar(s, a + |d|, BREAK, 0);
    DigitsEndIs(s, a, a + |d|);
  }

  // The header ends at h.end, and its digits are d.
  predicate IsHeader(s: string, i: nat, h: Header, d: string) {
    && d != "" && (forall k :: 0 <= k < |d| ==> '0' <= d[k] <= '9')
    && Stands(s, i, "Content-Length: " + d + "\r\n\r\n")
    && h == Header(R.Value(d, 10), i + |"Content-Length: " + d + "\r\n\r\n"|)
  }

  lemma ThreeStand(s: string, i: nat, a: string, b: string, c: string)
    ensures Stands(s, i, a + b + c) <==> Stands(s, i, a) && Stands(s, i + |a|, b) && Stands(s, i + |a| + |b|, c)
  {
    AtSlice(s, i, a + b + c);
    AtSlice(s, i, a);
    AtSlice(s, i + |a|, b);
    AtSlice(s, i + |a| + |b|, c);
    AtConcat(s, i, a + b, c);
    AtConcat(s, i, a, b);
  }

  ghost predicate FirstAt(s: string, j: nat, i: nat, h: Header) {
    j <= i && MatchAt(s, i) == Some(h) && forall k :: j <= k < i ==> MatchAt(s, k).None?
  }

  // the leftmost match counts.
  lemma {:induction false} SearchExactly(s: string, j: nat, h: Header)
    ensures Search(s, j) == Some(h) <==> exists i :: FirstAt(s, j, i, h)
    decreases |s| - j
  {
    hide MatchAt;
    if j < |s| && MatchAt(s, j).None? {
      var next := j + 1;
      SearchExactly(s, next, h);
      if i :| FirstAt(s, j, i, h) {
        assert FirstAt(s, next, i, h);
      }
      if i :| FirstAt(s, next, i, h) {
        assert FirstAt(s, j, i, h);
      }
    } else if MatchAt(s, j) == Some(h) {
      assert FirstAt(s, j, j, h);
    }
  }

  // Frames, as sendMessage and frame() write them.

  function Frame(body: string): string { NAME + R.Dec(|body|) + BREAK + body }

  function Frames(bodies: seq<string>): string {
    if bodies == [] then "" else Frame(bodies[0]) + Frames(bodies[1..])
  }

  lemma FrameHeader(body: string, more: string)
    ensures ContentLength(Frame(body) + more) == Some(Header(|body|, |NAME| + |R.Dec(|body|)| + |BREAK|))
  {
    hide R.Dec;
    var d := R.Dec(|body|);
    var s := Frame(body) + more;
    var a, b := |NAME|, |NAME| + |d|;
    R.DecDigits(|body|);
    assert s[0..a] == NAME && s[a..b] == d && s[b..b + |BREAK|] == BREAK;
    assert forall k :: a <= k < b ==> s[k] == d[k - a];
    assert s[b] == BREAK[0];
    DigitsEndIs(s, a, b);
    R.DecValue(|body|);
  }

  lemma DigitsEndIs(s: string, i: nat, b: nat)
    requires i <= b < |s| && !IsDigit(s[b]) && forall k :: i <= k < b ==> IsDigit(s[k])
    ensures DigitsEnd(s, i) == b
    decreases b - i
  {
  }

  // Any sequence of messages, whatever their bodies, framed and drained.
  lemma {:induction false} FramesDrain(bodies: seq<string>)
    ensures Drain(Frames(bodies)) == Decoded(bodies, "")
  {
    hide ContentLength, R.Dec;
    if bodies == [] {
      NothingToDrain();
    } else {
      var body, more := bodies[0], Frames(bodies[1..]);
      var s := Frame(body) + more;
      FrameHeader(body, more);
      FramesDrain(bodies[1..]);
      var end := |NAME| + |R.Dec(|body|)| + |BREAK|;
      assert s[end..end + |body|] == body;
      assert s[end + |body|..] == more;
      assert bodies == [body] + bodies[1..];
    }
  }

  // The client handles exactly the messages sent, in order, with nothing left
  // over, however their frames are cut into chunks.
  lemma ClientReceives(bodies: seq<string>, chunks: seq<string>)
    requires Concat(chunks) == Frames(bodies)
    ensures Receive(chunks) == Decoded(bodies, "")
  {
    hide Drain, Receive, Concat;
    ChunkingInvariance(chunks);
    FramesDrain(bodies);
  }
}
