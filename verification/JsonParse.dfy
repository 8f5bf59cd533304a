// What the recogniser of json_c.c computes, as functions of the text and the
// cursor.
module JsonParse {
  import opened Text
  import opened JsonGrammar

  // "return 1" or "return 0", with the place where the cursor then is.
  datatype Parsed = Done(value: nat) | Failed(at: nat)

  function SkipWs(s: string, i: nat): (j: nat)
    requires i <= |s|
    ensures i <= j <= |s|
    decreases |s| - i
  {
    if i < |s| && (s[i] == ' ' || s[i] == '\t' || s[i] == '\n' || s[i] == '\r') then SkipWs(s, i + 1) else i
  }

  function SkipDigits(s: string, i: nat): (j: nat)
    requires i <= |s|
    ensures i <= j <= |s|
    decreases |s| - i
  {
    if i < |s| && '0' <= s[i] <= '9' then SkipDigits(s, i + 1) else i
  }

  predicate Spells(s: string, i: nat, c0: char, c1: char, c2: char, c3: char) {
    i + 4 <= |s| && s[i] == c0 && s[i + 1] == c1 && s[i + 2] == c2 && s[i + 3] == c3
  }

  // One of the three literal names, told apart by the first letter.
  function ParseLiteral(s: string, i: nat): (r: Parsed)
    ensures r.Done? ==> i < r.value <= |s|
    ensures r.Failed? ==> r.at == i
  {
    if Spells(s, i, 't', 'r', 'u', 'e') || Spells(s, i, 'n', 'u', 'l', 'l') then Done(i + 4)
    else if i < |s| && s[i] == 'f' && Spells(s, i + 1, 'a', 'l', 's', 'e') then Done(i + 5)
    else Failed(i)
  }

  // One character of a string token, or one escape.
  function ParseChar(s: string, i: nat): (r: Parsed)
    requires i < |s|
    ensures r.Done? ==> i < r.value <= |s|
    ensures r.Failed? ==> i <= r.at <= |s|
  {
    if s[i] < ' ' then Failed(i)
    else if s[i] != '\\' then Done(i + 1)
    else if i + 1 >= |s| then Failed(i + 1)
    else if s[i + 1] == 'u' then
      var stop := HexStop(s, i + 2, 4);
      if stop == i + 6 then Done(stop) else Failed(stop)
    else if s[i + 1] in ['"', '\\', '/', 'b', 'f', 'n', 'r', 't'] then Done(i + 2)
    else Failed(i + 1)
  }

  // The part of a string token after its opening quote.
  function ParseChars(s: string, i: nat): (r: Parsed)
    requires i <= |s|
    ensures r.Done? ==> i < r.value <= |s|
    ensures r.Failed? ==> i <= r.at <= |s|
    decreases |s| - i
  {
    if i >= |s| then Failed(i)
    else if s[i] == '"' then Done(i + 1)
    else
      var c := ParseChar(s, i);
      if c.Failed? then c else ParseChars(s, c.value)
  }

  // The end of a run of at most n hexadecimal digits.
  function HexStop(s: string, i: nat, n: nat): (j: nat)
    requires i <= |s|
    ensures i <= j <= |s| && j <= i + n
    ensures forall k :: i <= k < j ==> IsHex(s[k])
    ensures j < i + n && j < |s| ==> !IsHex(s[j])
    decreases n
  {
    if n > 0 && i < |s| && ('0' <= s[i] <= '9' || 'a' <= s[i] <= 'f' || 'A' <= s[i] <= 'F')
    then HexStop(s, i + 1, n - 1) else i
  }

  function ParseString(s: string, i: nat): (r: Parsed)
    requires i <= |s|
    ensures r.Done? ==> i < r.value <= |s|
    ensures r.Failed? ==> i <= r.at <= |s|
  {
    if i >= |s| || s[i] != '"' then Failed(i) else ParseChars(s, i + 1)
  }

  // One or more digits.
  function ParseDigits(s: string, i: nat): (r: Parsed)
    requires i <= |s|
    ensures r.Done? ==> i < r.value <= |s|
    ensures r.Failed? ==> r.at == i
  {
    if i >= |s| || !('0' <= s[i] <= '9') then Failed(i) else Done(SkipDigits(s, i))
  }

  function ParseWhole(s: string, i: nat): (r: Parsed)
    requires i <= |s|
    ensures r.Done? ==> i < r.value <= |s|
    ensures r.Failed? ==> i <= r.at <= |s|
  {
    if i >= |s| || !('0' <= s[i] <= '9') then Failed(i)
    else if s[i] == '0' then
      if i + 1 < |s| && '0' <= s[i + 1] <= '9' then Failed(i + 1) else Done(i + 1)
    else Done(SkipDigits(s, i))
  }

  function ParseFrac(s: string, i: nat): (r: Parsed)
    requires i <= |s|
    ensures r.Done? ==> i <= r.value <= |s|
    ensures r.Failed? ==> i <= r.at <= |s|
  {
    if i < |s| && s[i] == '.' then ParseDigits(s, i + 1) else Done(i)
  }

  function ParseExp(s: string, i: nat): (r: Parsed)
    requires i <= |s|
    ensures r.Done? ==> i <= r.value <= |s|
    ensures r.Failed? ==> i <= r.at <= |s|
  {
    if i < |s| && (s[i] == 'e' || s[i] == 'E') then
      if i + 1 < |s| && (s[i + 1] == '+' || s[i + 1] == '-') then ParseDigits(s, i + 2)
      else ParseDigits(s, i + 1)
    else Done(i)
  }

  function ParseNumber(s: string, i: nat): (r: Parsed)
    requires i <= |s|
    ensures r.Done? ==> i < r.value <= |s|
    ensures r.Failed? ==> i <= r.at <= |s|
  {
    var whole := ParseWhole(s, if i < |s| && s[i] == '-' then i + 1 else i);
    if whole.Failed? then whole else
    var frac := ParseFrac(s, whole.value);
    if frac.Failed? then frac else ParseExp(s, frac.value)
  }

  // `"key" :` in an object, nothing in an array.
  function ParseKey(s: string, i: nat, kind: Kind): (r: Parsed)
    requires i <= |s|
    ensures r.Done? ==> i <= r.value <= |s|
    ensures r.Failed? ==> i <= r.at <= |s|
  {
    if kind == ArrayKind then Done(i) else
    var name := ParseString(s, i);
    if name.Failed? then name else
    var colon := SkipWs(s, name.value);
    if colon >= |s| || s[colon] != ':' then Failed(colon) else Done(SkipWs(s, colon + 1))
  }

  // The loop of parse_object and parse_array, from the start of an element.
  function ParseElems(s: string, i: nat, depth: nat, kind: Kind): (r: Parsed)
    requires i <= |s|
    ensures r.Done? ==> i < r.value <= |s|
    ensures r.Failed? ==> i <= r.at <= |s|
    decreases |s| - i, 2
  {
    var key := ParseKey(s, SkipWs(s, i), kind);
    if key.Failed? then key else
    var value := ParseValue(s, key.value, depth + 1);
    if value.Failed? then value else
    var j := SkipWs(s, value.value);
    if j < |s| && s[j] == ',' then ParseElems(s, j + 1, depth, kind)
    else if j < |s| && s[j] == Close(kind) then Done(j + 1)
    else Failed(j)
  }

  // parse_object and parse_array, standing on the opening bracket.
  function ParseContainer(s: string, i: nat, depth: nat, kind: Kind): (r: Parsed)
    requires i < |s|
    ensures r.Done? ==> i < r.value <= |s|
    ensures r.Failed? ==> i <= r.at <= |s|
    decreases |s| - i, 0
  {
    if depth > 128 then Failed(i) else
    var j := SkipWs(s, i + 1);
    if j < |s| && s[j] == Close(kind) then Done(j + 1) else ParseElems(s, j, depth, kind)
  }

  function ParseValue(s: string, i: nat, depth: nat): (r: Parsed)
    requires i <= |s|
    ensures r.Done? ==> i < r.value <= |s|
    ensures r.Failed? ==> i <= r.at <= |s|
    decreases |s| - i, 1
  {
    if i >= |s| then Failed(i)
    else if s[i] == '{' then ParseContainer(s, i, depth, ObjectKind)
    else if s[i] == '[' then ParseContainer(s, i, depth, ArrayKind)
    else if s[i] == '"' then ParseString(s, i)
    else if s[i] == '-' || '0' <= s[i] <= '9' then ParseNumber(s, i)
    else ParseLiteral(s, i)
  }

  // Phase 1 of main: white space, one value, white space, end of input.
  predicate Accepts(s: string) {
    var value := ParseValue(s, SkipWs(s, 0), 0);
    value.Done? && SkipWs(s, value.value) == |s|
  }
}
