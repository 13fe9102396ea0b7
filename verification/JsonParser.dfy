/**
 The strict parser: whitespace, commas and colons where the token reader of the decoder wants
 them, duplicate keys, deep nesting and non-canonical integers refused. It accepts exactly
 the legal documents of the grammar and returns what they mean.
 */
module JsonParser {
  import opened Basics
  import opened Utf8
  import opened JsonStrings
  import opened CanonicalNumbers
  import opened JsonGrammar

  // ----- the parser

  function SkipSpaces(s: Bytes): (r: Bytes)
    ensures |r| <= |s|
  {
    if s != "" && IsSpace(s[0]) then SkipSpaces(s[1..]) else s
  }

  predicate NumberChar(c: char) {
    '0' <= c <= '9' || c == '+' || c == '-' || c == '.' || c == 'e' || c == 'E'
  }

  /** Length of the longest run of characters a number may hold. */
  function NumberRun(s: Bytes): (n: nat)
    ensures n <= |s|
  {
    if s != "" && NumberChar(s[0]) then 1 + NumberRun(s[1..]) else 0
  }

  type Parsed<T> = Option<(T, Bytes)>

  /** Reads one value at nesting depth `depth`; the text left comes with it. */
  function ParseValue(s: Bytes, depth: nat): (r: Parsed<Json>)
    ensures r.Some? ==> |r.value.1| < |s|
    decreases |s|, 1
  {
    var t := SkipSpaces(s);
    if depth > MAXIMUM_DEPTH || t == "" then None else ParseHere(t, depth)
  }

  /** Reads the value that starts with the first character. */
  function ParseHere(t: Bytes, depth: nat): (r: Parsed<Json>)
    requires t != ""
    ensures r.Some? ==> |r.value.1| < |t|
    decreases |t|, 0
  {
    if t[0] == '{' then ParseMembers(t[1..], depth + 1, map[], true)
    else if t[0] == '[' then ParseElements(t[1..], depth + 1, [], true)
    else if t[0] == '"' then
      var (units, rest) :- ScanString(t[1..]);
      Some((String(DecodeUnits(units)), rest))
    else ParseScalar(t)
  }

  /** Reads a literal name or an integer. */
  function ParseScalar(t: Bytes): (r: Parsed<Json>)
    ensures r.Some? ==> |r.value.1| < |t|
  {
    if "null" <= t then Some((Null, t[4..]))
    else if "true" <= t then Some((Bool(true), t[4..]))
    else if "false" <= t then Some((Bool(false), t[5..]))
    else
      var n := NumberRun(t);
      if n > 0 && IntegerToken(t[..n]) then Some((Number(t[..n]), t[n..])) else None
  }

  /** Reads the rest of an array; `before` holds the items read so far. */
  function ParseElements(s: Bytes, depth: nat, before: seq<Json>, first: bool): (r: Parsed<Json>)
    ensures r.Some? ==> |r.value.1| < |s|
    decreases |s|, 2
  {
    var t := SkipSpaces(s);
    if t == "" then None
    else if t[0] == ']' then Some((Array(before), t[1..]))
    else if !first && t[0] != ',' then None
    else
      var (value, rest) :- ParseValue(if first then t else t[1..], depth);
      ParseElements(rest, depth, before + [value], false)
  }

  /** Reads the rest of an object; `before` holds the members read so far. */
  function ParseMembers(s: Bytes, depth: nat, before: map<Bytes, Json>, first: bool): (r: Parsed<Json>)
    ensures r.Some? ==> |r.value.1| < |s|
    decreases |s|, 3
  {
    var t := SkipSpaces(s);
    if t == "" then None
    else if t[0] == '}' then Some((Object(before), t[1..]))
    else if !first && t[0] != ',' then None
    else
      var ((key, value), rest) :- ParseMember(if first then t else t[1..], depth, before);
      ParseMembers(rest, depth, before[key := value], false)
  }

  /** Reads one member; a key read before is refused. */
  function ParseMember(s: Bytes, depth: nat, before: map<Bytes, Json>): (r: Parsed<(Bytes, Json)>)
    ensures r.Some? ==> |r.value.1| < |s|
    decreases |s|, 2
  {
    var (key, afterKey) :- ParseKey(s);
    if key in before then None else
    var (value, rest) :- ParseValue(afterKey, depth);
    Some(((key, value), rest))
  }

  /** Reads a key and the colon after it. */
  function ParseKey(s: Bytes): (r: Parsed<Bytes>)
    ensures r.Some? ==> |r.value.1| < |s|
  {
    var t := SkipSpaces(s);
    if t == "" || t[0] != '"' then None else
    var (units, afterKey) :- ScanString(t[1..]);
    var u := SkipSpaces(afterKey);
    if u == "" || u[0] != ':' then None else Some((DecodeUnits(units), u[1..]))
  }

  /** Reads one value and nothing but whitespace around it. */
  function ParseText(s: Bytes): Option<Json> {
    var (value, rest) :- ParseValue(s, 0);
    if SkipSpaces(rest) == "" then Some(value) else None
  }

  // ----- spaces and runs

  lemma {:induction false} SkipOverSpaces(spaces: Bytes, s: Bytes)
    requires Spaces(spaces) && (s != "" ==> !IsSpace(s[0]))
    ensures SkipSpaces(spaces + s) == s
  {
    if spaces == "" {
      assert spaces + s == s;
    } else {
      SkipOverSpaces(spaces[1..], s);
      assert (spaces + s)[1..] == spaces[1..] + s;
    }
  }

  lemma {:induction false} SpacesSkipped(s: Bytes) returns (spaces: Bytes)
    ensures s == spaces + SkipSpaces(s) && Spaces(spaces)
    ensures SkipSpaces(s) != "" ==> !IsSpace(SkipSpaces(s)[0])
    ensures ValidUtf8(s) ==> ValidUtf8(SkipSpaces(s))
  {
    if s != "" && IsSpace(s[0]) {
      var tail := SpacesSkipped(s[1..]);
      spaces := [s[0]] + tail;
      assert s == [s[0]] + s[1..];
      AsciiThenRest([s[0]], s[1..]);
    } else {
      spaces := "";
    }
  }

  /** What may follow a value: nothing a number could go on with. */
  predicate Stops(rest: Bytes) {
    rest == "" || !NumberChar(rest[0])
  }

  lemma {:induction false} RunOfToken(token: Bytes, rest: Bytes)
    requires forall i | 0 <= i < |token| :: NumberChar(token[i])
    requires Stops(rest)
    ensures NumberRun(token + rest) == |token|
  {
    if token == "" {
      assert token + rest == rest;
    } else {
      RunOfToken(token[1..], rest);
      assert (token + rest)[1..] == token[1..] + rest;
    }
  }

  lemma TokenChars(token: Bytes)
    requires IntegerToken(token)
    ensures token != "" && (token[0] == '-' || '0' <= token[0] <= '9')
    ensures forall i | 0 <= i < |token| :: NumberChar(token[i]) && token[i] as int < 0x80
  {
    TokenShape(token);
    var u := Unsigned(token);
    forall i | 0 <= i < |token| ensures NumberChar(token[i]) && token[i] as int < 0x80 {
      assert if token[0] == '-' then i == 0 || token[i] == u[i - 1] else token[i] == u[i];
    }
  }
}
