/**
 UTF-8 as the protocol checks it before reading any JSON: the shortest-form encodings of
 the Unicode scalar values (RFC 3629, section 4), one rune at a time.
 */
module Utf8 {
  import opened Basics

  predicate Within(c: char, low: int, high: int) {
    low <= c as int <= high
  }

  predicate Continuation(c: char) {
    Within(c, 0x80, 0xBF)
  }

  /** Length in bytes of the rune `s` starts with; 0 when `s` starts with no well-formed rune. */
  function RuneLength(s: Bytes): (n: nat)
    requires s != []
    ensures n <= |s| && n <= 4
  {
    var lead := s[0] as int;
    if lead < 0x80 then 1
    else if |s| < 2 then 0
    else if 0xC2 <= lead <= 0xDF then
      if Continuation(s[1]) then 2 else 0
    else if |s| < 3 then 0
    else if 0xE0 <= lead <= 0xEF then
      var low := if lead == 0xE0 then 0xA0 else 0x80;
      var high := if lead == 0xED then 0x9F else 0xBF;
      if Within(s[1], low, high) && Continuation(s[2]) then 3 else 0
    else if |s| < 4 then 0
    else if 0xF0 <= lead <= 0xF4 then
      var low := if lead == 0xF0 then 0x90 else 0x80;
      var high := if lead == 0xF4 then 0x8F else 0xBF;
      if Within(s[1], low, high) && Continuation(s[2]) && Continuation(s[3]) then 4 else 0
    else 0
  }

  predicate IsRune(r: Bytes) {
    r != [] && RuneLength(r) == |r|
  }

  predicate ValidUtf8(s: Bytes)
    decreases |s|
  {
    s == [] ||
    var n := RuneLength(s);
    n > 0 && ValidUtf8(s[n..])
  }

  predicate IsScalar(code: int) {
    0 <= code <= 0x10FFFF && !(0xD800 <= code <= 0xDFFF)
  }

  /** The bytes of one scalar value. */
  function EncodeScalar(code: int): (r: Bytes)
    requires IsScalar(code)
    ensures IsRune(r)
  {
    if code < 0x80 then
      [code as char]
    else if code < 0x800 then
      [(0xC0 + code / 0x40) as char, (0x80 + code % 0x40) as char]
    else if code < 0x10000 then
      [(0xE0 + code / 0x1000) as char, (0x80 + code / 0x40 % 0x40) as char, (0x80 + code % 0x40) as char]
    else
      [(0xF0 + code / 0x40000) as char, (0x80 + code / 0x1000 % 0x40) as char,
       (0x80 + code / 0x40 % 0x40) as char, (0x80 + code % 0x40) as char]
  }

  /** A rune read at the front of a text is the same whatever follows it. */
  lemma RuneThenRest(r: Bytes, rest: Bytes)
    requires IsRune(r)
    ensures RuneLength(r + rest) == |r|
    ensures (r + rest)[|r|..] == rest
    ensures ValidUtf8(r + rest) <==> ValidUtf8(rest)
  {
  }

  lemma {:induction false} ValidConcat(a: Bytes, b: Bytes)
    requires ValidUtf8(a)
    ensures ValidUtf8(a + b) <==> ValidUtf8(b)
    decreases |a|
  {
    if a == [] {
      assert a + b == b;
    } else {
      var n := RuneLength(a);
      ValidConcat(a[n..], b);
      assert IsRune(a[..n]);
      RuneThenRest(a[..n], a[n..] + b);
      assert a[..n] + (a[n..] + b) == a + b;
    }
  }
}
