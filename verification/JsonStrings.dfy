/**
 JSON string literals (section 7 of RFC 8259). The body of a literal is cut into units, one
 per unescaped rune or escape; decoding turns units into the bytes of the value and, as the
 decoder does, replaces an unpaired surrogate by U+FFFD; encoding writes the one canonical body.
 */
module JsonStrings {
  import opened Basics
  import opened Utf8

  datatype Unit =
    | Plain(rune: Bytes)  // an unescaped rune
    | Short(letter: char) // a two-character escape
    | Hex(quad: Bytes)    // backslash, u and four hexadecimal digits
    | Broken(byte: char)  // a byte that starts no rune

  const REPLACEMENT: Bytes := EncodeScalar(0xFFFD)

  // ----- units and their text

  predicate HexDigit(c: char) {
    '0' <= c <= '9' || 'a' <= c <= 'f' || 'A' <= c <= 'F'
  }

  predicate ShortLetter(c: char) {
    c in "\"\\/bfnrt"
  }

  predicate PlainRune(r: Bytes) {
    IsRune(r) && ' ' <= r[0] && r[0] != '"' && r[0] != '\\'
  }

  predicate IsQuad(q: Bytes) {
    |q| == 4 && forall i | 0 <= i < 4 :: HexDigit(q[i])
  }

  predicate UnitOk(u: Unit) {
    match u
    case Plain(r) => PlainRune(r)
    case Short(c) => ShortLetter(c)
    case Hex(q) => IsQuad(q)
    case Broken(_) => false
  }

  predicate UnitsOk(us: seq<Unit>) {
    forall i | 0 <= i < |us| :: UnitOk(us[i])
  }

  function UnitText(u: Unit): Bytes {
    match u
    case Plain(r) => r
    case Short(c) => ['\\', c]
    case Hex(q) => ['\\', 'u'] + q
    case Broken(c) => [c]
  }

  function UnitsText(us: seq<Unit>): Bytes {
    if us == [] then "" else UnitText(us[0]) + UnitsText(us[1..])
  }

  // ----- the scanner of a literal

  /** Reads units up to the closing quote; None when the literal is malformed or unterminated. */
  function ScanString(s: Bytes): (r: Option<(seq<Unit>, Bytes)>)
    ensures r.Some? ==> |r.value.1| < |s|
    decreases |s|
  {
    if s == [] then None
    else if s[0] == '"' then Some(([], s[1..]))
    else
      var (unit, rest) :- NextUnit(s);
      var (units, after) :- ScanString(rest);
      Some(([unit] + units, after))
  }

  function NextUnit(s: Bytes): (r: Option<(Unit, Bytes)>)
    requires s != [] && s[0] != '"'
    ensures r.Some? ==> s == UnitText(r.value.0) + r.value.1 && |r.value.1| < |s|
    ensures r.Some? ==> UnitOk(r.value.0) || r.value.0.Broken?
  {
    if s[0] == '\\' then
      if |s| >= 2 && ShortLetter(s[1]) then Some((Short(s[1]), s[2..]))
      else if |s| >= 6 && s[1] == 'u' && IsQuad(s[2..6]) then Some((Hex(s[2..6]), s[6..]))
      else None
    else if s[0] < ' ' then None
    else
      var n := RuneLength(s);
      if n == 0 then Some((Broken(s[0]), s[1..])) else
      assert IsRune(s[..n]);
      Some((Plain(s[..n]), s[n..]))
  }

  lemma NextUnitOfText(u: Unit, rest: Bytes)
    requires UnitOk(u)
    ensures UnitText(u) != [] && UnitText(u)[0] != '"'
    ensures NextUnit(UnitText(u) + rest) == Some((u, rest))
  {
    match u
    case Plain(r) =>
      RuneThenRest(r, rest);
      assert (r + rest)[..|r|] == r;
    case Short(c) =>
      var s := ['\\', c] + rest;
      assert s[2..] == rest;
    case Hex(q) =>
      var s := ['\\', 'u'] + q + rest;
      assert UnitText(u) + rest == s && s[2..6] == q && s[6..] == rest;
    case Broken(_) =>
  }

  lemma UnitTextIsValid(u: Unit, rest: Bytes)
    requires UnitOk(u)
    ensures ValidUtf8(UnitText(u) + rest) <==> ValidUtf8(rest)
  {
    match u
    case Plain(r) => RuneThenRest(r, rest);
    case Short(c) => AsciiThenRest(['\\', c], rest);
    case Hex(q) => AsciiThenRest(['\\', 'u'] + q, rest);
    case Broken(_) =>
  }

  lemma {:induction false} AsciiThenRest(a: Bytes, rest: Bytes)
    requires forall i | 0 <= i < |a| :: a[i] as int < 0x80
    ensures ValidUtf8(a + rest) <==> ValidUtf8(rest)
  {
    if a == [] {
      assert a + rest == rest;
    } else {
      AsciiThenRest(a[1..], rest);
      RuneThenRest(a[..1], a[1..] + rest);
      assert a[..1] + (a[1..] + rest) == a + rest;
    }
  }

  /** Scanning the text of units gives the units back. */
  lemma {:induction false} ScanOfText(us: seq<Unit>, rest: Bytes)
    requires UnitsOk(us)
    ensures ScanString(UnitsText(us) + ['"'] + rest) == Some((us, rest))
  {
    if us == [] {
      assert UnitsText(us) + ['"'] + rest == ['"'] + rest;
    } else {
      assert us == [us[0]] + us[1..];
      TextOfCons(us[0], us[1..], rest);
      NextUnitOfText(us[0], UnitsText(us[1..]) + ['"'] + rest);
      ScanOfText(us[1..], rest);
    }
  }

  lemma {:induction false} UnitsTextIsValid(us: seq<Unit>, rest: Bytes)
    requires UnitsOk(us)
    ensures ValidUtf8(UnitsText(us) + ['"'] + rest) <==> ValidUtf8(rest)
  {
    if us == [] {
      assert UnitsText(us) + ['"'] + rest == ['"'] + rest;
      AsciiThenRest(['"'], rest);
    } else {
      assert us == [us[0]] + us[1..];
      TextOfCons(us[0], us[1..], rest);
      UnitTextIsValid(us[0], UnitsText(us[1..]) + ['"'] + rest);
      UnitsTextIsValid(us[1..], rest);
    }
  }

  lemma TextOfCons(u: Unit, us: seq<Unit>, after: Bytes)
    ensures UnitsText([u] + us) + ['"'] + after == UnitText(u) + (UnitsText(us) + ['"'] + after)
  {
    assert ([u] + us)[1..] == us;
    var a, b := UnitText(u), UnitsText(us);
    assert a + b + ['"'] + after == a + (b + ['"'] + after);
  }

  /** Scanning valid UTF-8 meets no broken byte, and the units spell what was read. */
  lemma {:induction false} TextOfScan(s: Bytes)
    requires ValidUtf8(s)
    requires ScanString(s).Some?
    ensures UnitsOk(ScanString(s).value.0)
    ensures s == UnitsText(ScanString(s).value.0) + ['"'] + ScanString(s).value.1
    ensures ValidUtf8(ScanString(s).value.1)
    decreases |s|
  {
    if s[0] == '"' {
      assert s == ['"'] + s[1..];
      AsciiThenRest(['"'], s[1..]);
    } else {
      var (u, rest) := NextUnit(s).value;
      NotBroken(s);
      UnitTextIsValid(u, rest);
      TextOfScan(rest);
      var (us, after) := ScanString(rest).value;
      TextOfCons(u, us, after);
    }
  }

  lemma NotBroken(s: Bytes)
    requires s != [] && s[0] != '"' && ValidUtf8(s)
    ensures NextUnit(s).Some? ==> UnitOk(NextUnit(s).value.0)
  {
  }

  // ----- decoding

  function HexValue(c: char): (v: int)
    requires HexDigit(c)
    ensures 0 <= v < 16
  {
    if c <= '9' then c as int - '0' as int
    else if c <= 'F' then c as int - 'A' as int + 10
    else c as int - 'a' as int + 10
  }

  function QuadValue(q: Bytes): (v: int)
    requires IsQuad(q)
    ensures 0 <= v < 0x10000
  {
    HexValue(q[0]) * 0x1000 + HexValue(q[1]) * 0x100 + HexValue(q[2]) * 0x10 + HexValue(q[3])
  }

  predicate High(code: int) {
    0xD800 <= code <= 0xDBFF
  }

  predicate Low(code: int) {
    0xDC00 <= code <= 0xDFFF
  }

  /** The value of an escape letter. */
  function ShortValue(c: char): Bytes {
    match c
    case 'b' => "\U{8}"
    case 'f' => "\U{C}"
    case 'n' => "\n"
    case 'r' => "\r"
    case 't' => "\t"
    case _ => [c]
  }

  predicate HighUnit(u: Unit) {
    u.Hex? && IsQuad(u.quad) && High(QuadValue(u.quad))
  }

  predicate LowUnit(u: Unit) {
    u.Hex? && IsQuad(u.quad) && Low(QuadValue(u.quad))
  }

  /** The bytes of a unit read on its own; a surrogate half alone and a broken byte are replaced. */
  function UnitValue(u: Unit): Bytes
  {
    match u
    case Plain(r) => r
    case Short(c) => ShortValue(c)
    case Hex(q) => if IsQuad(q) && IsScalar(QuadValue(q)) then EncodeScalar(QuadValue(q)) else REPLACEMENT
    case Broken(_) => REPLACEMENT
  }

  /** Whether the units start with a surrogate pair. */
  predicate StartsWithPair(us: seq<Unit>) {
    |us| > 1 && HighUnit(us[0]) && LowUnit(us[1])
  }

  function DecodeUnits(us: seq<Unit>): Bytes
    decreases |us|
  {
    if us == [] then ""
    else if StartsWithPair(us) then
      EncodeScalar(PairValue(QuadValue(us[0].quad), QuadValue(us[1].quad))) + DecodeUnits(us[2..])
    else UnitValue(us[0]) + DecodeUnits(us[1..])
  }

  /** The scalar a surrogate pair stands for (section 7 of RFC 8259). */
  function PairValue(high: int, low: int): (code: int)
    requires High(high) && Low(low)
    ensures IsScalar(code) && code >= 0x10000
  {
    0x10000 + (high - 0xD800) * 0x400 + (low - 0xDC00)
  }

  /** Whether decoding takes the replacement branch somewhere. */
  predicate Substitutes(us: seq<Unit>)
    decreases |us|
  {
    us != [] &&
    if StartsWithPair(us) then Substitutes(us[2..])
    else us[0].Broken? || HighUnit(us[0]) || LowUnit(us[0]) || Substitutes(us[1..])
  }

  predicate HighAt(us: seq<Unit>, i: int) {
    0 <= i < |us| && HighUnit(us[i])
  }

  predicate LowAt(us: seq<Unit>, i: int) {
    0 <= i < |us| && LowUnit(us[i])
  }

  /** Every surrogate escape is half of an adjacent high-low pair (section 2.1 of RFC 7493). */
  ghost predicate Paired(us: seq<Unit>) {
    forall i {:trigger HighAt(us, i)} {:trigger LowAt(us, i + 1)} :: HighAt(us, i) <==> LowAt(us, i + 1)
  }

  lemma PairedDrop(us: seq<Unit>, n: nat)
    requires n <= |us| && !HighAt(us, n - 1)
    requires forall i {:trigger HighAt(us, i)} :: i < n - 1 ==> (HighAt(us, i) <==> LowAt(us, i + 1))
    ensures Paired(us) <==> Paired(us[n..])
  {
    assert forall i {:trigger HighAt(us[n..], i)} :: HighAt(us[n..], i) <==> i >= 0 && HighAt(us, i + n);
    assert forall i {:trigger LowAt(us[n..], i)} :: LowAt(us[n..], i) <==> i >= 0 && LowAt(us, i + n);
    if Paired(us[n..]) {
      forall i ensures HighAt(us, i) <==> LowAt(us, i + 1) {
        assert HighAt(us[n..], i - n) <==> LowAt(us[n..], i - n + 1);
      }
    }
  }

  /** Decoding substitutes no character exactly when every surrogate escape is paired. */
  lemma {:induction false} NoSubstitutionIffPaired(us: seq<Unit>)
    requires UnitsOk(us)
    ensures !Substitutes(us) <==> Paired(us)
    decreases |us|
  {
    if us == [] {
    } else if StartsWithPair(us) {
      NoSubstitutionIffPaired(us[2..]);
      assert forall i {:trigger HighAt(us, i)} :: i < 1 ==> (HighAt(us, i) <==> LowAt(us, i + 1));
      PairedDrop(us, 2);
    } else if HighUnit(us[0]) || LowUnit(us[0]) {
      assert HighAt(us, 0) ==> !LowAt(us, 1);
      assert !HighAt(us, -1);
      assert LowAt(us, -1 + 1) || HighAt(us, 0);
    } else {
      NoSubstitutionIffPaired(us[1..]);
      assert forall i {:trigger HighAt(us, i)} :: i < 0 ==> (HighAt(us, i) <==> LowAt(us, i + 1));
      PairedDrop(us, 1);
    }
  }

  lemma UnitValueIsRune(u: Unit)
    ensures UnitOk(u) ==> IsRune(UnitValue(u))
  {
  }

  /** Decoding gives valid UTF-8, substituted or not. */
  lemma {:induction false} DecodedIsValid(us: seq<Unit>)
    requires UnitsOk(us)
    ensures ValidUtf8(DecodeUnits(us))
    decreases |us|
  {
    if us == [] {
    } else if StartsWithPair(us) {
      DecodedIsValid(us[2..]);
      RuneThenRest(EncodeScalar(PairValue(QuadValue(us[0].quad), QuadValue(us[1].quad))), DecodeUnits(us[2..]));
    } else {
      DecodedIsValid(us[1..]);
      UnitValueIsRune(us[0]);
      RuneThenRest(UnitValue(us[0]), DecodeUnits(us[1..]));
    }
  }

  // ----- encoding

  function LowerHex(v: int): (c: char)
    requires 0 <= v < 16
    ensures HexDigit(c) && HexValue(c) == v
  {
    "0123456789abcdef"[v]
  }

  /** The canonical unit of a rune: two-character escapes first, then hexadecimal ones, else the rune. */
  function CanonicalUnit(r: Bytes): (u: Unit)
    requires IsRune(r)
    ensures UnitOk(u)
  {
    if r == "\"" || r == "\\" then Short(r[0])
    else if r == "\U{8}" then Short('b')
    else if r == "\U{C}" then Short('f')
    else if r == "\n" then Short('n')
    else if r == "\r" then Short('r')
    else if r == "\t" then Short('t')
    else if r[0] < ' ' then
      var code := r[0] as int;
      Hex(['0', '0', LowerHex(code / 16), LowerHex(code % 16)])
    else if r == EncodeScalar(0x2028) then Hex("2028")
    else if r == EncodeScalar(0x2029) then Hex("2029")
    else Plain(r)
  }

  /** The body the encoder writes between the quotes; a byte that starts no rune becomes \ufffd. */
  function EncodeBody(s: Bytes): Bytes
    decreases |s|
  {
    if s == [] then ""
    else
      var n := RuneLength(s);
      if n == 0 then "\\ufffd" + EncodeBody(s[1..]) else
      assert IsRune(s[..n]);
      UnitText(CanonicalUnit(s[..n])) + EncodeBody(s[n..])
  }

  /** The units of the canonical body. */
  function CanonicalUnits(s: Bytes): (us: seq<Unit>)
    requires ValidUtf8(s)
    ensures UnitsOk(us)
    decreases |s|
  {
    if s == [] then []
    else
      var n := RuneLength(s);
      assert IsRune(s[..n]);
      [CanonicalUnit(s[..n])] + CanonicalUnits(s[n..])
  }

  lemma {:induction false} EncodeBodyIsUnitsText(s: Bytes)
    requires ValidUtf8(s)
    ensures EncodeBody(s) == UnitsText(CanonicalUnits(s))
    decreases |s|
  {
    if s != [] {
      var n := RuneLength(s);
      EncodeBodyIsUnitsText(s[n..]);
      assert IsRune(s[..n]);
      var us := CanonicalUnits(s);
      assert us[0] == CanonicalUnit(s[..n]) && us[1..] == CanonicalUnits(s[n..]);
    }
  }

  lemma CanonicalUnitDecodes(r: Bytes)
    requires IsRune(r)
    ensures UnitValue(CanonicalUnit(r)) == r
    ensures !HighUnit(CanonicalUnit(r)) && !LowUnit(CanonicalUnit(r))
  {
    var u := CanonicalUnit(r);
    if u.Hex? {
      if r[0] < ' ' {
        assert QuadValue(u.quad) == r[0] as int;
      } else if r == EncodeScalar(0x2028) {
        assert QuadValue("2028") == 0x2028;
      } else {
        assert QuadValue("2029") == 0x2029;
      }
    }
  }

  lemma DecodeAfterScalar(us: seq<Unit>)
    requires UnitsOk(us) && us != [] && !HighUnit(us[0]) && !LowUnit(us[0])
    ensures DecodeUnits(us) == UnitValue(us[0]) + DecodeUnits(us[1..])
    ensures Paired(us) <==> Paired(us[1..])
  {
    assert forall i {:trigger HighAt(us, i)} :: i < 0 ==> (HighAt(us, i) <==> LowAt(us, i + 1));
    PairedDrop(us, 1);
  }

  /** Encoding and then decoding a string returns it, and the canonical body is paired. */
  lemma {:induction false} CanonicalUnitsDecode(s: Bytes)
    requires ValidUtf8(s)
    ensures DecodeUnits(CanonicalUnits(s)) == s
    ensures Paired(CanonicalUnits(s))
    decreases |s|
  {
    var us := CanonicalUnits(s);
    if s != [] {
      var head, tail := s[..RuneLength(s)], s[RuneLength(s)..];
      assert s == head + tail;
      CanonicalUnitsDecode(tail);
      assert us[0] == CanonicalUnit(head) && us[1..] == CanonicalUnits(tail);
      assert UnitValue(us[0]) == head && !HighUnit(us[0]) && !LowUnit(us[0]) by {
        CanonicalUnitDecodes(head);
      }
      DecodeAfterScalar(us);
    }
  }
}
