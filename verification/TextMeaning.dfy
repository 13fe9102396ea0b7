/**
 What JSON text means, said without its decoder: strings as lists of Unicode scalar values, with UTF-8
 read by bit positions, the eight escape letters by their code points and hexadecimal escapes by their
 positions. Every accepted text canonicalizes to the print of the one value it spells, and the canonical
 text is the only one in canonical shape that spells it.
 */
module TextMeaning {
  import opened Basics
  import opened Utf8
  import opened Ordering
  import opened JsonStrings
  import opened JsonGrammar
  import opened JsonParser
  import opened ParserCorrectness
  import opened CanonicalJson

  // ----- UTF-8 read by bit positions (RFC 3629, section 3)

  function Width(lead: char): (n: nat)
    ensures 1 <= n <= 4
  {
    if lead as int < 0x80 then 1 else if lead as int < 0xE0 then 2 else if lead as int < 0xF0 then 3 else 4
  }

  /** The six bits of a continuation byte. */
  function Six(c: char): int {
    c as int - 0x80
  }

  function ScalarOf(r: Bytes): int
    requires 1 <= |r| <= 4
  {
    match |r|
    case 1 => r[0] as int
    case 2 => (r[0] as int - 0xC0) * 0x40 + Six(r[1])
    case 3 => (r[0] as int - 0xE0) * 0x1000 + Six(r[1]) * 0x40 + Six(r[2])
    case _ => (r[0] as int - 0xF0) * 0x40000 + Six(r[1]) * 0x1000 + Six(r[2]) * 0x40 + Six(r[3])
  }

  function Scalars(s: Bytes): seq<int>
    decreases |s|
  {
    if s == "" then []
    else
      var n := Width(s[0]);
      if |s| < n then [-1] else [ScalarOf(s[..n])] + Scalars(s[n..])
  }

  lemma RuneIsRead(r: Bytes, rest: Bytes)
    requires IsRune(r)
    ensures 1 <= |r| <= 4 && Scalars(r + rest) == [ScalarOf(r)] + Scalars(rest)
  {
    assert Width(r[0]) == |r|;
    assert (r + rest)[..|r|] == r && (r + rest)[|r|..] == rest;
  }

  lemma EncodedIsRead(code: int)
    requires IsScalar(code)
    ensures ScalarOf(EncodeScalar(code)) == code
  {
    var high, six := code / 0x40, code % 0x40;
    assert code == 0x40 * high + six;
    var higher, next := high / 0x40, high % 0x40;
    assert high == 0x40 * higher + next;
    assert code / 0x1000 == higher;
    if code >= 0x10000 {
      assert higher == 0x40 * (higher / 0x40) + higher % 0x40;
      assert code / 0x40000 == higher / 0x40;
    }
  }

  lemma RuneIsDetermined(r: Bytes, q: Bytes)
    requires IsRune(r) && IsRune(q)
    ensures ScalarOf(r) == ScalarOf(q) ==> r == q
  {
    RuneRange(r);
    RuneRange(q);
    if ScalarOf(r) == ScalarOf(q) {
      BytesAreDetermined(r, q, ScalarOf(r));
      assert forall i | 0 <= i < |r| :: r[i] == q[i];
    }
  }

  lemma BytesAreDetermined(r: Bytes, q: Bytes, code: int)
    requires IsRune(r) && IsRune(q) && |r| == |q| && ScalarOf(r) == code == ScalarOf(q)
    ensures forall i | 0 <= i < |r| :: r[i] as int == q[i] as int
  {
    match |r|
    case 1 =>
    case 2 => Base64(r[0] as int - 0xC0, Six(r[1]), q[0] as int - 0xC0, Six(q[1]));
    case 3 =>
      var x, y := (r[0] as int - 0xE0) * 0x40 + Six(r[1]), (q[0] as int - 0xE0) * 0x40 + Six(q[1]);
      Base64(x, Six(r[2]), y, Six(q[2]));
      Base64(r[0] as int - 0xE0, Six(r[1]), q[0] as int - 0xE0, Six(q[1]));
    case _ =>
      var x, y := (r[0] as int - 0xF0) * 0x1000 + Six(r[1]) * 0x40 + Six(r[2]), (q[0] as int - 0xF0) * 0x1000 + Six(q[1]) * 0x40 + Six(q[2]);
      Base64(x, Six(r[3]), y, Six(q[3]));
      Base64((r[0] as int - 0xF0) * 0x40 + Six(r[1]), Six(r[2]), (q[0] as int - 0xF0) * 0x40 + Six(q[1]), Six(q[2]));
      Base64(r[0] as int - 0xF0, Six(r[1]), q[0] as int - 0xF0, Six(q[1]));
  }

  lemma Base64(a: int, b: int, c: int, d: int)
    requires 0 <= b < 0x40 && 0 <= d < 0x40 && 0x40 * a + b == 0x40 * c + d
    ensures a == c && b == d
  {
  }

  /** How long a rune is says how large its scalar is. */
  lemma RuneRange(r: Bytes)
    requires IsRune(r)
    ensures |r| == if ScalarOf(r) < 0x80 then 1 else if ScalarOf(r) < 0x800 then 2 else if ScalarOf(r) < 0x10000 then 3 else 4
    ensures IsScalar(ScalarOf(r))
  {
  }

  /** Valid UTF-8 is determined by the scalars it spells. */
  lemma {:induction false} ScalarsDetermine(s: Bytes, t: Bytes)
    requires ValidUtf8(s) && ValidUtf8(t) && Scalars(s) == Scalars(t)
    ensures s == t
    decreases |s|
  {
    if s != "" && t != "" {
      var m, n := RuneLength(s), RuneLength(t);
      RuneIsRead(s[..m], s[m..]);
      RuneIsRead(t[..n], t[n..]);
      assert s == s[..m] + s[m..] && t == t[..n] + t[n..];
      assert Scalars(s)[0] == ScalarOf(s[..m]) && Scalars(t)[0] == ScalarOf(t[..n]);
      RuneIsDetermined(s[..m], t[..n]);
      assert Scalars(s)[1..] == Scalars(s[m..]) && Scalars(t)[1..] == Scalars(t[n..]);
      ScalarsDetermine(s[m..], t[n..]);
    }
  }

  // ----- what a literal denotes (RFC 8259, section 7)

  function Letter(c: char): int {
    match c
    case '"' => 0x22
    case '\\' => 0x5C
    case '/' => 0x2F
    case 'b' => 0x08
    case 'f' => 0x0C
    case 'n' => 0x0A
    case 'r' => 0x0D
    case 't' => 0x09
    case _ => -1
  }

  function Digit16(c: char): int {
    match c
    case '0' => 0 case '1' => 1 case '2' => 2 case '3' => 3 case '4' => 4
    case '5' => 5 case '6' => 6 case '7' => 7 case '8' => 8 case '9' => 9
    case 'a' => 10 case 'b' => 11 case 'c' => 12 case 'd' => 13 case 'e' => 14 case 'f' => 15
    case 'A' => 10 case 'B' => 11 case 'C' => 12 case 'D' => 13 case 'E' => 14 case 'F' => 15
    case _ => -1
  }

  function Positional(q: Bytes): int {
    if q == "" then 0 else 16 * Positional(q[..|q| - 1]) + Digit16(q[|q| - 1])
  }

  /** The scalars a literal denotes: a pair of surrogate escapes stands for one of them. */
  function Denoted(us: seq<Unit>): seq<int>
    decreases |us|
  {
    if us == [] then []
    else
      match us[0]
      case Plain(r) => Scalars(r) + Denoted(us[1..])
      case Short(c) => [Letter(c)] + Denoted(us[1..])
      case Hex(q) =>
        var v := Positional(q);
        if 0xD800 <= v <= 0xDBFF && |us| > 1 && us[1].Hex? then
          [0x10000 + (v - 0xD800) * 0x400 + (Positional(us[1].quad) - 0xDC00)] + Denoted(us[2..])
        else [v] + Denoted(us[1..])
      case Broken(_) => [-1]
  }

  lemma DigitsAgree(c: char)
    requires HexDigit(c)
    ensures Digit16(c) == HexValue(c)
  {
  }

  lemma PositionalIsQuad(q: Bytes)
    requires IsQuad(q)
    ensures Positional(q) == QuadValue(q)
  {
    hide Digit16;
    DigitsAgree(q[0]);
    DigitsAgree(q[1]);
    DigitsAgree(q[2]);
    DigitsAgree(q[3]);
    assert q[..3][..2] == q[..2] && q[..2][..1] == q[..1] && q[..1][..0] == "";
    assert Positional(q[..1]) == Digit16(q[0]) && Positional(q[..2]) == 16 * Positional(q[..1]) + Digit16(q[1]);
    assert Positional(q[..3]) == 16 * Positional(q[..2]) + Digit16(q[2]);
  }

  lemma LetterIsRead(c: char, rest: Bytes)
    requires ShortLetter(c)
    ensures Scalars(ShortValue(c) + rest) == [Letter(c)] + Scalars(rest)
  {
    RuneIsRead(ShortValue(c), rest);
  }

  lemma QuadIsRead(q: Bytes, rest: Bytes)
    requires IsQuad(q) && IsScalar(QuadValue(q))
    ensures Scalars(UnitValue(Hex(q)) + rest) == [Positional(q)] + Scalars(rest)
  {
    hide Positional, QuadValue, Scalars, ScalarOf, EncodeScalar;
    PositionalIsQuad(q);
    EncodedIsRead(QuadValue(q));
    RuneIsRead(EncodeScalar(QuadValue(q)), rest);
  }

  lemma LoneUnitDenotes(u: Unit, rest: Bytes)
    requires UnitOk(u) && !HighUnit(u) && !LowUnit(u)
    ensures Scalars(UnitValue(u) + rest) == Denoted([u]) + Scalars(rest)
  {
    hide Scalars, Letter, ShortValue, Positional, QuadValue, EncodeScalar, ShortLetter, ScalarOf;
    LoneDenoted(u);
    match u
    case Plain(r) =>
      RuneIsRead(r, rest);
      RuneIsRead(r, "");
      assert r + "" == r && Scalars("") == [] by { NothingIsRead(); }
    case Short(c) => LetterIsRead(c, rest);
    case Hex(q) => QuadIsRead(q, rest);
    case Broken(_) =>
  }

  lemma NothingIsRead()
    ensures Scalars("") == []
  {
  }

  lemma LoneDenoted(u: Unit)
    ensures Denoted([u]) ==
            match u
            case Plain(r) => Scalars(r)
            case Short(c) => [Letter(c)]
            case Hex(q) => [Positional(q)]
            case Broken(_) => [-1]
  {
    hide Scalars, Letter, Positional;
    assert [u][1..] == [] && Denoted([]) == [];
    if u.Plain? {
      assert Scalars(u.rune) + [] == Scalars(u.rune);
    }
  }

  lemma PairIsRead(us: seq<Unit>, rest: Bytes)
    requires StartsWithPair(us)
    ensures var code := PairValue(QuadValue(us[0].quad), QuadValue(us[1].quad));
            && Scalars(EncodeScalar(code) + rest) == [code] + Scalars(rest)
            && Denoted(us) == [code] + Denoted(us[2..])
  {
    hide Positional, QuadValue, Scalars, ScalarOf, EncodeScalar, Letter;
    PositionalIsQuad(us[0].quad);
    PositionalIsQuad(us[1].quad);
    var code := PairValue(QuadValue(us[0].quad), QuadValue(us[1].quad));
    EncodedIsRead(code);
    RuneIsRead(EncodeScalar(code), rest);
  }

  lemma PairedAfterPair(us: seq<Unit>)
    requires Paired(us) && StartsWithPair(us)
    ensures Paired(us[2..])
  {
    assert forall i {:trigger HighAt(us, i)} :: i < 1 ==> (HighAt(us, i) <==> LowAt(us, i + 1));
    PairedDrop(us, 2);
  }

  lemma FirstIsNoHalf(us: seq<Unit>)
    requires Paired(us) && us != [] && !StartsWithPair(us)
    ensures !HighUnit(us[0]) && !LowUnit(us[0])
  {
    assert HighAt(us, 0) <==> LowAt(us, 1);
    assert HighAt(us, -1) <==> LowAt(us, 0);
  }

  /** Decoding a literal gives exactly the scalars it denotes. */
  lemma {:induction false} DecodingDenotes(us: seq<Unit>)
    requires UnitsOk(us) && Paired(us)
    ensures Scalars(DecodeUnits(us)) == Denoted(us)
    decreases |us|
  {
    hide Scalars, Denoted, EncodeScalar, UnitValue, Paired, QuadValue;
    if us == [] {
      NothingIsRead();
      NothingIsDenoted();
    } else if StartsWithPair(us) {
      PairedAfterPair(us);
      DecodingDenotes(us[2..]);
      PairIsRead(us, DecodeUnits(us[2..]));
    } else {
      FirstIsNoHalf(us);
      DecodeAfterScalar(us);
      LoneUnitDenotes(us[0], DecodeUnits(us[1..]));
      DecodingDenotes(us[1..]);
      DenotedFirst(us);
    }
  }

  lemma NothingIsDenoted()
    ensures Denoted([]) == []
  {
  }

  lemma DenotedFirst(us: seq<Unit>)
    requires us != [] && UnitOk(us[0]) && !HighUnit(us[0])
    ensures Denoted(us) == Denoted([us[0]]) + Denoted(us[1..])
  {
    hide Scalars, Letter, Positional, QuadValue;
    LoneDenoted(us[0]);
    if us[0].Hex? {
      PositionalIsQuad(us[0].quad);
    }
  }

  // ----- the value a document spells

  ghost predicate SpellsText(us: seq<Unit>, s: Bytes) {
    ValidUtf8(s) && Scalars(s) == Denoted(us)
  }

  ghost predicate Spells(c: Cst, v: Json) {
    match c
    case CNull => v == Null
    case CBool(b) => v == Bool(b)
    case CNumber(t) => v == Number(t)
    case CString(us) => v.String? && SpellsText(us, v.s)
    case CArray(es) => v.Array? && SpellsItems(es, v.items)
    case CObject(ms) => v.Object? && SpellsMembers(ms, map[], v.fields)
  }

  ghost predicate SpellsItems(e: Elements, items: seq<Json>) {
    match e
    case EndOfArray(_) => items == []
    case Element(_, _, value, tail) => items != [] && Spells(value, items[0]) && SpellsItems(tail, items[1..])
  }

  /** The members lead from the fields before to those after. */
  ghost predicate SpellsMembers(m: Members, before: map<Bytes, Json>, after: map<Bytes, Json>) {
    match m
    case EndOfObject(_) => before == after
    case Member(_, _, key, _, _, value, tail) =>
      exists k, x :: SpellsText(key, k) && Spells(value, x) && SpellsMembers(tail, before[k := x], after)
  }

  lemma DecodedIsSpelled(us: seq<Unit>)
    requires UnitsOk(us) && Paired(us)
    ensures SpellsText(us, DecodeUnits(us))
  {
    DecodingDenotes(us);
    DecodedIsValid(us);
  }

  lemma {:induction false} MeaningIsSpelled(c: Cst, depth: nat)
    requires Legal(c, depth) && AllPaired(c)
    ensures Spells(c, Meaning(c))
  {
    hide SpellsText;
    match c
    case CString(us) => DecodedIsSpelled(us);
    case CArray(es) => ItemsAreSpelled(es, depth + 1);
    case CObject(ms) => MembersAreSpelled(ms, depth + 1, {}, map[]);
    case _ =>
  }

  lemma {:induction false} ItemsAreSpelled(e: Elements, depth: nat)
    requires LegalElements(e, depth) && ElementsPaired(e)
    ensures SpellsItems(e, ElementsMeaning(e))
  {
    hide Spells;
    if e.Element? {
      MeaningIsSpelled(e.value, depth);
      ItemsAreSpelled(e.tail, depth);
      assert ElementsMeaning(e)[1..] == ElementsMeaning(e.tail);
    }
  }

  lemma {:induction false} MembersAreSpelled(m: Members, depth: nat, seen: set<Bytes>, before: map<Bytes, Json>)
    requires LegalMembers(m, depth, seen) && MembersPaired(m)
    ensures SpellsMembers(m, before, MembersMeaning(m, before))
  {
    hide Spells, SpellsText;
    if m.Member? {
      var k, x := DecodeUnits(m.key), Meaning(m.value);
      DecodedIsSpelled(m.key);
      MeaningIsSpelled(m.value, depth);
      MembersAreSpelled(m.tail, depth, seen + {k}, before[k := x]);
    }
  }

  lemma TextIsUnique(us: seq<Unit>, s: Bytes, t: Bytes)
    requires SpellsText(us, s) && SpellsText(us, t)
    ensures s == t
  {
    ScalarsDetermine(s, t);
  }

  /** A document spells one value at most. */
  lemma {:induction false} SpelledIsUnique(c: Cst, v: Json, w: Json)
    requires Spells(c, v) && Spells(c, w)
    ensures v == w
  {
    hide SpellsText;
    match c
    case CString(us) => TextIsUnique(us, v.s, w.s);
    case CArray(es) => ItemsAreUnique(es, v.items, w.items);
    case CObject(ms) => MembersAreUnique(ms, map[], v.fields, w.fields);
    case _ =>
  }

  lemma {:induction false} ItemsAreUnique(e: Elements, a: seq<Json>, b: seq<Json>)
    requires SpellsItems(e, a) && SpellsItems(e, b)
    ensures a == b
  {
    hide Spells;
    if e.Element? {
      SpelledIsUnique(e.value, a[0], b[0]);
      ItemsAreUnique(e.tail, a[1..], b[1..]);
      assert a == [a[0]] + a[1..] && b == [b[0]] + b[1..];
    }
  }

  lemma {:induction false} MembersAreUnique(m: Members, before: map<Bytes, Json>, a: map<Bytes, Json>, b: map<Bytes, Json>)
    requires SpellsMembers(m, before, a) && SpellsMembers(m, before, b)
    ensures a == b
  {
    hide Spells, SpellsText;
    if m.Member? {
      var k, x :| SpellsText(m.key, k) && Spells(m.value, x) && SpellsMembers(m.tail, before[k := x], a);
      var l, y :| SpellsText(m.key, l) && Spells(m.value, y) && SpellsMembers(m.tail, before[l := y], b);
      TextIsUnique(m.key, k, l);
      SpelledIsUnique(m.value, x, y);
      MembersAreUnique(m.tail, before[k := x], a, b);
    }
  }

  // ----- the canonical shape

  /** How a canonical text writes a character: seven letters, control characters and line separators in hexadecimal, all else plain. */
  predicate ShortestUnit(u: Unit) {
    match u
    case Plain(r) => Scalars(r) != [0x2028] && Scalars(r) != [0x2029]
    case Short(c) => c in {'"', '\\', 'b', 'f', 'n', 'r', 't'}
    case Hex(q) =>
      && (forall i | 0 <= i < |q| :: !('A' <= q[i] <= 'F'))
      && (Positional(q) in {0x2028, 0x2029} || (0 <= Positional(q) < 0x20 && Positional(q) !in {0x08, 0x09, 0x0A, 0x0C, 0x0D}))
    case Broken(_) => false
  }

  predicate ShortestUnits(us: seq<Unit>) {
    forall i | 0 <= i < |us| :: ShortestUnit(us[i])
  }

  /** Byte order, by the first place of difference. */
  ghost predicate Below(a: Bytes, b: Bytes) {
    exists n: nat :: n <= |a| && n <= |b| && a[..n] == b[..n] && n < |b| && (n == |a| || a[n] < b[n])
  }

  ghost predicate Ascending(keys: seq<Bytes>) {
    forall i, j | 0 <= i < j < |keys| :: Below(keys[i], keys[j])
  }

  ghost predicate SpellsKeys(m: Members, keys: seq<Bytes>) {
    match m
    case EndOfObject(_) => keys == []
    case Member(_, _, key, _, _, _, tail) => keys != [] && SpellsText(key, keys[0]) && SpellsKeys(tail, keys[1..])
  }

  /** No whitespace, keys in ascending byte order, every character in its shortest spelling. */
  ghost predicate InShape(c: Cst) {
    match c
    case CString(us) => ShortestUnits(us)
    case CArray(es) => ElementsInShape(es)
    case CObject(ms) => MembersInShape(ms) && exists keys :: SpellsKeys(ms, keys) && Ascending(keys)
    case _ => true
  }

  ghost predicate ElementsInShape(e: Elements) {
    e.gap == "" && (e.Element? ==> e.lead == "" && InShape(e.value) && ElementsInShape(e.tail))
  }

  ghost predicate MembersInShape(m: Members) {
    && m.gap == ""
    && (m.Member? ==>
          && m.lead == "" && m.colon == "" && m.valueLead == "" && ShortestUnits(m.key)
          && InShape(m.value) && MembersInShape(m.tail))
  }

  // ----- the canonical text has the shape, and nothing else has

  lemma HexIsPositional(v: int)
    requires 0 <= v < 0x20
    ensures var q := ['0', '0', LowerHex(v / 16), LowerHex(v % 16)];
            IsQuad(q) && Positional(q) == v && forall i | 0 <= i < 4 :: !('A' <= q[i] <= 'F')
  {
    var q := ['0', '0', LowerHex(v / 16), LowerHex(v % 16)];
    PositionalIsQuad(q);
  }

  lemma SeparatorQuads()
    ensures IsQuad("2028") && IsQuad("2029") && Positional("2028") == 0x2028 && Positional("2029") == 0x2029
    ensures forall i | 0 <= i < 4 :: !('A' <= "2028"[i] <= 'F') && !('A' <= "2029"[i] <= 'F')
  {
    PositionalIsQuad("2028");
    PositionalIsQuad("2029");
  }

  lemma ControlIsShortest(r: Bytes)
    requires IsRune(r) && r[0] < ' '
    ensures ShortestUnit(CanonicalUnit(r))
  {
    hide Positional, LowerHex, EncodeScalar;
    HexIsPositional(r[0] as int);
    assert r[0] as int == 0x08 ==> r == "\U{8}";
    assert r[0] as int == 0x09 ==> r == "\t";
    assert r[0] as int == 0x0A ==> r == "\n";
    assert r[0] as int == 0x0C ==> r == "\U{C}";
    assert r[0] as int == 0x0D ==> r == "\r";
  }

  lemma CanonicalUnitIsShortest(r: Bytes)
    requires IsRune(r)
    ensures ShortestUnit(CanonicalUnit(r))
  {
    hide Positional, Scalars, EncodeScalar, LowerHex;
    if r[0] < ' ' {
      ControlIsShortest(r);
    } else {
      SeparatorQuads();
      NothingIsRead();
      RuneIsRead(r, "");
      assert r + "" == r;
      EncodedIsRead(0x2028);
      EncodedIsRead(0x2029);
      RuneIsDetermined(r, EncodeScalar(0x2028));
      RuneIsDetermined(r, EncodeScalar(0x2029));
      assert Scalars(r) == [ScalarOf(r)];
      if r == EncodeScalar(0x2028) {
        assert CanonicalUnit(r) == Hex("2028");
      } else if r == EncodeScalar(0x2029) {
        assert CanonicalUnit(r) == Hex("2029");
      } else if CanonicalUnit(r).Short? {
        assert CanonicalUnit(r).letter in {'"', '\\'};
      } else {
        assert ScalarOf(r) != 0x2028 && ScalarOf(r) != 0x2029;
      }
    }
  }

  /** A shortest unit is the one the printer writes for what it denotes, and no half of a pair. */
  lemma ShortestUnitIsCanonical(u: Unit)
    requires UnitOk(u) && ShortestUnit(u)
    ensures !HighUnit(u) && !LowUnit(u)
    ensures IsRune(UnitValue(u)) && CanonicalUnit(UnitValue(u)) == u
  {
    UnitValueIsRune(u);
    match u
    case Plain(r) => PlainIsCanonical(r);
    case Short(c) =>
    case Hex(q) => HexIsCanonical(q);
    case Broken(_) =>
  }

  lemma PlainIsCanonical(r: Bytes)
    requires PlainRune(r) && ShortestUnit(Plain(r))
    ensures CanonicalUnit(r) == Plain(r)
  {
    hide Scalars, EncodeScalar, ScalarOf;
    NothingIsRead();
    EncodedIsRead(0x2028);
    EncodedIsRead(0x2029);
    RuneIsRead(EncodeScalar(0x2028), "");
    RuneIsRead(EncodeScalar(0x2029), "");
    assert EncodeScalar(0x2028) + "" == EncodeScalar(0x2028) && EncodeScalar(0x2029) + "" == EncodeScalar(0x2029);
  }

  lemma HexIsCanonical(q: Bytes)
    requires IsQuad(q) && ShortestUnit(Hex(q))
    ensures !HighUnit(Hex(q)) && !LowUnit(Hex(q)) && IsScalar(QuadValue(q))
    ensures CanonicalUnit(EncodeScalar(QuadValue(q))) == Hex(q)
  {
    PositionalIsQuad(q);
    hide Positional;
    if QuadValue(q) < 0x20 {
      LowQuad(q);
    } else {
      SeparatorQuads();
      LowerQuad(q, if QuadValue(q) == 0x2028 then "2028" else "2029");
    }
  }

  lemma LowQuad(q: Bytes)
    requires IsQuad(q) && QuadValue(q) < 0x20 && forall i | 0 <= i < |q| :: !('A' <= q[i] <= 'F')
    ensures q == ['0', '0', LowerHex(QuadValue(q) / 16), LowerHex(QuadValue(q) % 16)]
  {
    var v := QuadValue(q);
    var p := ['0', '0', LowerHex(v / 16), LowerHex(v % 16)];
    assert HexValue(q[0]) == 0 && HexValue(q[1]) == 0;
    assert HexValue(q[2]) == v / 16 && HexValue(q[3]) == v % 16;
    LowerDigits(q[0], '0');
    LowerDigits(q[1], '0');
    LowerDigits(q[2], LowerHex(v / 16));
    LowerDigits(q[3], LowerHex(v % 16));
  }

  lemma LowerDigits(c: char, d: char)
    requires HexDigit(c) && HexDigit(d) && !('A' <= c <= 'F') && !('A' <= d <= 'F') && HexValue(c) == HexValue(d)
    ensures c == d
  {
    assert (c as int - '0' as int) in {0, 1, 2, 3, 4, 5, 6, 7, 8, 9} || (c as int - 'a' as int) in {0, 1, 2, 3, 4, 5};
    assert c as int == d as int;
  }

  lemma LowerQuad(q: Bytes, p: Bytes)
    requires IsQuad(q) && IsQuad(p) && QuadValue(q) == QuadValue(p)
    requires forall i | 0 <= i < 4 :: !('A' <= q[i] <= 'F') && !('A' <= p[i] <= 'F')
    ensures q == p
  {
    QuadDigits(HexValue(q[0]), HexValue(q[1]), HexValue(q[2]), HexValue(q[3]),
               HexValue(p[0]), HexValue(p[1]), HexValue(p[2]), HexValue(p[3]));
    forall i | 0 <= i < 4 ensures q[i] == p[i] {
      LowerDigits(q[i], p[i]);
    }
  }

  lemma QuadDigits(a: int, b: int, c: int, d: int, e: int, f: int, g: int, h: int)
    requires 0 <= a < 16 && 0 <= b < 16 && 0 <= c < 16 && 0 <= d < 16 && 0 <= e < 16 && 0 <= f < 16 && 0 <= g < 16 && 0 <= h < 16
    requires a * 0x1000 + b * 0x100 + c * 0x10 + d == e * 0x1000 + f * 0x100 + g * 0x10 + h
    ensures a == e && b == f && c == g && d == h
  {
  }

  lemma {:induction false} ShortestIsCanonical(us: seq<Unit>)
    requires UnitsOk(us) && ShortestUnits(us)
    ensures Paired(us) && ValidUtf8(DecodeUnits(us)) && us == CanonicalUnits(DecodeUnits(us))
  {
    DecodedIsValid(us);
    hide ShortestUnit, UnitValue, CanonicalUnit, EncodeScalar;
    if us == [] {
    } else {
      ShortestUnitIsCanonical(us[0]);
      ShortestIsCanonical(us[1..]);
      DecodeAfterScalar(us);
      var r, rest := UnitValue(us[0]), DecodeUnits(us[1..]);
      RuneThenRest(r, rest);
      assert (r + rest)[..|r|] == r && us == [us[0]] + us[1..];
    }
  }

  lemma {:induction false} CanonicalIsShortest(s: Bytes)
    requires ValidUtf8(s)
    ensures ShortestUnits(CanonicalUnits(s))
    decreases |s|
  {
    hide ShortestUnit, CanonicalUnit;
    if s != "" {
      CanonicalUnitIsShortest(s[..RuneLength(s)]);
      CanonicalIsShortest(s[RuneLength(s)..]);
    }
  }

  // ----- byte order

  lemma {:induction false} BelowIsStrict(a: Bytes, b: Bytes)
    ensures Below(a, b) <==> LessEq(a, b) && a != b
  {
    if Below(a, b) {
      var n: nat :| n <= |a| && n <= |b| && a[..n] == b[..n] && n < |b| && (n == |a| || a[n] < b[n]);
      BelowAt(a, b, n);
    }
    if LessEq(a, b) && a != b {
      var n := FirstDifference(a, b);
    }
  }

  lemma {:induction false} BelowAt(a: Bytes, b: Bytes, n: nat)
    requires n <= |a| && n <= |b| && a[..n] == b[..n] && n < |b| && (n == |a| || a[n] < b[n])
    ensures LessEq(a, b) && a != b
  {
    if n > 0 {
      assert a[0] == a[..n][0] == b[..n][0] == b[0];
      assert a[1..][..n - 1] == a[..n][1..] == b[..n][1..] == b[1..][..n - 1];
      BelowAt(a[1..], b[1..], n - 1);
    }
  }

  lemma {:induction false} FirstDifference(a: Bytes, b: Bytes) returns (n: nat)
    requires LessEq(a, b) && a != b
    ensures n <= |a| && n <= |b| && a[..n] == b[..n] && n < |b| && (n == |a| || a[n] < b[n])
  {
    if a == "" || a[0] < b[0] {
      n := 0;
    } else {
      assert a == [a[0]] + a[1..] && b == [b[0]] + b[1..];
      var m := FirstDifference(a[1..], b[1..]);
      n := m + 1;
      assert a[..n] == [a[0]] + a[1..][..m] && b[..n] == [b[0]] + b[1..][..m];
    }
  }

  // ----- documents in shape

  ghost function DecodedKeys(m: Members): seq<Bytes> {
    if m.EndOfObject? then [] else [DecodeUnits(m.key)] + DecodedKeys(m.tail)
  }

  lemma {:induction false} KeysAreDecoded(m: Members, depth: nat, seen: set<Bytes>, keys: seq<Bytes>)
    requires LegalMembers(m, depth, seen) && MembersInShape(m) && SpellsKeys(m, keys)
    ensures keys == DecodedKeys(m)
  {
    hide Legal, InShape, SpellsText;
    if m.Member? {
      ShortestIsCanonical(m.key);
      DecodedIsSpelled(m.key);
      TextIsUnique(m.key, keys[0], DecodeUnits(m.key));
      KeysAreDecoded(m.tail, depth, seen + {DecodeUnits(m.key)}, keys[1..]);
      assert keys == [keys[0]] + keys[1..];
    }
  }

  lemma AscendingIsSorted(keys: seq<Bytes>)
    requires Ascending(keys)
    ensures Sorted(keys, Self) && Distinct(keys)
  {
    hide Below;
    forall i, j | 0 <= i < j < |keys| ensures LessEq(Self(keys[i]), Self(keys[j])) && keys[i] != keys[j] {
      BelowIsStrict(keys[i], keys[j]);
    }
  }

  /** Keys in ascending order are the sorted keys of the set they make up. */
  lemma AscendingIsSortedKeys(keys: seq<Bytes>, s: set<Bytes>)
    requires Ascending(keys) && multiset(keys) == multiset(s)
    ensures SortedKeys(s) == keys
  {
    hide Below, LessEq;
    AscendingIsSorted(keys);
    SortedKeysOfListing(keys, s);
    SortSorts(keys, Self);
    SortedIsUnique(Sort(keys, Self), keys, Self);
  }

  /** The fields of the members of a legal object: each key once, under its value. */
  lemma {:induction false} FieldsOfMembers(m: Members, depth: nat, before: map<Bytes, Json>)
    requires LegalMembers(m, depth, before.Keys)
    ensures MembersMeaning(m, before).Keys == before.Keys + set k | k in DecodedKeys(m)
    ensures forall k | k in before :: MembersMeaning(m, before)[k] == before[k]
    ensures forall k | k in DecodedKeys(m) :: k !in before
    ensures Distinct(DecodedKeys(m))
  {
    hide Legal, Meaning;
    if m.Member? {
      var k := DecodeUnits(m.key);
      var with := before[k := Meaning(m.value)];
      assert with.Keys == before.Keys + {k};
      FieldsOfMembers(m.tail, depth, with);
    }
  }

  lemma {:induction false} DistinctIsSet(keys: seq<Bytes>)
    requires Distinct(keys)
    ensures multiset(keys) == multiset(set k | k in keys)
  {
    if keys != [] {
      DistinctIsSet(keys[1..]);
      assert keys == [keys[0]] + keys[1..];
      assert (set k | k in keys) == {keys[0]} + set k | k in keys[1..];
    }
  }

  /** A legal document in shape is the canonical document of what it means. */
  lemma {:induction false} ShapeIsCanonical(c: Cst, depth: nat)
    requires Legal(c, depth) && InShape(c)
    ensures AllPaired(c) && Carried(Meaning(c), depth) && CanonicalCst(Meaning(c), depth) == c
    decreases c, 1
  {
    MeaningIsCarried(c, depth);
    match c
    case CString(us) => ShortestIsCanonical(us);
    case CArray(es) => ElementsAreCanonical(es, depth + 1);
    case CObject(ms) => ObjectIsCanonical(c, depth);
    case _ =>
  }

  lemma {:induction false} ElementsAreCanonical(e: Elements, depth: nat)
    requires LegalElements(e, depth) && ElementsInShape(e)
    ensures ElementsPaired(e) && (forall i | 0 <= i < |ElementsMeaning(e)| :: Carried(ElementsMeaning(e)[i], depth))
    ensures CanonicalElements(ElementsMeaning(e), depth) == e
    decreases e, 0
  {
    ElementsAreCarried(e, depth);
    if e.Element? {
      ShapeIsCanonical(e.value, depth);
      ElementsAreCanonical(e.tail, depth);
      assert ElementsMeaning(e)[1..] == ElementsMeaning(e.tail);
    }
  }

  lemma {:induction false} ObjectIsCanonical(c: Cst, depth: nat)
    requires c.CObject? && Legal(c, depth) && InShape(c)
    ensures AllPaired(c) && Carried(Meaning(c), depth) && CanonicalCst(Meaning(c), depth) == c
    decreases c, 0
  {
    MeaningIsCarried(c, depth);
    var m, v := c.members, Meaning(c);
    var none: map<Bytes, Json> := map[];
    assert none.Keys == {};
    var keys :| SpellsKeys(m, keys) && Ascending(keys);
    KeysAreDecoded(m, depth + 1, {}, keys);
    FieldsOfMembers(m, depth + 1, none);
    DistinctIsSet(keys);
    AscendingIsSortedKeys(keys, v.fields.Keys);
    MembersAreCanonical(v, m, depth, none);
  }

  /** The members from here on are the canonical members of the fields they end up in. */
  lemma {:induction false} MembersAreCanonical(v: Json, m: Members, depth: nat, before: map<Bytes, Json>)
    requires v.Object? && Carried(v, depth) && LegalMembers(m, depth + 1, before.Keys) && MembersInShape(m)
    requires MembersMeaning(m, before) == v.fields
    ensures MembersPaired(m) && CanonicalMembers(v, depth, DecodedKeys(m)) == m
    decreases m, 0
  {
    hide Legal, InShape, Carried, Below;
    if m.Member? {
      var k, x := DecodeUnits(m.key), Meaning(m.value);
      var with := before[k := x];
      assert with.Keys == before.Keys + {k};
      ShortestIsCanonical(m.key);
      ShapeIsCanonical(m.value, depth + 1);
      FieldsOfMembers(m.tail, depth + 1, with);
      assert v.fields[k] == x;
      MembersAreCanonical(v, m.tail, depth, with);
      assert DecodedKeys(m)[1..] == DecodedKeys(m.tail) && DecodedKeys(m)[0] == k;
      CanonicalFirst(v, depth, DecodedKeys(m));
    }
  }

  lemma CanonicalFirst(v: Json, depth: nat, keys: seq<Bytes>)
    requires v.Object? && Carried(v, depth) && keys != [] && keys[0] in v.fields
    ensures ValidUtf8(keys[0]) && Carried(v.fields[keys[0]], depth + 1)
    ensures CanonicalMembers(v, depth, keys) ==
            Member("", "", CanonicalUnits(keys[0]), "", "", CanonicalCst(v.fields[keys[0]], depth + 1), CanonicalMembers(v, depth, keys[1..]))
  {
  }

  lemma {:induction false} CanonicalHasShape(v: Json, depth: nat)
    requires Carried(v, depth)
    ensures InShape(CanonicalCst(v, depth))
    decreases v, 1
  {
    match v
    case String(s) => CanonicalIsShortest(s);
    case Array(items) => ItemsHaveShape(items, depth + 1);
    case Object(fields) => ObjectHasShape(v, depth);
    case _ =>
  }

  lemma {:induction false} ItemsHaveShape(items: seq<Json>, depth: nat)
    requires forall i | 0 <= i < |items| :: Carried(items[i], depth)
    ensures ElementsInShape(CanonicalElements(items, depth))
    decreases items
  {
    if items != [] {
      CanonicalHasShape(items[0], depth);
      ItemsHaveShape(items[1..], depth);
    }
  }

  lemma {:induction false} ObjectHasShape(v: Json, depth: nat)
    requires v.Object? && Carried(v, depth)
    ensures InShape(CanonicalCst(v, depth))
    decreases v, 0
  {
    var keys := SortedKeys(v.fields.Keys);
    SortedKeysOfListing(Listing(v.fields.Keys), v.fields.Keys);
    assert forall k | k in keys :: k in v.fields by {
      assert forall k | k in keys :: k in multiset(keys);
    }
    MembersHaveShape(v, depth, keys);
    SortedKeysAscend(v.fields.Keys);
    var m := CanonicalMembers(v, depth, keys);
    assert SpellsKeys(m, keys) && Ascending(keys);
  }

  lemma {:induction false} MembersHaveShape(v: Json, depth: nat, keys: seq<Bytes>)
    requires v.Object? && Carried(v, depth) && forall k | k in keys :: k in v.fields
    ensures MembersInShape(CanonicalMembers(v, depth, keys)) && SpellsKeys(CanonicalMembers(v, depth, keys), keys)
    decreases v, 0, |keys|
  {
    hide InShape, SpellsText;
    if keys != [] {
      CanonicalFirst(v, depth, keys);
      CanonicalIsShortest(keys[0]);
      CanonicalUnitsDecode(keys[0]);
      DecodedIsSpelled(CanonicalUnits(keys[0]));
      CanonicalHasShape(v.fields[keys[0]], depth + 1);
      MembersHaveShape(v, depth, keys[1..]);
    }
  }

  lemma SortedKeysAscend(s: set<Bytes>)
    ensures Ascending(SortedKeys(s))
  {
    var keys := SortedKeys(s);
    SortSorts(Listing(s), Self);
    SortedKeysOfListing(Listing(s), s);
    hide Below, LessEq;
    forall i, j | 0 <= i < j < |keys| ensures Below(keys[i], keys[j]) {
      assert LessEq(Self(keys[i]), Self(keys[j]));
      ListedOnce(keys, s, i, j);
      BelowIsStrict(keys[i], keys[j]);
    }
  }

  lemma ListedOnce(keys: seq<Bytes>, s: set<Bytes>, i: nat, j: nat)
    requires multiset(keys) == multiset(s) && i < j < |keys|
    ensures keys[i] != keys[j]
  {
    var front, back := keys[..j], keys[j..];
    assert keys == front + back;
    assert multiset(front)[front[i]] >= 1 && multiset(back)[back[0]] >= 1;
    assert multiset(keys)[keys[j]] <= 1;
  }

  // ----- what canonicalization gives

  /** The text of a legal document with paired escapes that spells this value. */
  ghost predicate TextOf(raw: Bytes, d: Document, v: Json) {
    LegalDocument(d) && AllPaired(d.root) && DocumentText(d) == raw && Spells(d.root, v)
  }

  ghost predicate DocumentInShape(d: Document) {
    d.lead == "" && d.trail == "" && InShape(d.root)
  }

  ghost predicate HasText(raw: Bytes) {
    exists d, v :: TextOf(raw, d, v)
  }

  /** The text in canonical shape of what `raw` spells; nothing when it is no such text. */
  ghost predicate IsCanonicalOf(raw: Bytes, r: Option<Bytes>) {
    if r.None? then !HasText(raw)
    else HasText(raw) && forall d, v | TextOf(raw, d, v) :: IsShapeOf(r.value, v)
  }

  /** The one text in canonical shape that spells `v`. */
  ghost predicate IsShapeOf(text: Bytes, v: Json) {
    && (exists e :: TextOf(text, e, v) && DocumentInShape(e))
    && forall t, e | TextOf(t, e, v) && DocumentInShape(e) :: t == text
  }

  lemma PrintIsShape(v: Json)
    requires Carried(v, 0)
    ensures IsShapeOf(Print(v), v)
  {
    hide Spells, InShape, Legal, Print, CanonicalCst;
    var e := Document("", CanonicalCst(v, 0), "");
    CanonicalIsLegal(v, 0);
    CanonicalHasShape(v, 0);
    MeaningIsSpelled(e.root, 0);
    PrintIsText(v, 0);
    BareText(e);
    assert TextOf(Print(v), e, v) && DocumentInShape(e);
    forall t, f | TextOf(t, f, v) && DocumentInShape(f) ensures t == Print(v) {
      ShapeIsCanonical(f.root, 0);
      MeaningIsSpelled(f.root, 0);
      SpelledIsUnique(f.root, v, Meaning(f.root));
      BareText(f);
    }
  }

  lemma BareText(d: Document)
    requires d.lead == "" && d.trail == ""
    ensures DocumentText(d) == Text(d.root)
  {
    assert "" + (Text(d.root) + "") == Text(d.root);
  }

  /** Canonicalizing gives the canonical text of the value a text spells, and refuses every other text. */
  lemma CanonicalizeMeans(raw: Bytes)
    ensures IsCanonicalOf(raw, Canonicalize(raw))
  {
    hide Spells, InShape, Legal, Print, CanonicalCst, IsShapeOf;
    if Canonicalize(raw).Some? {
      var d := AcceptedIsLegal(raw);
      MeaningIsSpelled(d.root, 0);
      assert TextOf(raw, d, Meaning(d.root));
    }
    forall d, v | TextOf(raw, d, v) ensures Canonicalize(raw) == Some(Print(v)) && IsShapeOf(Print(v), v) {
      CanonicalOfDocument(d);
      MeaningIsSpelled(d.root, 0);
      SpelledIsUnique(d.root, v, Meaning(d.root));
      MeaningIsCarried(d.root, 0);
      PrintIsShape(v);
    }
  }

  // ----- single literals

  /** A literal of paired units is read as the text of the scalars it denotes. */
  lemma LiteralMeans(us: seq<Unit>) returns (s: Bytes)
    requires UnitsOk(us) && Paired(us)
    ensures ValidUtf8(s) && Scalars(s) == Denoted(us)
    ensures ParseText(['"'] + (UnitsText(us) + ['"'])) == Some(String(s))
    ensures Canonicalize(['"'] + (UnitsText(us) + ['"'])) == Some(Print(String(s)))
  {
    s := DecodeUnits(us);
    DecodedIsSpelled(us);
    var d := Document("", CString(us), "");
    BareText(d);
    ReadsDocument(d);
    CanonicalOfDocument(d);
  }

  /** Each of the eight escape letters stands for its one byte. */
  lemma EscapeIsRead(c: char)
    requires c in {'"', '\\', '/', 'b', 'f', 'n', 'r', 't'}
    ensures ParseText(['"', '\\', c, '"']) == Some(String([Letter(c) as char]))
  {
    var us := [Short(c)];
    LoneIsPaired(us);
    var s := LiteralMeans(us);
    assert us[1..] == [] && UnitsText([]) == "";
    assert UnitsText(us) == ['\\', c] + "";
    assert ['"'] + (UnitsText(us) + ['"']) == ['"', '\\', c, '"'];
    LoneDenoted(us[0]);
    var t := [Letter(c) as char];
    LetterIsRead(c, "");
    NothingIsRead();
    RuneIsRead(t, "");
    assert t + "" == t;
    ScalarsDetermine(s, t);
  }

  lemma LoneIsPaired(us: seq<Unit>)
    requires |us| == 1 && us[0].Short?
    ensures Paired(us)
  {
  }

  /** No other letter may follow a backslash, but the u of a hexadecimal escape. */
  lemma OtherEscapesAreRefused(c: char)
    requires c !in {'"', '\\', '/', 'b', 'f', 'n', 'r', 't', 'u'}
    ensures ParseText(['"', '\\', c, '"']).None?
  {
    var s := ['\\', c, '"'];
    assert !ShortLetter(c);
    assert NextUnit(s).None?;
    assert ScanString(s).None?;
    var raw := ['"', '\\', c, '"'];
    assert raw[1..] == s && SkipSpaces(raw) == raw;
    assert ParseHere(raw, 0).None?;
  }
}
