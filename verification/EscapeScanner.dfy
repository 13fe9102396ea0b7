/**
 The scanner that refuses unpaired surrogate escapes before anything is decoded. It walks raw
 bytes, telling strings from the rest by counting quotes; on well-formed JSON text it accepts
 exactly the texts whose surrogate escapes are paired.
 */
module EscapeScanner {
  import opened Basics
  import opened JsonStrings
  import opened Digits
  import opened CanonicalNumbers
  import opened JsonGrammar
  import opened ParserCorrectness

  // ----- the loop

  /** The value of the first `n` hexadecimal digits. */
  ghost function HexPrefix(q: Bytes, n: nat): (v: int)
    requires n <= |q| && n <= 4 && forall i | 0 <= i < n :: HexDigit(q[i])
    ensures 0 <= v && v < if n == 0 then 1 else if n == 1 then 0x10 else if n == 2 then 0x100 else if n == 3 then 0x1000 else 0x10000
  {
    if n == 0 then 0 else HexPrefix(q, n - 1) * 16 + HexValue(q[n - 1])
  }

  lemma HexPrefixOfQuad(q: Bytes)
    requires IsQuad(q)
    ensures HexPrefix(q, 4) == QuadValue(q)
  {
    assert HexPrefix(q, 1) == HexValue(q[0]);
    assert HexPrefix(q, 2) == HexValue(q[0]) * 16 + HexValue(q[1]);
    assert HexPrefix(q, 3) == HexPrefix(q, 2) * 16 + HexValue(q[2]);
  }

  /** Reads four hexadecimal digits at `start`, in 16-bit arithmetic. */
  method DecodeHexQuad(raw: Bytes, start: nat) returns (value: int, ok: bool)
    ensures ok <==> start + 4 <= |raw| && IsQuad(raw[start..start + 4])
    ensures ok ==> value == QuadValue(raw[start..start + 4])
  {
    value := 0;
    if start + 4 > |raw| {
      return 0, false;
    }
    ghost var q := raw[start..start + 4];
    for i := 0 to 4
      invariant forall j | 0 <= j < i :: HexDigit(q[j])
      invariant value == HexPrefix(q, i)
    {
      var c := raw[start + i];
      assert c == q[i];
      if !('0' <= c <= '9' || 'a' <= c <= 'f' || 'A' <= c <= 'F') {
        assert !HexDigit(q[i]);
        return 0, false;
      }
      value := value * 16 % 0x10000;
      if '0' <= c <= '9' {
        value := value + (c as int - '0' as int);
      } else if 'a' <= c <= 'f' {
        value := value + (c as int - 'a' as int) + 10;
      } else {
        value := value + (c as int - 'A' as int) + 10;
      }
    }
    HexPrefixOfQuad(q);
    ok := true;
  }

  /** What the scan still has to say about the text left. */
  function EscapesOk(s: Bytes, inString: bool): bool
    decreases |s|
  {
    if s == "" then true
    else if s[0] == '"' then EscapesOk(s[1..], !inString)
    else if s[0] != '\\' || !inString || |s| < 2 then EscapesOk(s[1..], inString)
    else if s[1] != 'u' then EscapesOk(s[2..], inString)
    else if |s| < 6 || !IsQuad(s[2..6]) then EscapesOk(s[1..], inString)
    else if Low(QuadValue(s[2..6])) then false
    else if High(QuadValue(s[2..6])) then
      |s| >= 12 && s[6] == '\\' && s[7] == 'u' && IsQuad(s[8..12]) && Low(QuadValue(s[8..12]))
      && EscapesOk(s[12..], inString)
    else EscapesOk(s[6..], inString)
  }

  method ValidateEscapedUnicodeScalars(raw: Bytes) returns (ok: bool)
    ensures ok <==> EscapesOk(raw, false)
  {
    var inString := false;
    var index := 0;
    while index < |raw|
      invariant index <= |raw|
      invariant EscapesOk(raw, false) == EscapesOk(raw[index..], inString)
    {
      ghost var s := raw[index..];
      if raw[index] == '"' {
        inString := !inString;
        index := index + 1;
      } else if raw[index] == '\\' && inString && index + 1 < |raw| {
        if raw[index + 1] != 'u' {
          assert s[2..] == raw[index + 2..];
          index := index + 2;
        } else {
          assert |s| >= 6 ==> s[2..6] == raw[index + 2..index + 6];
          var value, quad := DecodeHexQuad(raw, index + 2);
          if !quad {
            index := index + 1;
          } else if 0xDC00 <= value <= 0xDFFF {
            return false;
          } else if 0xD800 <= value <= 0xDBFF {
            if index + 12 > |raw| || raw[index + 6] != '\\' || raw[index + 7] != 'u' {
              return false;
            }
            assert s[8..12] == raw[index + 8..index + 12];
            var low, lowOk := DecodeHexQuad(raw, index + 8);
            if !lowOk || low < 0xDC00 || low > 0xDFFF {
              return false;
            }
            assert s[12..] == raw[index + 12..];
            index := index + 12;
          } else {
            assert s[6..] == raw[index + 6..];
            index := index + 6;
          }
        }
      } else {
        index := index + 1;
      }
    }
    assert raw[index..] == "";
    ok := true;
  }

  // ----- what the scan means on well-formed text

  /** RFC 8259 text, without the limits the protocol adds. */
  predicate WellFormed(c: Cst) {
    match c
    case CNumber(t) => JsonNumber(t)
    case CString(us) => UnitsOk(us)
    case CArray(es) => WellFormedElements(es)
    case CObject(ms) => WellFormedMembers(ms)
    case _ => true
  }

  predicate WellFormedElements(e: Elements) {
    Spaces(e.gap) && (e.Element? ==> Spaces(e.lead) && WellFormed(e.value) && WellFormedElements(e.tail))
  }

  predicate WellFormedMembers(m: Members) {
    Spaces(m.gap) &&
    (m.Member? ==>
       Spaces(m.lead) && UnitsOk(m.key) && Spaces(m.colon) && Spaces(m.valueLead)
       && WellFormed(m.value) && WellFormedMembers(m.tail))
  }

  predicate Inert(s: Bytes) {
    forall i | 0 <= i < |s| :: s[i] != '"' && s[i] != '\\'
  }

  lemma {:induction false} SkipsInert(a: Bytes, rest: Bytes, inString: bool)
    requires Inert(a)
    ensures EscapesOk(a + rest, inString) == EscapesOk(rest, inString)
  {
    if a == "" {
      assert a + rest == rest;
    } else {
      SkipsInert(a[1..], rest, inString);
      assert (a + rest)[1..] == a[1..] + rest;
    }
  }

  lemma SkipsUnit(u: Unit, rest: Bytes)
    requires UnitOk(u) && !HighUnit(u)
    ensures EscapesOk(UnitText(u) + rest, true) == (!LowUnit(u) && EscapesOk(rest, true))
  {
    var s := UnitText(u) + rest;
    match u
    case Plain(r) => SkipsInert(r, rest, true);
    case Short(c) => assert s[2..] == rest;
    case Hex(q) => assert s[2..6] == q && s[6..] == rest;
    case Broken(_) =>
  }

  lemma SkipsHighThenUnit(u: Unit, v: Unit, tail: Bytes)
    requires UnitOk(u) && HighUnit(u) && UnitOk(v)
    ensures EscapesOk(UnitText(u) + (UnitText(v) + tail), true) == (LowUnit(v) && EscapesOk(tail, true))
  {
    var s := UnitText(u) + (UnitText(v) + tail);
    assert s[2..6] == u.quad;
    assert s[6] == UnitText(v)[0];
    match v
    case Plain(r) =>
    case Short(c) => assert s[7] == c;
    case Hex(q) => assert s[8..12] == q && s[12..] == tail;
    case Broken(_) =>
  }

  /** A high half is refused unless a low half follows, which the scan then skips with it. */
  lemma SkipsPair(u: Unit, us: seq<Unit>, rest: Bytes)
    requires UnitOk(u) && HighUnit(u) && UnitsOk(us)
    ensures EscapesOk(UnitText(u) + (UnitsText(us) + ['"'] + rest), true)
            == (us != [] && LowUnit(us[0]) && EscapesOk(UnitsText(us[1..]) + ['"'] + rest, true))
  {
    if us == [] {
      var s := UnitText(u) + (UnitsText(us) + ['"'] + rest);
      assert s[2..6] == u.quad && s[6] == '"';
    } else {
      assert us == [us[0]] + us[1..];
      TextOfCons(us[0], us[1..], rest);
      SkipsHighThenUnit(u, us[0], UnitsText(us[1..]) + ['"'] + rest);
    }
  }

  lemma {:induction false} ScansString(us: seq<Unit>, rest: Bytes)
    requires UnitsOk(us)
    ensures EscapesOk(UnitsText(us) + ['"'] + rest, true) == (!Substitutes(us) && EscapesOk(rest, false))
    decreases |us|
  {
    if us == [] {
      assert UnitsText(us) + ['"'] + rest == ['"'] + rest;
      assert (['"'] + rest)[1..] == rest;
    } else {
      assert us == [us[0]] + us[1..];
      TextOfCons(us[0], us[1..], rest);
      if HighUnit(us[0]) {
        SkipsPair(us[0], us[1..], rest);
        if |us| > 1 {
          assert us[1..][1..] == us[2..];
          ScansString(us[2..], rest);
        }
      } else {
        SkipsUnit(us[0], UnitsText(us[1..]) + ['"'] + rest);
        ScansString(us[1..], rest);
      }
    }
  }

  lemma SkipsNames(c: Cst)
    requires c.CNull? || c.CBool? || (c.CNumber? && JsonNumber(c.token))
    ensures Inert(Text(c))
  {
    if c.CNumber? {
      NumberIsInert(c.token);
    }
  }

  lemma NumberIsInert(t: Bytes)
    requires JsonNumber(t)
    ensures Inert(t)
  {
    var u := Unsigned(t);
    var n := DigitRun(u);
    FractionIsInert(u[n..]);
    assert forall i | 0 <= i < |u| :: u[i] == if i < n then u[..n][i] else u[n..][i - n];
    assert forall i | 0 <= i < |t| :: t[i] == '-' || t[i] in u;
  }

  lemma FractionIsInert(s: Bytes)
    requires FractionAndExponent(s)
    ensures Inert(s)
  {
    if s != "" && s[0] == '.' {
      var n := DigitRun(s[1..]);
      ExponentIsInert(s[1 + n..]);
      forall i | 0 <= i < |s| ensures s[i] != '"' && s[i] != '\\' {
        assert i > 0 ==> s[i] == if i - 1 < n then s[1..][..n][i - 1] else s[1 + n..][i - 1 - n];
      }
    } else {
      ExponentIsInert(s);
    }
  }

  lemma ExponentIsInert(s: Bytes)
    requires ExponentPart(s)
    ensures Inert(s)
  {
    if s != "" {
      var skip := if |s| > 1 && s[1] in "+-" then 2 else 1;
      assert AllDigits(s[skip..]);
      forall i | 0 <= i < |s| ensures s[i] != '"' && s[i] != '\\' {
        assert i >= skip ==> s[i] == s[skip..][i - skip];
      }
    }
  }

  lemma {:induction false} ScansValue(c: Cst, rest: Bytes)
    requires WellFormed(c)
    ensures EscapesOk(Text(c) + rest, false) <==> AllPaired(c) && EscapesOk(rest, false)
  {
    match c
    case CString(us) =>
      assert Text(c) + rest == ['"'] + (UnitsText(us) + ['"'] + rest);
      ScansString(us, rest);
      NoSubstitutionIffPaired(us);
    case CArray(es) =>
      assert Text(c) + rest == ['['] + (ElementsText(es, true) + rest);
      SkipsInert(['['], ElementsText(es, true) + rest, false);
      ScansElements(es, true, rest);
    case CObject(ms) =>
      assert Text(c) + rest == ['{'] + (MembersText(ms, true) + rest);
      SkipsInert(['{'], MembersText(ms, true) + rest, false);
      ScansMembers(ms, true, rest);
    case _ =>
      SkipsNames(c);
      SkipsInert(Text(c), rest, false);
  }

  lemma {:induction false} ScansElements(e: Elements, first: bool, rest: Bytes)
    requires WellFormedElements(e)
    ensures EscapesOk(ElementsText(e, first) + rest, false) <==> ElementsPaired(e) && EscapesOk(rest, false)
  {
    hide EscapesOk;
    match e
    case EndOfArray(gap) =>
      SkipsInert(gap + [']'], rest, false);
    case Element(gap, lead, value, tail) =>
      var next := ElementsText(tail, false) + rest;
      ElementsTextParts(e, first, rest);
      var open := if first then lead else gap + [','] + lead;
      assert ElementsText(e, first) + rest == open + (Text(value) + next);
      SkipsInert(open, Text(value) + next, false);
      ScansValue(value, next);
      ScansElements(tail, false, rest);
  }

  lemma {:induction false} ScansMembers(m: Members, first: bool, rest: Bytes)
    requires WellFormedMembers(m)
    ensures EscapesOk(MembersText(m, first) + rest, false) <==> MembersPaired(m) && EscapesOk(rest, false)
  {
    hide EscapesOk;
    match m
    case EndOfObject(gap) =>
      SkipsInert(gap + ['}'], rest, false);
    case Member(gap, lead, key, colon, valueLead, value, tail) =>
      var next := MembersText(tail, false) + rest;
      MembersTextParts(m, first, rest);
      SkipsComma(gap, MemberBody(m, rest));
      ScansKey(m, Text(value) + next);
      ScansValue(value, next);
      ScansMembers(tail, false, rest);
  }

  lemma SkipsComma(gap: Bytes, body: Bytes)
    requires Spaces(gap)
    ensures EscapesOk(gap + ([','] + body), false) == EscapesOk(body, false)
  {
    assert gap + ([','] + body) == gap + [','] + body;
    SkipsInert(gap + [','], body, false);
  }

  /** From the opening quote of a key, the scan checks the key and goes on after it. */
  lemma ScansQuoted(us: seq<Unit>, after: Bytes)
    requires UnitsOk(us)
    ensures EscapesOk(['"'] + (UnitsText(us) + ['"'] + after), false) <==> Paired(us) && EscapesOk(after, false)
  {
    var body := UnitsText(us) + ['"'] + after;
    assert (['"'] + body)[1..] == body;
    ScansString(us, after);
    NoSubstitutionIffPaired(us);
  }

  lemma ScansKey(m: Members, value: Bytes)
    requires m.Member? && WellFormedMembers(m)
    ensures EscapesOk(KeyText(m.lead, m.key, m.colon) + (m.valueLead + value), false)
            <==> Paired(m.key) && EscapesOk(value, false)
  {
    var after := m.colon + ([':'] + (m.valueLead + value));
    KeyTextThen(m.lead, m.key, m.colon, m.valueLead + value);
    SkipsInert(m.lead, ['"'] + (UnitsText(m.key) + ['"'] + after), false);
    ScansQuoted(m.key, after);
    SkipsInert(m.colon, [':'] + (m.valueLead + value), false);
    SkipsInert([':'], m.valueLead + value, false);
    SkipsInert(m.valueLead, value, false);
  }

  /** The scan accepts a well-formed text exactly when all its surrogate escapes are paired. */
  lemma ScansDocument(d: Document)
    requires Spaces(d.lead) && WellFormed(d.root) && Spaces(d.trail)
    ensures EscapesOk(DocumentText(d), false) <==> AllPaired(d.root)
  {
    SkipsInert(d.lead, Text(d.root) + d.trail, false);
    ScansValue(d.root, d.trail);
    SkipsInert(d.trail, "", false);
    assert d.trail + "" == d.trail;
  }
}
