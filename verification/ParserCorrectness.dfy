/** The parser accepts the text of exactly the legal documents, and returns what they mean. */
module ParserCorrectness {
  import opened Basics
  import opened Utf8
  import opened JsonStrings
  import opened CanonicalNumbers
  import opened JsonGrammar
  import opened JsonParser

  // ----- completeness: every legal document is read back

  lemma SpacesStop(spaces: Bytes, c: char, rest: Bytes)
    requires Spaces(spaces) && !NumberChar(c)
    ensures Stops(spaces + ([c] + rest))
  {
    if spaces != "" {
      assert (spaces + ([c] + rest))[0] == spaces[0];
    }
  }

  lemma ElementsStop(e: Elements, depth: nat, rest: Bytes)
    requires LegalElements(e, depth)
    ensures Stops(ElementsText(e, false) + rest)
  {
    match e
    case EndOfArray(gap) =>
      SpacesStop(gap, ']', rest);
      assert gap + [']'] + rest == gap + ([']'] + rest);
    case Element(gap, lead, value, tail) =>
      var after := lead + (Text(value) + ElementsText(tail, false));
      SpacesStop(gap, ',', after + rest);
      assert gap + [','] + after + rest == gap + ([','] + (after + rest));
  }

  lemma MembersStop(m: Members, depth: nat, seen: set<Bytes>, rest: Bytes)
    requires LegalMembers(m, depth, seen)
    ensures Stops(MembersText(m, false) + rest)
  {
    match m
    case EndOfObject(gap) =>
      SpacesStop(gap, '}', rest);
      assert gap + ['}'] + rest == gap + (['}'] + rest);
    case Member(gap, lead, key, colon, valueLead, value, tail) =>
      var after := KeyText(lead, key, colon) + (valueLead + (Text(value) + MembersText(tail, false)));
      SpacesStop(gap, ',', after + rest);
      assert gap + [','] + after + rest == gap + ([','] + (after + rest));
  }

  lemma ReadsName(c: Cst, rest: Bytes)
    requires c.CNull? || c.CBool?
    ensures ParseScalar(Text(c) + rest) == Some((Meaning(c), rest))
  {
    var t := Text(c) + rest;
    assert t[..|Text(c)|] == Text(c) && t[|Text(c)|..] == rest;
    assert t[0] == Text(c)[0];
    assert "null"[0] == 'n' && "true"[0] == 't';
    assert "null" <= t ==> t[0] == "null"[0];
    assert "true" <= t ==> t[0] == "true"[0];
  }

  lemma ReadsToken(token: Bytes, rest: Bytes)
    requires IntegerToken(token) && Stops(rest)
    ensures ParseScalar(token + rest) == Some((Number(token), rest))
  {
    TokenChars(token);
    RunOfToken(token, rest);
    assert (token + rest)[..|token|] == token && (token + rest)[|token|..] == rest;
    assert (token + rest)[0] == token[0];
  }

  lemma AfterFirst(c: char, s: Bytes, rest: Bytes)
    ensures ([c] + s + rest)[0] == c && ([c] + s + rest)[1..] == s + rest
  {
  }

  lemma ReadsString(us: seq<Unit>, rest: Bytes, depth: nat)
    requires UnitsOk(us)
    ensures ParseHere(Text(CString(us)) + rest, depth) == Some((String(DecodeUnits(us)), rest))
  {
    AfterFirst('"', UnitsText(us) + ['"'], rest);
    ScanOfText(us, rest);
  }

  lemma ReadsScalar(c: Cst, rest: Bytes, depth: nat)
    requires c.CNull? || c.CBool? || c.CNumber?
    requires Legal(c, depth) && Stops(rest)
    ensures Text(c) != "" && ParseHere(Text(c) + rest, depth) == Some((Meaning(c), rest))
  {
    if c.CNumber? {
      TokenChars(c.token);
      assert (Text(c) + rest)[0] == c.token[0];
      ReadsToken(c.token, rest);
    } else {
      assert (Text(c) + rest)[0] == Text(c)[0];
      ReadsName(c, rest);
    }
  }

  lemma {:induction false} ReadsHere(c: Cst, rest: Bytes, depth: nat)
    requires Legal(c, depth) && Stops(rest)
    ensures Text(c) != "" && ParseHere(Text(c) + rest, depth) == Some((Meaning(c), rest))
    decreases c, 0
  {
    match c
    case CArray(es) =>
      ReadsElements(es, rest, depth + 1, [], true);
      AfterFirst('[', ElementsText(es, true), rest);
      assert [] + ElementsMeaning(es) == ElementsMeaning(es);
    case CObject(ms) =>
      var none: map<Bytes, Json> := map[];
      assert none.Keys == {};
      ReadsMembers(ms, rest, depth + 1, none, true);
      AfterFirst('{', MembersText(ms, true), rest);
    case CString(us) => ReadsString(us, rest, depth);
    case CNumber(_) => ReadsScalar(c, rest, depth);
    case CBool(_) => ReadsScalar(c, rest, depth);
    case CNull => ReadsScalar(c, rest, depth);
  }

  lemma {:induction false} ReadsValue(spaces: Bytes, c: Cst, rest: Bytes, depth: nat)
    requires Spaces(spaces) && Legal(c, depth) && Stops(rest)
    ensures ParseValue(spaces + (Text(c) + rest), depth) == Some((Meaning(c), rest))
    decreases c, 1
  {
    ReadsHere(c, rest, depth);
    TextStarts(c, depth);
    SkipOverSpaces(spaces, Text(c) + rest);
  }

  lemma {:induction false} ReadsElements(e: Elements, rest: Bytes, depth: nat, before: seq<Json>, first: bool)
    requires LegalElements(e, depth)
    ensures ParseElements(ElementsText(e, first) + rest, depth, before, first)
            == Some((Array(before + ElementsMeaning(e)), rest))
    decreases e, 2
  {
    match e
    case EndOfArray(gap) =>
      assert ElementsText(e, first) + rest == gap + ([']'] + rest);
      SkipOverSpaces(gap, [']'] + rest);
      assert before + [] == before;
    case Element(gap, lead, value, tail) =>
      var next := ElementsText(tail, false) + rest;
      ElementsStop(tail, depth, rest);
      ReadsElements(tail, rest, depth, before + [Meaning(value)], false);
      assert before + [Meaning(value)] + ElementsMeaning(tail) == before + ElementsMeaning(e);
      ReadsValue(if first then "" else lead, value, next, depth);
      StepsIntoElement(e, first, depth, rest);
  }

  /** Where the parser stands when it reads the value of an element. */
  lemma StepsIntoElement(e: Elements, first: bool, depth: nat, rest: Bytes)
    requires e.Element? && LegalElements(e, depth)
    ensures var t := SkipSpaces(ElementsText(e, first) + rest);
            var body := Text(e.value) + (ElementsText(e.tail, false) + rest);
            t != "" && t[0] != ']' && (!first ==> t[0] == ',')
            && (if first then t else t[1..]) == (if first then "" else e.lead) + body
  {
    var body := Text(e.value) + (ElementsText(e.tail, false) + rest);
    ElementsTextParts(e, first, rest);
    TextStarts(e.value, depth);
    if first {
      SkipOverSpaces(e.lead, body);
      assert "" + body == body;
    } else {
      SkipOverSpaces(e.gap, [','] + (e.lead + body));
    }
  }

  lemma ElementsTextParts(e: Elements, first: bool, rest: Bytes)
    requires e.Element?
    ensures var body := Text(e.value) + (ElementsText(e.tail, false) + rest);
            ElementsText(e, first) + rest == if first then e.lead + body else e.gap + ([','] + (e.lead + body))
  {
    var a, t := e.lead + (Text(e.value) + ElementsText(e.tail, false)), ElementsText(e.tail, false);
    assert a + rest == e.lead + (Text(e.value) + (t + rest));
    if first {
      assert [] + a + rest == a + rest;
    } else {
      assert e.gap + [','] + a + rest == e.gap + ([','] + (a + rest));
    }
  }

  /** A value starts with neither space nor closing bracket. */
  lemma TextStarts(c: Cst, depth: nat)
    requires Legal(c, depth)
    ensures Text(c) != "" && !IsSpace(Text(c)[0]) && Text(c)[0] != ']'
  {
    if c.CNumber? {
      TokenChars(c.token);
    }
  }

  lemma KeyTextThen(lead: Bytes, key: seq<Unit>, colon: Bytes, rest: Bytes)
    ensures KeyText(lead, key, colon) + rest == lead + (['"'] + (UnitsText(key) + ['"'] + (colon + ([':'] + rest))))
  {
    var a := UnitsText(key) + ['"'];
    assert colon + [':'] + rest == colon + ([':'] + rest);
    assert a + (colon + [':']) + rest == a + (colon + [':'] + rest);
    assert ['"'] + (a + (colon + [':'])) + rest == ['"'] + (a + (colon + [':']) + rest);
  }

  lemma ReadsKey(lead: Bytes, key: seq<Unit>, colon: Bytes, rest: Bytes)
    requires Spaces(lead) && UnitsOk(key) && Spaces(colon)
    ensures ParseKey(KeyText(lead, key, colon) + rest) == Some((DecodeUnits(key), rest))
  {
    var afterKey := colon + ([':'] + rest);
    KeyTextThen(lead, key, colon, rest);
    SkipOverSpaces(lead, ['"'] + (UnitsText(key) + ['"'] + afterKey));
    ScanOfText(key, afterKey);
    assert (['"'] + (UnitsText(key) + ['"'] + afterKey))[1..] == UnitsText(key) + ['"'] + afterKey;
    SkipOverSpaces(colon, [':'] + rest);
  }

  /** The text of a member and what follows it, from its key on. */
  function MemberBody(m: Members, rest: Bytes): Bytes
    requires m.Member?
  {
    KeyText(m.lead, m.key, m.colon) + (m.valueLead + (Text(m.value) + (MembersText(m.tail, false) + rest)))
  }

  lemma {:induction false} ReadsMembers(m: Members, rest: Bytes, depth: nat, before: map<Bytes, Json>, first: bool)
    requires LegalMembers(m, depth, before.Keys)
    ensures ParseMembers(MembersText(m, first) + rest, depth, before, first)
            == Some((Object(MembersMeaning(m, before)), rest))
    decreases m, 2
  {
    match m
    case EndOfObject(gap) =>
      assert MembersText(m, first) + rest == gap + (['}'] + rest);
      SkipOverSpaces(gap, ['}'] + rest);
    case Member(gap, lead, key, colon, valueLead, value, tail) =>
      var next := MembersText(tail, false) + rest;
      var name := DecodeUnits(key);
      MembersStop(tail, depth, before.Keys + {name}, rest);
      ReadsKey(if first then "" else lead, key, colon, valueLead + (Text(value) + next));
      ReadsValue(valueLead, value, next, depth);
      assert before[name := Meaning(value)].Keys == before.Keys + {name};
      ReadsMembers(tail, rest, depth, before[name := Meaning(value)], false);
      StepsIntoMember(m, first, rest);
  }

  /** Where the parser stands when it reads a member. */
  lemma StepsIntoMember(m: Members, first: bool, rest: Bytes)
    requires m.Member? && Spaces(m.gap) && Spaces(m.lead)
    ensures var t := SkipSpaces(MembersText(m, first) + rest);
            t != "" && t[0] != '}' && (!first ==> t[0] == ',')
            && (if first then t else t[1..]) == MemberBody(if first then m.(lead := "") else m, rest)
  {
    var body := MemberBody(m, rest);
    var after := m.valueLead + (Text(m.value) + (MembersText(m.tail, false) + rest));
    MembersTextParts(m, first, rest);
    if first {
      KeyTextThen(m.lead, m.key, m.colon, after);
      KeyTextThen("", m.key, m.colon, after);
      var quoted := ['"'] + (UnitsText(m.key) + ['"'] + (m.colon + ([':'] + after)));
      assert "" + quoted == quoted;
      SkipOverSpaces(m.lead, quoted);
    } else {
      SkipOverSpaces(m.gap, [','] + body);
    }
  }

  lemma MembersTextParts(m: Members, first: bool, rest: Bytes)
    requires m.Member?
    ensures MembersText(m, first) + rest
            == if first then MemberBody(m, rest) else m.gap + ([','] + MemberBody(m, rest))
  {
    var tail := MembersText(m.tail, false);
    var a := m.valueLead + (Text(m.value) + tail);
    var k := KeyText(m.lead, m.key, m.colon);
    assert a + rest == m.valueLead + (Text(m.value) + (tail + rest));
    assert k + a + rest == k + (a + rest);
    if first {
      assert [] + (k + a) + rest == k + a + rest;
    } else {
      assert m.gap + [','] + (k + a) + rest == m.gap + ([','] + (k + a + rest));
    }
  }

  /** Completeness: the parser reads every legal document as what it means. */
  lemma ReadsDocument(d: Document)
    requires LegalDocument(d)
    ensures ParseText(DocumentText(d)) == Some(Meaning(d.root))
  {
    assert Stops(d.trail);
    ReadsValue(d.lead, d.root, d.trail, 0);
    SkipOverSpaces(d.trail, "");
    assert d.trail + "" == d.trail;
  }

  // ----- soundness: whatever is accepted is the text of a legal document

  lemma PrefixAndRest(t: Bytes, prefix: Bytes)
    requires prefix <= t && forall i | 0 <= i < |prefix| :: prefix[i] as int < 0x80
    ensures t == prefix + t[|prefix|..] && (ValidUtf8(t) <==> ValidUtf8(t[|prefix|..]))
  {
    AsciiThenRest(prefix, t[|prefix|..]);
  }

  lemma SpelledScalar(t: Bytes, depth: nat) returns (c: Cst)
    requires ParseScalar(t).Some? && ValidUtf8(t) && depth <= MAXIMUM_DEPTH
    ensures Legal(c, depth) && t == Text(c) + ParseScalar(t).value.1
    ensures Meaning(c) == ParseScalar(t).value.0 && ValidUtf8(ParseScalar(t).value.1)
  {
    if "null" <= t {
      c := CNull;
    } else if "true" <= t {
      c := CBool(true);
    } else if "false" <= t {
      c := CBool(false);
    } else {
      c := CNumber(t[..NumberRun(t)]);
      TokenChars(c.token);
    }
    PrefixAndRest(t, Text(c));
  }

  lemma {:induction false} SpelledHere(t: Bytes, depth: nat, v: Json, rest: Bytes) returns (c: Cst)
    requires t != "" && ValidUtf8(t) && depth <= MAXIMUM_DEPTH && ParseHere(t, depth) == Some((v, rest))
    ensures Legal(c, depth) && Meaning(c) == v && t == Text(c) + rest && ValidUtf8(rest)
    decreases |t|, 0
  {
    if t[0] == '{' {
      HeadAndTail(t);
      var none: map<Bytes, Json> := map[];
      assert none.Keys == {};
      var ms := SpelledMembers(t[1..], depth + 1, none, true, v, rest);
      c := CObject(ms);
      AfterFirst('{', MembersText(ms, true), rest);
    } else if t[0] == '[' {
      HeadAndTail(t);
      var es := SpelledElements(t[1..], depth + 1, [], true, v, rest);
      c := CArray(es);
      assert [] + ElementsMeaning(es) == ElementsMeaning(es);
      AfterFirst('[', ElementsText(es, true), rest);
    } else if t[0] == '"' {
      var us := SpelledQuoted(t);
      c := CString(us);
      AfterFirst('"', UnitsText(us) + ['"'], rest);
    } else {
      c := SpelledScalar(t, depth);
    }
  }

  lemma {:induction false} SpelledValue(s: Bytes, depth: nat, v: Json, rest: Bytes) returns (spaces: Bytes, c: Cst)
    requires ValidUtf8(s) && ParseValue(s, depth) == Some((v, rest))
    ensures Spaces(spaces) && Legal(c, depth) && Meaning(c) == v
    ensures s == spaces + (Text(c) + rest) && ValidUtf8(rest)
    decreases |s|, 1
  {
    spaces := SpacesSkipped(s);
    c := SpelledHere(SkipSpaces(s), depth, v, rest);
  }

  lemma HeadAndTail(t: Bytes)
    requires t != "" && t[0] as int < 0x80
    ensures t == [t[0]] + t[1..] && (ValidUtf8(t) <==> ValidUtf8(t[1..]))
  {
    AsciiThenRest([t[0]], t[1..]);
  }

  /** The element after `spaces`: before the first element there is no comma, so all space leads the value. */
  function ElementAfter(spaces: Bytes, lead: Bytes, value: Cst, tail: Elements, first: bool): Elements {
    if first then Element("", spaces + lead, value, tail) else Element(spaces, lead, value, tail)
  }

  lemma ElementAfterText(spaces: Bytes, lead: Bytes, value: Cst, tail: Elements, first: bool, rest: Bytes)
    ensures var u := lead + (Text(value) + (ElementsText(tail, false) + rest));
            ElementsText(ElementAfter(spaces, lead, value, tail, first), first) + rest
            == spaces + (if first then u else [','] + u)
  {
    var body := Text(value) + (ElementsText(tail, false) + rest);
    ElementsTextParts(ElementAfter(spaces, lead, value, tail, first), first, rest);
    if first {
      assert spaces + (lead + body) == spaces + lead + body;
    }
  }

  lemma {:induction false} SpelledElements(s: Bytes, depth: nat, before: seq<Json>, first: bool, v: Json, rest: Bytes)
    returns (e: Elements)
    requires ValidUtf8(s) && ParseElements(s, depth, before, first) == Some((v, rest))
    ensures LegalElements(e, depth) && v == Array(before + ElementsMeaning(e))
    ensures s == ElementsText(e, first) + rest && ValidUtf8(rest)
    decreases |s|, 3
  {
    var spaces := SpacesSkipped(s);
    var t := SkipSpaces(s);
    if t[0] == ']' {
      HeadAndTail(t);
      e := EndOfArray(spaces);
      assert spaces + ([']'] + rest) == spaces + [']'] + rest;
      assert before + [] == before;
    } else {
      if !first { HeadAndTail(t); }
      var u := if first then t else t[1..];
      var (x, next) := ParseValue(u, depth).value;
      e := SpelledElement(spaces, u, depth, before, first, x, next, v, rest);
    }
  }

  lemma {:induction false} SpelledElement(spaces: Bytes, u: Bytes, depth: nat, before: seq<Json>, first: bool,
                                          x: Json, next: Bytes, v: Json, rest: Bytes)
    returns (e: Elements)
    requires Spaces(spaces) && ValidUtf8(u) && ParseValue(u, depth) == Some((x, next))
    requires ParseElements(next, depth, before + [x], false) == Some((v, rest))
    ensures LegalElements(e, depth) && v == Array(before + ElementsMeaning(e)) && ValidUtf8(rest)
    ensures ElementsText(e, first) + rest == spaces + (if first then u else [','] + u)
    decreases |u|, 2
  {
    var lead, value := SpelledValue(u, depth, x, next);
    var tail := SpelledElements(next, depth, before + [x], false, v, rest);
    e := ElementAfter(spaces, lead, value, tail, first);
    MoreItems(before, x, ElementsMeaning(tail));
    ElementAfterText(spaces, lead, value, tail, first, rest);
  }

  lemma MoreItems(before: seq<Json>, x: Json, after: seq<Json>)
    ensures before + [x] + after == before + ([x] + after)
  {
  }

  lemma SpelledQuoted(t: Bytes) returns (key: seq<Unit>)
    requires ValidUtf8(t) && t != "" && t[0] == '"' && ScanString(t[1..]).Some?
    ensures UnitsOk(key) && key == ScanString(t[1..]).value.0
    ensures t == ['"'] + (UnitsText(key) + ['"'] + ScanString(t[1..]).value.1)
    ensures ValidUtf8(ScanString(t[1..]).value.1)
  {
    HeadAndTail(t);
    TextOfScan(t[1..]);
    key := ScanString(t[1..]).value.0;
  }

  lemma SpelledKey(s: Bytes, name: Bytes, rest: Bytes) returns (lead: Bytes, key: seq<Unit>, colon: Bytes)
    requires ValidUtf8(s) && ParseKey(s) == Some((name, rest))
    ensures Spaces(lead) && UnitsOk(key) && Spaces(colon) && DecodeUnits(key) == name
    ensures s == KeyText(lead, key, colon) + rest && ValidUtf8(rest)
  {
    lead := SpacesSkipped(s);
    key := SpelledQuoted(SkipSpaces(s));
    var after := ScanString(SkipSpaces(s)[1..]).value.1;
    colon := SpacesSkipped(after);
    HeadAndTail(SkipSpaces(after));
    KeyTextThen(lead, key, colon, rest);
  }

  /** The member after `spaces`: before the first member there is no comma, so all space leads the key. */
  function MemberAfter(spaces: Bytes, m: Members, first: bool): Members
    requires m.Member?
  {
    if first then m.(gap := "", lead := spaces + m.lead) else m.(gap := spaces)
  }

  lemma MemberAfterText(spaces: Bytes, m: Members, first: bool, rest: Bytes)
    requires m.Member?
    ensures var u := MemberBody(m, rest);
            MembersText(MemberAfter(spaces, m, first), first) + rest == spaces + (if first then u else [','] + u)
  {
    MembersTextParts(MemberAfter(spaces, m, first), first, rest);
    if first {
      var after := m.valueLead + (Text(m.value) + (MembersText(m.tail, false) + rest));
      var quoted := ['"'] + (UnitsText(m.key) + ['"'] + (m.colon + ([':'] + after)));
      KeyTextThen(m.lead, m.key, m.colon, after);
      KeyTextThen(spaces + m.lead, m.key, m.colon, after);
      assert spaces + (m.lead + quoted) == spaces + m.lead + quoted;
    }
  }

  lemma {:induction false} SpelledMembers(s: Bytes, depth: nat, before: map<Bytes, Json>, first: bool, v: Json, rest: Bytes)
    returns (m: Members)
    requires ValidUtf8(s) && ParseMembers(s, depth, before, first) == Some((v, rest))
    ensures LegalMembers(m, depth, before.Keys) && v == Object(MembersMeaning(m, before))
    ensures s == MembersText(m, first) + rest && ValidUtf8(rest)
    decreases |s|, 3
  {
    hide ValidUtf8, ParseMember;
    var spaces := SpacesSkipped(s);
    var t := SkipSpaces(s);
    if t[0] == '}' {
      HeadAndTail(t);
      m := EndOfObject(spaces);
      assert spaces + (['}'] + rest) == spaces + ['}'] + rest;
    } else {
      if !first { HeadAndTail(t); }
      var u := if first then t else t[1..];
      var ((name, x), next) := ParseMember(u, depth, before).value;
      m := SpelledMember(spaces, u, depth, before, first, name, x, next, v, rest);
    }
  }

  lemma {:induction false} SpelledMember(spaces: Bytes, u: Bytes, depth: nat, before: map<Bytes, Json>, first: bool,
                                         name: Bytes, x: Json, next: Bytes, v: Json, rest: Bytes)
    returns (m: Members)
    requires Spaces(spaces) && ValidUtf8(u) && ParseMember(u, depth, before) == Some(((name, x), next))
    requires ParseMembers(next, depth, before[name := x], false) == Some((v, rest))
    ensures LegalMembers(m, depth, before.Keys) && v == Object(MembersMeaning(m, before)) && ValidUtf8(rest)
    ensures MembersText(m, first) + rest == spaces + (if first then u else [','] + u)
    decreases |u|, 2
  {
    var afterKey := ParseKey(u).value.1;
    var lead, key, colon := SpelledKey(u, name, afterKey);
    var valueLead, value := SpelledValue(afterKey, depth, x, next);
    assert before[name := x].Keys == before.Keys + {name};
    var tail := SpelledMembers(next, depth, before[name := x], false, v, rest);
    var here := Member("", lead, key, colon, valueLead, value, tail);
    m := MemberAfter(spaces, here, first);
    MemberAfterText(spaces, here, first, rest);
  }

  /** Soundness: an accepted text spells a legal document that means the value returned. */
  lemma SpelledDocument(s: Bytes) returns (d: Document)
    requires ValidUtf8(s) && ParseText(s).Some?
    ensures LegalDocument(d) && DocumentText(d) == s && Meaning(d.root) == ParseText(s).value
  {
    var (v, rest) := ParseValue(s, 0).value;
    var lead, root := SpelledValue(s, 0, v, rest);
    var trail := SpacesSkipped(rest);
    assert trail + "" == trail;
    d := Document(lead, root, trail);
  }
}
