/**
 Canonical JSON: valid UTF-8, paired surrogate escapes, one strict parse, and the value printed
 again without whitespace, keys in byte order. The printed bytes are a normal form.
 */
module CanonicalJson {
  import opened Basics
  import opened Utf8
  import opened Ordering
  import opened JsonStrings
  import opened CanonicalNumbers
  import opened JsonGrammar
  import opened JsonParser
  import opened ParserCorrectness
  import opened EscapeScanner

  // ----- printing

  /** Some listing of a set. */
  ghost function Listing(s: set<Bytes>): (keys: seq<Bytes>)
    ensures multiset(keys) == multiset(s)
  {
    if s == {} then [] else
    var k :| k in s;
    var rest := Listing(s - {k});
    assert s == {k} + (s - {k});
    [k] + rest
  }

  ghost function SortedKeys(s: set<Bytes>): seq<Bytes> {
    Sort(Listing(s), Self)
  }

  lemma SortedKeysOfListing(keys: seq<Bytes>, s: set<Bytes>)
    requires multiset(keys) == multiset(s)
    ensures Sort(keys, Self) == SortedKeys(s)
    ensures multiset(SortedKeys(s)) == multiset(s)
  {
    SortSorts(Listing(s), Self);
    SortIgnoresOrder(keys, Listing(s), Self);
  }

  function EncodeString(s: Bytes): Bytes {
    ['"'] + (EncodeBody(s) + ['"'])
  }

  ghost function Print(v: Json): Bytes
    decreases v, 1
  {
    match v
    case Null => "null"
    case Bool(b) => if b then "true" else "false"
    case Number(token) => token
    case String(s) => EncodeString(s)
    case Array(items) => ['['] + PrintItems(items, true)
    case Object(fields) => ['{'] + PrintMembers(v, SortedKeys(fields.Keys), true)
  }

  ghost function PrintItems(items: seq<Json>, first: bool): Bytes
    decreases items
  {
    if items == [] then [']']
    else Comma("", first) + (Print(items[0]) + PrintItems(items[1..], false))
  }

  /** Prints the members of `v` with the given keys; a key `v` lacks is passed over. */
  ghost function PrintMembers(v: Json, keys: seq<Bytes>, first: bool): Bytes
    requires v.Object?
    decreases v, 0, |keys|
  {
    if keys == [] then ['}']
    else if keys[0] !in v.fields then PrintMembers(v, keys[1..], first)
    else
      Comma("", first) + (EncodeString(keys[0]) + ([':'] + (Print(v.fields[keys[0]]) + PrintMembers(v, keys[1..], false))))
  }

  // ----- canonicalization

  ghost function Canonicalize(raw: Bytes): Option<Bytes> {
    if !ValidUtf8(raw) || !EscapesOk(raw, false) then None else
    var v :- ParseText(raw);
    Some(Print(v))
  }

  /** The values canonical text can carry, read at nesting depth `depth`. */
  predicate Carried(v: Json, depth: nat)
    decreases v
  {
    depth <= MAXIMUM_DEPTH &&
    match v
    case Number(token) => IntegerToken(token)
    case String(s) => ValidUtf8(s)
    case Array(items) => forall i | 0 <= i < |items| :: Carried(items[i], depth + 1)
    case Object(fields) => forall k | k in fields :: ValidUtf8(k) && Carried(fields[k], depth + 1)
    case _ => true
  }

  // ----- the canonical text is a document of the grammar

  ghost function CanonicalCst(v: Json, depth: nat): Cst
    requires Carried(v, depth)
    decreases v, 1
  {
    match v
    case Null => CNull
    case Bool(b) => CBool(b)
    case Number(token) => CNumber(token)
    case String(s) => CString(CanonicalUnits(s))
    case Array(items) => CArray(CanonicalElements(items, depth + 1))
    case Object(fields) => CObject(CanonicalMembers(v, depth, SortedKeys(fields.Keys)))
  }

  ghost function CanonicalElements(items: seq<Json>, depth: nat): Elements
    requires forall i | 0 <= i < |items| :: Carried(items[i], depth)
    decreases items
  {
    if items == [] then EndOfArray("")
    else Element("", "", CanonicalCst(items[0], depth), CanonicalElements(items[1..], depth))
  }

  ghost function CanonicalMembers(v: Json, depth: nat, keys: seq<Bytes>): Members
    requires v.Object? && Carried(v, depth)
    decreases v, 0, |keys|
  {
    if keys == [] then EndOfObject("")
    else if keys[0] !in v.fields then CanonicalMembers(v, depth, keys[1..])
    else
      Member("", "", CanonicalUnits(keys[0]), "", "", CanonicalCst(v.fields[keys[0]], depth + 1),
             CanonicalMembers(v, depth, keys[1..]))
  }

  lemma {:induction false} PrintIsText(v: Json, depth: nat)
    requires Carried(v, depth)
    ensures Print(v) == Text(CanonicalCst(v, depth))
    decreases v, 1
  {
    match v
    case String(s) => EncodeBodyIsUnitsText(s);
    case Array(items) => PrintItemsIsText(items, depth + 1, true);
    case Object(fields) => PrintMembersIsText(v, depth, SortedKeys(fields.Keys), true);
    case _ =>
  }

  lemma {:induction false} PrintItemsIsText(items: seq<Json>, depth: nat, first: bool)
    requires forall i | 0 <= i < |items| :: Carried(items[i], depth)
    ensures PrintItems(items, first) == ElementsText(CanonicalElements(items, depth), first)
    decreases items
  {
    if items == [] {
      assert "" + [']'] == [']'];
    } else {
      PrintIsText(items[0], depth);
      PrintItemsIsText(items[1..], depth, false);
      var after := Print(items[0]) + PrintItems(items[1..], false);
      assert "" + after == after;
    }
  }

  lemma {:induction false} PrintMembersIsText(v: Json, depth: nat, keys: seq<Bytes>, first: bool)
    requires v.Object? && Carried(v, depth)
    ensures PrintMembers(v, keys, first) == MembersText(CanonicalMembers(v, depth, keys), first)
    decreases v, 0, |keys|
  {
    if keys == [] {
      assert "" + ['}'] == ['}'];
    } else if keys[0] !in v.fields {
      PrintMembersIsText(v, depth, keys[1..], first);
    } else {
      var x := v.fields[keys[0]];
      PrintIsText(x, depth + 1);
      PrintMembersIsText(v, depth, keys[1..], false);
      EncodeBodyIsUnitsText(keys[0]);
      CanonicalMemberText(EncodeBody(keys[0]), CanonicalUnits(keys[0]), Print(x) + PrintMembers(v, keys[1..], false));
    }
  }

  lemma CanonicalMemberText(body: Bytes, units: seq<Unit>, after: Bytes)
    requires body == UnitsText(units)
    ensures KeyText("", units, "") + ("" + after) == ['"'] + (body + ['"']) + ([':'] + after)
  {
    var colon := [':'] + after;
    KeyTextThen("", units, "", "" + after);
    assert "" + after == after && "" + colon == colon;
    var quoted := ['"'] + (body + ['"'] + colon);
    assert "" + quoted == quoted;
  }

  lemma {:induction false} CanonicalIsLegal(v: Json, depth: nat)
    requires Carried(v, depth)
    ensures Legal(CanonicalCst(v, depth), depth) && AllPaired(CanonicalCst(v, depth))
    ensures Meaning(CanonicalCst(v, depth)) == v
    decreases v, 1
  {
    match v
    case String(s) => CanonicalUnitsDecode(s);
    case Array(items) => CanonicalItemsAreLegal(items, depth + 1);
    case Object(_) => CanonicalObjectIsLegal(v, depth);
    case _ =>
  }

  lemma {:induction false} CanonicalObjectIsLegal(v: Json, depth: nat)
    requires v.Object? && Carried(v, depth)
    ensures var m := CanonicalMembers(v, depth, SortedKeys(v.fields.Keys));
            LegalMembers(m, depth + 1, {}) && MembersPaired(m) && MembersMeaning(m, map[]) == v.fields
    decreases v, 0
  {
    var keys := SortedKeys(v.fields.Keys);
    SortedKeysOfListing(Listing(v.fields.Keys), v.fields.Keys);
    var none: map<Bytes, Json> := map[];
    assert none.Keys == {} && v.fields.Keys - {} == v.fields.Keys;
    ListingIsFresh(keys, {}, v.fields);
    CanonicalMembersAreLegal(v, depth, keys, none);
    AllChosen(v.fields, keys);
  }

  /** Keys of `fields`, none of them seen before or listed twice. */
  ghost predicate Fresh(keys: seq<Bytes>, seen: set<Bytes>, fields: map<Bytes, Json>) {
    keys == [] ||
    (keys[0] in fields && keys[0] !in seen && Fresh(keys[1..], seen + {keys[0]}, fields))
  }

  lemma {:induction false} ListingIsFresh(keys: seq<Bytes>, seen: set<Bytes>, fields: map<Bytes, Json>)
    requires multiset(keys) == multiset(fields.Keys - seen)
    ensures Fresh(keys, seen, fields)
  {
    if keys != [] {
      var k := keys[0];
      assert keys == [k] + keys[1..];
      assert k in multiset(keys);
      var left := fields.Keys - seen;
      assert left - {k} == fields.Keys - (seen + {k});
      assert multiset(left - {k}) == multiset(left) - multiset{k};
      assert multiset(keys[1..]) == multiset(keys) - multiset{k};
      ListingIsFresh(keys[1..], seen + {k}, fields);
    }
  }

  /** `before` with the members of `fields` whose keys are listed. */
  ghost function WithChosen(before: map<Bytes, Json>, fields: map<Bytes, Json>, keys: seq<Bytes>): map<Bytes, Json> {
    before + map k | k in fields && k in keys :: fields[k]
  }

  lemma AllChosen(fields: map<Bytes, Json>, keys: seq<Bytes>)
    requires multiset(keys) == multiset(fields.Keys)
    ensures WithChosen(map[], fields, keys) == fields
  {
    assert forall k | k in fields :: k in multiset(keys);
  }

  lemma ChooseOneMore(before: map<Bytes, Json>, fields: map<Bytes, Json>, keys: seq<Bytes>)
    requires keys != [] && keys[0] in fields
    ensures WithChosen(before[keys[0] := fields[keys[0]]], fields, keys[1..]) == WithChosen(before, fields, keys)
  {
    assert forall k :: k in keys <==> k == keys[0] || k in keys[1..];
  }

  lemma {:induction false} CanonicalItemsAreLegal(items: seq<Json>, depth: nat)
    requires forall i | 0 <= i < |items| :: Carried(items[i], depth)
    ensures LegalElements(CanonicalElements(items, depth), depth) && ElementsPaired(CanonicalElements(items, depth))
    ensures ElementsMeaning(CanonicalElements(items, depth)) == items
    decreases items
  {
    if items != [] {
      CanonicalIsLegal(items[0], depth);
      CanonicalItemsAreLegal(items[1..], depth);
      assert items == [items[0]] + items[1..];
    }
  }

  lemma {:induction false} CanonicalMembersAreLegal(v: Json, depth: nat, keys: seq<Bytes>, before: map<Bytes, Json>)
    requires v.Object? && Carried(v, depth) && Fresh(keys, before.Keys, v.fields)
    ensures var m := CanonicalMembers(v, depth, keys);
            LegalMembers(m, depth + 1, before.Keys) && MembersPaired(m)
            && MembersMeaning(m, before) == WithChosen(before, v.fields, keys)
    decreases v, 0, |keys|
  {
    if keys == [] {
      assert WithChosen(before, v.fields, keys) == before;
    } else {
      var k := keys[0];
      var x := v.fields[k];
      assert before[k := x].Keys == before.Keys + {k};
      CanonicalIsLegal(x, depth + 1);
      CanonicalMembersAreLegal(v, depth, keys[1..], before[k := x]);
      AddMember(k, CanonicalCst(x, depth + 1), CanonicalMembers(v, depth, keys[1..]), depth + 1, before);
      ChooseOneMore(before, v.fields, keys);
    }
  }

  lemma AddMember(k: Bytes, value: Cst, tail: Members, depth: nat, before: map<Bytes, Json>)
    requires ValidUtf8(k) && k !in before
    requires Legal(value, depth) && AllPaired(value) && MembersPaired(tail)
    requires LegalMembers(tail, depth, before.Keys + {k})
    ensures var m := Member("", "", CanonicalUnits(k), "", "", value, tail);
            LegalMembers(m, depth, before.Keys) && MembersPaired(m)
            && MembersMeaning(m, before) == MembersMeaning(tail, before[k := Meaning(value)])
  {
    CanonicalUnitsDecode(k);
  }

  /** What canonical bytes are made of: the text of a legal, paired document that means the value. */
  lemma PrintedDocument(v: Json) returns (d: Document)
    requires Carried(v, 0)
    ensures LegalDocument(d) && AllPaired(d.root) && Meaning(d.root) == v && DocumentText(d) == Print(v)
  {
    d := Document("", CanonicalCst(v, 0), "");
    CanonicalIsLegal(v, 0);
    PrintIsText(v, 0);
    assert "" + (Text(d.root) + "") == Text(d.root);
  }

  // ----- every legal document is valid UTF-8 and means a carried value

  lemma LeafIsValid(c: Cst, depth: nat, rest: Bytes)
    requires Legal(c, depth) && !c.CArray? && !c.CObject?
    ensures ValidUtf8(Text(c) + rest) <==> ValidUtf8(rest)
  {
    match c
    case CString(us) =>
      assert Text(c) + rest == ['"'] + (UnitsText(us) + ['"'] + rest);
      AsciiThenRest(['"'], UnitsText(us) + ['"'] + rest);
      UnitsTextIsValid(us, rest);
    case CNumber(token) =>
      TokenChars(token);
      AsciiThenRest(token, rest);
    case _ =>
      AsciiThenRest(Text(c), rest);
  }

  lemma {:induction false} LegalIsValid(c: Cst, depth: nat, rest: Bytes)
    requires Legal(c, depth)
    ensures ValidUtf8(Text(c) + rest) <==> ValidUtf8(rest)
  {
    if c.CArray? {
      var body := ElementsText(c.elements, true);
      AfterFirst('[', body, rest);
      HeadAndTail(Text(c) + rest);
      LegalElementsAreValid(c.elements, depth + 1, true, rest);
    } else if c.CObject? {
      var body := MembersText(c.members, true);
      AfterFirst('{', body, rest);
      HeadAndTail(Text(c) + rest);
      LegalMembersAreValid(c.members, depth + 1, {}, true, rest);
    } else {
      LeafIsValid(c, depth, rest);
    }
  }

  lemma {:induction false} LegalElementsAreValid(e: Elements, depth: nat, first: bool, rest: Bytes)
    requires LegalElements(e, depth)
    ensures ValidUtf8(ElementsText(e, first) + rest) <==> ValidUtf8(rest)
  {
    hide ValidUtf8;
    match e
    case EndOfArray(gap) =>
      AsciiThenRest(gap + [']'], rest);
    case Element(gap, lead, value, tail) =>
      var next := ElementsText(tail, false) + rest;
      ElementsTextParts(e, first, rest);
      var open := if first then lead else gap + [','] + lead;
      assert ElementsText(e, first) + rest == open + (Text(value) + next);
      AsciiThenRest(open, Text(value) + next);
      LegalIsValid(value, depth, next);
      LegalElementsAreValid(tail, depth, false, rest);
  }

  lemma {:induction false} LegalMembersAreValid(m: Members, depth: nat, seen: set<Bytes>, first: bool, rest: Bytes)
    requires LegalMembers(m, depth, seen)
    ensures ValidUtf8(MembersText(m, first) + rest) <==> ValidUtf8(rest)
  {
    match m
    case EndOfObject(gap) =>
      AsciiThenRest(gap + ['}'], rest);
    case Member(gap, lead, key, colon, valueLead, value, tail) =>
      var next := MembersText(tail, false) + rest;
      MembersTextParts(m, first, rest);
      AsciiThenRest(gap, [','] + MemberBody(m, rest));
      AsciiThenRest([','], MemberBody(m, rest));
      KeyIsValid(m, Text(value) + next);
      LegalIsValid(value, depth, next);
      LegalMembersAreValid(tail, depth, seen + {DecodeUnits(key)}, false, rest);
  }

  lemma KeyIsValid(m: Members, value: Bytes)
    requires m.Member? && Spaces(m.lead) && UnitsOk(m.key) && Spaces(m.colon) && Spaces(m.valueLead)
    ensures ValidUtf8(KeyText(m.lead, m.key, m.colon) + (m.valueLead + value)) <==> ValidUtf8(value)
  {
    var after := m.colon + ([':'] + (m.valueLead + value));
    KeyTextThen(m.lead, m.key, m.colon, m.valueLead + value);
    AsciiThenRest(m.lead, ['"'] + (UnitsText(m.key) + ['"'] + after));
    AsciiThenRest(['"'], UnitsText(m.key) + ['"'] + after);
    UnitsTextIsValid(m.key, after);
    AsciiThenRest(m.colon, [':'] + (m.valueLead + value));
    AsciiThenRest([':'], m.valueLead + value);
    AsciiThenRest(m.valueLead, value);
  }

  lemma {:induction false} MeaningIsCarried(c: Cst, depth: nat)
    requires Legal(c, depth)
    ensures Carried(Meaning(c), depth)
  {
    match c
    case CString(us) => DecodedIsValid(us);
    case CArray(es) => ElementsAreCarried(es, depth + 1);
    case CObject(ms) => MembersAreCarried(ms, depth + 1, {}, map[]);
    case _ =>
  }

  lemma {:induction false} ElementsAreCarried(e: Elements, depth: nat)
    requires LegalElements(e, depth)
    ensures forall i | 0 <= i < |ElementsMeaning(e)| :: Carried(ElementsMeaning(e)[i], depth)
  {
    if e.Element? {
      MeaningIsCarried(e.value, depth);
      ElementsAreCarried(e.tail, depth);
    }
  }

  lemma {:induction false} MembersAreCarried(m: Members, depth: nat, seen: set<Bytes>, before: map<Bytes, Json>)
    requires LegalMembers(m, depth, seen)
    requires forall k | k in before :: ValidUtf8(k) && Carried(before[k], depth)
    ensures forall k | k in MembersMeaning(m, before) :: ValidUtf8(k) && Carried(MembersMeaning(m, before)[k], depth)
  {
    if m.Member? {
      var k := DecodeUnits(m.key);
      DecodedIsValid(m.key);
      MeaningIsCarried(m.value, depth);
      MembersAreCarried(m.tail, depth, seen + {k}, before[k := Meaning(m.value)]);
    }
  }

  lemma {:induction false} LegalIsWellFormed(c: Cst, depth: nat)
    requires Legal(c, depth)
    ensures WellFormed(c)
  {
    match c
    case CArray(es) => LegalElementsWellFormed(es, depth + 1);
    case CObject(ms) => LegalMembersWellFormed(ms, depth + 1, {});
    case _ =>
  }

  lemma {:induction false} LegalElementsWellFormed(e: Elements, depth: nat)
    requires LegalElements(e, depth)
    ensures WellFormedElements(e)
  {
    if e.Element? {
      LegalIsWellFormed(e.value, depth);
      LegalElementsWellFormed(e.tail, depth);
    }
  }

  lemma {:induction false} LegalMembersWellFormed(m: Members, depth: nat, seen: set<Bytes>)
    requires LegalMembers(m, depth, seen)
    ensures WellFormedMembers(m)
  {
    if m.Member? {
      LegalIsWellFormed(m.value, depth);
      LegalMembersWellFormed(m.tail, depth, seen + {DecodeUnits(m.key)});
    }
  }

  // ----- the normal form

  /** A legal document is accepted exactly when its surrogate escapes are paired, as the value it means. */
  lemma CanonicalOfDocument(d: Document)
    requires LegalDocument(d)
    ensures Canonicalize(DocumentText(d)) == if AllPaired(d.root) then Some(Print(Meaning(d.root))) else None
  {
    LegalIsWellFormed(d.root, 0);
    ScansDocument(d);
    ReadsDocument(d);
    AsciiThenRest(d.lead, Text(d.root) + d.trail);
    LegalIsValid(d.root, 0, d.trail);
    AsciiThenRest(d.trail, "");
    assert d.trail + "" == d.trail;
  }

  /** What is accepted is exactly the legal documents with paired surrogate escapes. */
  lemma AcceptedIsLegal(raw: Bytes) returns (d: Document)
    requires Canonicalize(raw).Some?
    ensures LegalDocument(d) && AllPaired(d.root) && DocumentText(d) == raw
    ensures Canonicalize(raw) == Some(Print(Meaning(d.root))) && Carried(Meaning(d.root), 0)
    ensures ParseText(raw) == Some(Meaning(d.root))
  {
    d := SpelledDocument(raw);
    LegalIsWellFormed(d.root, 0);
    ScansDocument(d);
    MeaningIsCarried(d.root, 0);
  }

  /** Parsing the printed form gives the value back, and canonical bytes canonicalize to themselves. */
  lemma PrintedFormReadsBack(v: Json)
    requires Carried(v, 0)
    ensures ParseText(Print(v)) == Some(v) && Canonicalize(Print(v)) == Some(Print(v))
  {
    var d := PrintedDocument(v);
    CanonicalOfDocument(d);
    ReadsDocument(d);
  }

  /** Canonicalizing twice equals canonicalizing once. */
  lemma CanonicalizeIsIdempotent(raw: Bytes)
    requires Canonicalize(raw).Some?
    ensures Canonicalize(Canonicalize(raw).value) == Canonicalize(raw)
  {
    var d := AcceptedIsLegal(raw);
    PrintedFormReadsBack(Meaning(d.root));
  }

  /** Two accepted texts have the same canonical bytes exactly when they denote the same value. */
  lemma SameBytesIffSameValue(d: Document, e: Document)
    requires LegalDocument(d) && LegalDocument(e) && AllPaired(d.root) && AllPaired(e.root)
    ensures Canonicalize(DocumentText(d)) == Canonicalize(DocumentText(e)) <==> Meaning(d.root) == Meaning(e.root)
  {
    CanonicalOfDocument(d);
    CanonicalOfDocument(e);
    MeaningIsCarried(d.root, 0);
    MeaningIsCarried(e.root, 0);
    PrintedFormReadsBack(Meaning(d.root));
    PrintedFormReadsBack(Meaning(e.root));
  }
}
