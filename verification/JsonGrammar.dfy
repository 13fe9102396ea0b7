/**
 JSON values, and JSON text as a grammar (sections 2 to 7 of RFC 8259): a concrete syntax tree
 records every choice a writer of JSON has (whitespace, escapes, order of members), spells
 one text and means one value. It is the reference the parser is measured against.
 */
module JsonGrammar {
  import opened Basics
  import opened JsonStrings
  import opened CanonicalNumbers

  datatype Json =
    | Null
    | Bool(b: bool)
    | Number(token: Bytes)
    | String(s: Bytes)
    | Array(items: seq<Json>)
    | Object(fields: map<Bytes, Json>)

  const MAXIMUM_DEPTH := 64

  // ----- concrete syntax

  datatype Cst =
    | CNull
    | CBool(b: bool)
    | CNumber(token: Bytes)
    | CString(units: seq<Unit>)
    | CArray(elements: Elements)
    | CObject(members: Members)

  /** Elements of an array: `gap` stands before the comma or the closing bracket, `lead` before the value. */
  datatype Elements =
    | EndOfArray(gap: Bytes)
    | Element(gap: Bytes, lead: Bytes, value: Cst, tail: Elements)

  datatype Members =
    | EndOfObject(gap: Bytes)
    | Member(gap: Bytes, lead: Bytes, key: seq<Unit>, colon: Bytes, valueLead: Bytes, value: Cst, tail: Members)

  datatype Document = Document(lead: Bytes, root: Cst, trail: Bytes)

  predicate IsSpace(c: char) {
    c == ' ' || c == '\t' || c == '\n' || c == '\r'
  }

  predicate Spaces(s: Bytes) {
    forall i | 0 <= i < |s| :: IsSpace(s[i])
  }

  // ----- the text spelled

  function Comma(gap: Bytes, first: bool): Bytes {
    if first then [] else gap + [',']
  }

  function Text(c: Cst): Bytes {
    match c
    case CNull => "null"
    case CBool(b) => if b then "true" else "false"
    case CNumber(t) => t
    case CString(us) => ['"'] + (UnitsText(us) + ['"'])
    case CArray(es) => ['['] + ElementsText(es, true)
    case CObject(ms) => ['{'] + MembersText(ms, true)
  }

  function ElementsText(e: Elements, first: bool): Bytes {
    match e
    case EndOfArray(gap) => gap + [']']
    case Element(gap, lead, value, tail) =>
      Comma(gap, first) + (lead + (Text(value) + ElementsText(tail, false)))
  }

  function MembersText(m: Members, first: bool): Bytes {
    match m
    case EndOfObject(gap) => gap + ['}']
    case Member(gap, lead, key, colon, valueLead, value, tail) =>
      Comma(gap, first) + (KeyText(lead, key, colon) + (valueLead + (Text(value) + MembersText(tail, false))))
  }

  /** A key with the colon after it. */
  function KeyText(lead: Bytes, key: seq<Unit>, colon: Bytes): Bytes {
    lead + (['"'] + (UnitsText(key) + ['"'] + (colon + [':'])))
  }

  function DocumentText(d: Document): Bytes {
    d.lead + (Text(d.root) + d.trail)
  }

  // ----- what the protocol admits

  predicate Legal(c: Cst, depth: nat) {
    depth <= MAXIMUM_DEPTH &&
    match c
    case CNumber(t) => IntegerToken(t)
    case CString(us) => UnitsOk(us)
    case CArray(es) => LegalElements(es, depth + 1)
    case CObject(ms) => LegalMembers(ms, depth + 1, {})
    case _ => true
  }

  predicate LegalElements(e: Elements, depth: nat) {
    Spaces(e.gap) &&
    (e.Element? ==> Spaces(e.lead) && Legal(e.value, depth) && LegalElements(e.tail, depth))
  }

  /** Keys are compared after decoding; `seen` holds those of the members before. */
  predicate LegalMembers(m: Members, depth: nat, seen: set<Bytes>) {
    Spaces(m.gap) &&
    (m.Member? ==>
       && Spaces(m.lead) && UnitsOk(m.key) && Spaces(m.colon) && Spaces(m.valueLead)
       && DecodeUnits(m.key) !in seen && Legal(m.value, depth)
       && LegalMembers(m.tail, depth, seen + {DecodeUnits(m.key)}))
  }

  predicate LegalDocument(d: Document) {
    Spaces(d.lead) && Legal(d.root, 0) && Spaces(d.trail)
  }

  // ----- the value meant

  function Meaning(c: Cst): Json {
    match c
    case CNull => Null
    case CBool(b) => Bool(b)
    case CNumber(t) => Number(t)
    case CString(us) => String(DecodeUnits(us))
    case CArray(es) => Array(ElementsMeaning(es))
    case CObject(ms) => Object(MembersMeaning(ms, map[]))
  }

  function ElementsMeaning(e: Elements): seq<Json> {
    match e
    case EndOfArray(_) => []
    case Element(_, _, value, tail) => [Meaning(value)] + ElementsMeaning(tail)
  }

  function MembersMeaning(m: Members, before: map<Bytes, Json>): map<Bytes, Json> {
    match m
    case EndOfObject(_) => before
    case Member(_, _, key, _, _, value, tail) =>
      MembersMeaning(tail, before[DecodeUnits(key) := Meaning(value)])
  }

  // ----- surrogate escapes anywhere in a text

  ghost predicate AllPaired(c: Cst) {
    match c
    case CString(us) => Paired(us)
    case CArray(es) => ElementsPaired(es)
    case CObject(ms) => MembersPaired(ms)
    case _ => true
  }

  ghost predicate ElementsPaired(e: Elements) {
    e.Element? ==> AllPaired(e.value) && ElementsPaired(e.tail)
  }

  ghost predicate MembersPaired(m: Members) {
    m.Member? ==> Paired(m.key) && AllPaired(m.value) && MembersPaired(m.tail)
  }
}
