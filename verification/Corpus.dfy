/**
 The normative corpus: positive cases, mutations of them, frozen request vectors and required-field
 removals, each under its own identity, put together and sorted. What is loaded does not depend on
 the order in which the manifests list their entries.
 */
module Corpus {
  import opened Basics
  import opened Ordering
  import opened Texts
  import opened JsonParser
  import opened CanonicalJson
  import opened CanonicalCodec
  import opened Mutation
  import MutationInPlace
  import opened ProtocolModel
  import opened ReferencePipeline
  import opened ReferenceAdapter

  /** One entry of a manifest. */
  datatype Item =
    | CaseItem(raw: Bytes)
    | MutationItem(caseID: Bytes, baseCaseID: Bytes, level: Level, kind: CaseKind, description: Bytes, expected: Expected,
                   mutation: MutationVector)
    | RequestItem(vector: CaseVector)
    | RequiredItem(caseID: Bytes, baseCaseID: Bytes, pointer: Bytes)

  datatype Manifest = Manifest(cases: seq<Item>, mutations: seq<Item>, requests: seq<Item>, required: seq<Item>)

  function CaseID(v: CaseVector): Bytes {
    v.caseID
  }

  /** The last vector of this identity. */
  function Lookup(vs: seq<CaseVector>, id: Bytes): Option<CaseVector> {
    if vs == [] then None
    else if vs[|vs| - 1].caseID == id then Some(vs[|vs| - 1])
    else Lookup(vs[..|vs| - 1], id)
  }

  ghost function EntryOf(p: Pipeline, bases: seq<CaseVector>, item: Item): Option<CaseVector> {
    match item
    case CaseItem(raw) =>
      var c :- Decode(p, raw);
      var canonical :- Canonicalize(raw);
      if FieldsOk(raw) then Some(CaseVector(c.caseID, c.level, c.kind, c.description, c.expected, canonical)) else None
    case MutationItem(id, base, level, kind, description, expected, mutation) =>
      var from :- Lookup(bases, base);
      var raw :- ApplyMutation(from.raw, mutation);
      Some(CaseVector(id, level, kind, description, expected, raw))
    case RequestItem(vector) =>
      var canonical :- Canonicalize(vector.raw);
      if Decode(p, canonical).Some? then Some(vector.(raw := canonical)) else None
    case RequiredItem(id, base, pointer) =>
      var from :- Lookup(bases, base);
      var raw :- ApplyMutation(from.raw, MutationVector(pointer, Remove, ""));
      Some(RequiredFieldVector(id, from.level, from.kind, "rejects missing required field " + pointer, raw))
  }

  /** The vectors of all items, if each has one. */
  ghost function Entries(p: Pipeline, bases: seq<CaseVector>, items: seq<Item>): Option<seq<CaseVector>> {
    if items == [] then Some([])
    else
      var front :- Entries(p, bases, items[..|items| - 1]);
      var last :- EntryOf(p, bases, items[|items| - 1]);
      Some(front + [last])
  }

  /** Identities are well formed and no two are the same. */
  predicate Named(vs: seq<CaseVector>) {
    && (forall i | 0 <= i < |vs| :: Identifier(vs[i].caseID))
    && forall i, j | 0 <= i < j < |vs| :: vs[i].caseID != vs[j].caseID
  }

  ghost function Load(p: Pipeline, m: Manifest): Option<seq<CaseVector>> {
    var cases :- Entries(p, [], m.cases);
    var mutations :- Entries(p, cases, m.mutations);
    var requests :- Entries(p, [], m.requests);
    var required :- Entries(p, cases + requests, m.required);
    var vs := cases + mutations + requests + required;
    if Named(vs) then Some(Sort(vs, CaseID)) else None
  }

  // ----- loading

  method EntryFor(p: Pipeline, bases: map<Bytes, CaseVector>, ghost listed: seq<CaseVector>, item: Item) returns (v: Option<CaseVector>)
    requires forall id :: Lookup(listed, id) == if id in bases then Some(bases[id]) else None
    ensures v == EntryOf(p, listed, item)
  {
    hide Canonicalize, ParseText, ApplyMutation, FieldsOk, Lookup;
    match item {
      case CaseItem(raw) =>
        var canonical := CanonicalizeJSON(raw);
        var value := ParseText(raw);
        var c := if canonical.None? || value.None? then None else p.typed(value.value);
        if c.None? || !FieldsOk(raw) {
          return None;
        }
        v := Some(CaseVector(c.value.caseID, c.value.level, c.value.kind, c.value.description, c.value.expected, canonical.value));
      case MutationItem(id, base, level, kind, description, expected, mutation) =>
        if base !in bases {
          return None;
        }
        var raw := MutationInPlace.ApplyJSONMutation(bases[base].raw, mutation);
        v := if raw.None? then None else Some(CaseVector(id, level, kind, description, expected, raw.value));
      case RequestItem(vector) =>
        var canonical := CanonicalizeJSON(vector.raw);
        if canonical.None? {
          return None;
        }
        CanonicalizeIsIdempotent(vector.raw);
        var value := ParseText(canonical.value);
        var c := if value.None? then None else p.typed(value.value);
        v := if c.None? then None else Some(vector.(raw := canonical.value));
      case RequiredItem(id, base, pointer) =>
        if base !in bases {
          return None;
        }
        var from := bases[base];
        var raw := MutationInPlace.ApplyJSONMutation(from.raw, MutationVector(pointer, Remove, ""));
        v := if raw.None? then None
             else Some(RequiredFieldVector(id, from.level, from.kind, "rejects missing required field " + pointer, raw.value));
    }
  }

  lemma {:induction false} EntriesFail(p: Pipeline, bases: seq<CaseVector>, items: seq<Item>, n: nat)
    requires n < |items| && EntryOf(p, bases, items[n]).None?
    ensures Entries(p, bases, items).None?
  {
    hide EntryOf;
    if n < |items| - 1 {
      EntriesFail(p, bases, items[..|items| - 1], n);
    }
  }

  lemma {:induction false} EntriesContinue(p: Pipeline, bases: seq<CaseVector>, items: seq<Item>, n: nat)
    requires n <= |items| && Entries(p, bases, items).Some?
    ensures Entries(p, bases, items[..n]).Some?
    ensures Entries(p, bases, items[..n]).value <= Entries(p, bases, items).value
  {
    hide EntryOf;
    if n < |items| {
      EntriesContinue(p, bases, items[..|items| - 1], n);
      assert items[..|items| - 1][..n] == items[..n];
    } else {
      assert items[..n] == items;
    }
  }

  lemma NamedOneMore(vs: seq<CaseVector>, v: CaseVector)
    ensures Named(vs + [v]) <==> Named(vs) && Identifier(v.caseID) && forall i | 0 <= i < |vs| :: vs[i].caseID != v.caseID
  {
    hide Identifier;
    var all := vs + [v];
    if Named(all) {
      forall i | 0 <= i < |vs| ensures Identifier(vs[i].caseID) && vs[i].caseID != v.caseID {
        assert all[i] == vs[i] && all[|vs|] == v;
      }
      forall i, j | 0 <= i < j < |vs| ensures vs[i].caseID != vs[j].caseID {
        assert all[i] == vs[i] && all[j] == vs[j];
      }
      assert all[|vs|] == v;
    }
  }

  lemma NamedParts(a: seq<CaseVector>, b: seq<CaseVector>)
    requires Named(a + b)
    ensures Named(a)
  {
    hide Identifier;
    assert forall i | 0 <= i < |a| :: (a + b)[i] == a[i];
  }

  ghost predicate Seen(seen: set<Bytes>, vs: seq<CaseVector>) {
    && (forall i | 0 <= i < |vs| :: vs[i].caseID in seen)
    && forall id | id in seen :: exists i | 0 <= i < |vs| :: vs[i].caseID == id
  }

  lemma SeenOneMore(seen: set<Bytes>, vs: seq<CaseVector>, v: CaseVector)
    requires Seen(seen, vs)
    ensures Seen(seen + {v.caseID}, vs + [v])
  {
    var all := vs + [v];
    forall id | id in seen + {v.caseID} ensures exists i | 0 <= i < |all| :: all[i].caseID == id {
      if id in seen {
        var i :| 0 <= i < |vs| && vs[i].caseID == id;
        assert all[i].caseID == id;
      } else {
        assert all[|vs|].caseID == id;
      }
    }
  }

  /** One manifest list: each entry is built and appended under an identity not seen before. */
  method LoadItems(p: Pipeline, bases: map<Bytes, CaseVector>, ghost listed: seq<CaseVector>, items: seq<Item>, before: seq<CaseVector>)
    returns (ok: bool, vectors: seq<CaseVector>)
    requires forall id :: Lookup(listed, id) == if id in bases then Some(bases[id]) else None
    requires Named(before)
    ensures ok <==> Entries(p, listed, items).Some? && Named(before + Entries(p, listed, items).value)
    ensures ok ==> vectors == before + Entries(p, listed, items).value
  {
    hide EntryOf, Named, Lookup, Identifier;
    vectors := before;
    var seen := set i | 0 <= i < |before| :: before[i].caseID;
    assert Seen(seen, before);
    assert before + [] == before;
    for n := 0 to |items|
      invariant Entries(p, listed, items[..n]).Some?
      invariant vectors == before + Entries(p, listed, items[..n]).value && Named(vectors)
      invariant Seen(seen, vectors)
    {
      assert items[..n + 1][..n] == items[..n];
      var v := EntryFor(p, bases, listed, items[n]);
      if v.None? {
        EntriesFail(p, listed, items, n);
        return false, [];
      }
      NamedOneMore(vectors, v.value);
      ghost var entries := Entries(p, listed, items[..n]).value;
      assert before + (entries + [v.value]) == vectors + [v.value];
      if !Identifier(v.value.caseID) || v.value.caseID in seen {
        NotNamed(p, listed, items, n + 1, before);
        return false, [];
      }
      SeenOneMore(seen, vectors, v.value);
      seen := seen + {v.value.caseID};
      vectors := vectors + [v.value];
    }
    assert items[..|items|] == items;
    ok := true;
  }

  /** A clash among the first entries stays one. */
  lemma NotNamed(p: Pipeline, listed: seq<CaseVector>, items: seq<Item>, n: nat, before: seq<CaseVector>)
    requires n <= |items| && Entries(p, listed, items[..n]).Some? && !Named(before + Entries(p, listed, items[..n]).value)
    ensures Entries(p, listed, items).Some? ==> !Named(before + Entries(p, listed, items).value)
  {
    hide EntryOf, Named, Entries;
    if Entries(p, listed, items).Some? {
      EntriesContinue(p, listed, items, n);
      var some, all := Entries(p, listed, items[..n]).value, Entries(p, listed, items).value;
      if Named(before + all) {
        assert (before + some) + all[|some|..] == before + all;
        NamedParts(before + some, all[|some|..]);
      }
    }
  }

  /** The vectors by identity; a later one of the same identity would replace an earlier one. */
  method Index(vs: seq<CaseVector>) returns (byID: map<Bytes, CaseVector>)
    ensures forall id :: Lookup(vs, id) == if id in byID then Some(byID[id]) else None
  {
    byID := map[];
    for i := 0 to |vs|
      invariant forall id :: Lookup(vs[..i], id) == if id in byID then Some(byID[id]) else None
    {
      assert vs[..i + 1][..i] == vs[..i];
      byID := byID[vs[i].caseID := vs[i]];
    }
    assert vs[..|vs|] == vs;
  }

  method LoadNormativeCorpus(p: Pipeline, m: Manifest) returns (r: Option<seq<CaseVector>>)
    ensures r == Load(p, m)
  {
    hide Entries, Lookup, Named, Sort;
    assert Named([]) by { NothingNamed(); }
    var none: map<Bytes, CaseVector> := map[];
    assert forall id :: Lookup([], id) == None by { NothingListed(); }
    var ok, cases := LoadItems(p, none, [], m.cases, []);
    LoadParts(p, m);
    if !ok {
      return None;
    }
    assert [] + Entries(p, [], m.cases).value == Entries(p, [], m.cases).value;
    var byID := Index(cases);
    var vectors;
    ok, vectors := LoadItems(p, byID, cases, m.mutations, cases);
    if !ok {
      return None;
    }
    var before := |vectors|;
    ok, vectors := LoadItems(p, none, [], m.requests, vectors);
    if !ok {
      return None;
    }
    assert vectors[before..] == Entries(p, [], m.requests).value;
    var bases := cases + vectors[before..];
    byID := Index(bases);
    ok, vectors := LoadItems(p, byID, bases, m.required, vectors);
    if !ok {
      return None;
    }
    r := Some(Sort(vectors, CaseID));
  }

  lemma NothingNamed()
    ensures Named([])
  {
  }

  lemma NothingListed()
    ensures forall id :: Lookup([], id) == None
  {
  }

  /** A corpus that loads has parts that load one after another without a clash. */
  lemma LoadParts(p: Pipeline, m: Manifest)
    ensures Load(p, m).Some? ==>
              && Entries(p, [], m.cases).Some?
              && var cases := Entries(p, [], m.cases).value;
                 && Named([] + cases) && Entries(p, cases, m.mutations).Some?
                 && var mutations := Entries(p, cases, m.mutations).value;
                    && Named(cases + mutations) && Entries(p, [], m.requests).Some?
                    && Named(cases + mutations + Entries(p, [], m.requests).value)
  {
    hide Entries, Named, Sort;
    if Load(p, m).Some? {
      var cases := Entries(p, [], m.cases).value;
      var mutations := Entries(p, cases, m.mutations).value;
      var requests := Entries(p, [], m.requests).value;
      var required := Entries(p, cases + requests, m.required).value;
      NamedParts(cases + mutations + requests, required);
      NamedParts(cases + mutations, requests);
      NamedParts(cases, mutations);
      assert [] + cases == cases;
    }
  }

  // ----- what is loaded

  lemma EntryIsCanonical(p: Pipeline, bases: seq<CaseVector>, item: Item)
    requires EntryOf(p, bases, item).Some?
    ensures Canonicalize(EntryOf(p, bases, item).value.raw) == Some(EntryOf(p, bases, item).value.raw)
  {
    hide Canonicalize, ApplyMutation, FieldsOk, Lookup, Decode;
    match item {
      case CaseItem(raw) => CanonicalizeIsIdempotent(raw);
      case RequestItem(vector) => CanonicalizeIsIdempotent(vector.raw);
      case MutationItem(_, base, _, _, _, _, mutation) => OutputIsCanonical(Lookup(bases, base).value.raw, mutation);
      case RequiredItem(_, base, pointer) => OutputIsCanonical(Lookup(bases, base).value.raw, MutationVector(pointer, Remove, ""));
    }
  }

  lemma {:induction false} EntriesAreCanonical(p: Pipeline, bases: seq<CaseVector>, items: seq<Item>)
    requires Entries(p, bases, items).Some?
    ensures forall v | v in Entries(p, bases, items).value :: Canonicalize(v.raw) == Some(v.raw)
  {
    hide EntryOf, Canonicalize;
    if items != [] {
      EntriesAreCanonical(p, bases, items[..|items| - 1]);
      EntryIsCanonical(p, bases, items[|items| - 1]);
    }
  }

  /** The bytes of every loaded vector are canonical: they arrive in a message as they are. */
  lemma LoadedIsCanonical(p: Pipeline, m: Manifest)
    requires Load(p, m).Some?
    ensures forall v | v in Load(p, m).value :: Canonicalize(v.raw) == Some(v.raw)
  {
    var cases := Entries(p, [], m.cases).value;
    var mutations := Entries(p, cases, m.mutations).value;
    var requests := Entries(p, [], m.requests).value;
    var required := Entries(p, cases + requests, m.required).value;
    EntriesAreCanonical(p, [], m.cases);
    EntriesAreCanonical(p, cases, m.mutations);
    EntriesAreCanonical(p, [], m.requests);
    EntriesAreCanonical(p, cases + requests, m.required);
    var vs := cases + mutations + requests + required;
    hide Entries, Named, Sort, Canonicalize;
    SortSorts(vs, CaseID);
    forall v | v in Sort(vs, CaseID) ensures v in vs {
      assert v in multiset(Sort(vs, CaseID));
      assert v in multiset(vs);
    }
  }

  /** The corpus is strictly sorted by identity, and every identity is well formed. */
  lemma CorpusIsStrictlySorted(p: Pipeline, m: Manifest)
    requires Load(p, m).Some?
    ensures var vs := Load(p, m).value;
            && (forall i, j | 0 <= i < j < |vs| :: LessEq(vs[i].caseID, vs[j].caseID) && vs[i].caseID != vs[j].caseID)
            && forall i | 0 <= i < |vs| :: Identifier(vs[i].caseID)
  {
    var cases := Entries(p, [], m.cases).value;
    var mutations := Entries(p, cases, m.mutations).value;
    var requests := Entries(p, [], m.requests).value;
    var vs := cases + mutations + requests + Entries(p, cases + requests, m.required).value;
    hide Entries, Named, Sort, Identifier;
    SortSorts(vs, CaseID);
    NamedIgnoresOrder(vs, Sort(vs, CaseID));
    NamedIs(Sort(vs, CaseID));
    assert Load(p, m) == Some(Sort(vs, CaseID));
    forall i, j | 0 <= i < j < |Sort(vs, CaseID)| ensures LessEq(Sort(vs, CaseID)[i].caseID, Sort(vs, CaseID)[j].caseID) {
      assert LessEq(CaseID(Sort(vs, CaseID)[i]), CaseID(Sort(vs, CaseID)[j]));
    }
  }

  lemma NamedIs(vs: seq<CaseVector>)
    requires Named(vs)
    ensures forall i, j | 0 <= i < j < |vs| :: vs[i].caseID != vs[j].caseID
    ensures forall i | 0 <= i < |vs| :: Identifier(vs[i].caseID)
  {
  }

  /** What naming comes to, without mention of places. */
  ghost predicate NamedSet(vs: seq<CaseVector>) {
    && (forall v | v in vs :: Identifier(v.caseID) && multiset(vs)[v] == 1)
    && forall v, w | v in vs && w in vs && v.caseID == w.caseID :: v == w
  }

  lemma {:induction false} NamedIsSet(vs: seq<CaseVector>)
    ensures Named(vs) <==> NamedSet(vs)
  {
    hide Identifier;
    if vs == [] {
    } else {
      var front, v := vs[..|vs| - 1], vs[|vs| - 1];
      NamedIsSet(front);
      assert vs == front + [v];
      NamedOneMore(front, v);
      NamedSetOneMore(front, v);
    }
  }

  lemma NamedSetOneMore(vs: seq<CaseVector>, v: CaseVector)
    ensures NamedSet(vs + [v]) <==> NamedSet(vs) && Identifier(v.caseID) && forall i | 0 <= i < |vs| :: vs[i].caseID != v.caseID
  {
    hide Identifier;
    var all := vs + [v];
    assert multiset(all) == multiset(vs) + multiset{v};
    if NamedSet(all) {
      forall i | 0 <= i < |vs| ensures vs[i].caseID != v.caseID {
        assert vs[i] in all && v in all;
        assert vs[i] in multiset(vs);
      }
      forall x | x in vs ensures Identifier(x.caseID) && multiset(vs)[x] == 1 {
        assert x in all && multiset(all)[x] == 1;
        assert x in multiset(vs);
      }
      assert v in all;
    }
    if NamedSet(vs) && Identifier(v.caseID) && forall i | 0 <= i < |vs| :: vs[i].caseID != v.caseID {
      forall x | x in all ensures Identifier(x.caseID) && multiset(all)[x] == 1 {
        if x == v {
          assert v !in vs && multiset(vs)[v] == 0;
        } else {
          assert x in vs;
        }
      }
    }
  }

  lemma {:induction false} NamedIgnoresOrder(a: seq<CaseVector>, b: seq<CaseVector>)
    requires multiset(a) == multiset(b)
    ensures Named(a) <==> Named(b)
  {
    hide Named, Identifier;
    NamedIsSet(a);
    NamedIsSet(b);
    forall v ensures v in a <==> v in b {
      assert v in a <==> v in multiset(a);
      assert v in b <==> v in multiset(b);
    }
  }

  // ----- order of the manifests

  /** Two lists that find the same base for every identity. */
  ghost predicate SameBases(a: seq<CaseVector>, b: seq<CaseVector>) {
    forall id :: Lookup(a, id) == Lookup(b, id)
  }

  lemma {:induction false} LookupFinds(vs: seq<CaseVector>, id: Bytes)
    ensures Lookup(vs, id).Some? ==> Lookup(vs, id).value in vs && Lookup(vs, id).value.caseID == id
    ensures Lookup(vs, id).None? ==> forall v | v in vs :: v.caseID != id
  {
    if vs != [] {
      LookupFinds(vs[..|vs| - 1], id);
      assert vs == vs[..|vs| - 1] + [vs[|vs| - 1]];
    }
  }

  lemma {:induction false} NamedBasesAgree(a: seq<CaseVector>, b: seq<CaseVector>)
    requires multiset(a) == multiset(b) && Named(a)
    ensures SameBases(a, b)
  {
    NamedIsSet(a);
    hide Named, Lookup, Identifier;
    forall v ensures v in a <==> v in b {
      assert v in a <==> v in multiset(a);
      assert v in b <==> v in multiset(b);
    }
    forall id ensures Lookup(a, id) == Lookup(b, id) {
      LookupFinds(a, id);
      LookupFinds(b, id);
    }
  }

  lemma SameEntry(p: Pipeline, a: seq<CaseVector>, b: seq<CaseVector>, item: Item)
    requires SameBases(a, b)
    ensures EntryOf(p, a, item) == EntryOf(p, b, item)
  {
    hide Lookup, ApplyMutation, Canonicalize, FieldsOk, Decode;
  }

  /** The items that give a vector. */
  ghost function Giving(p: Pipeline, bases: seq<CaseVector>, items: seq<Item>, v: CaseVector): seq<Item> {
    if items == [] then []
    else
      Giving(p, bases, items[..|items| - 1], v)
      + if EntryOf(p, bases, items[|items| - 1]) == Some(v) then [items[|items| - 1]] else []
  }

  lemma {:induction false} GivingCounts(p: Pipeline, bases: seq<CaseVector>, items: seq<Item>, v: CaseVector, item: Item)
    ensures multiset(Giving(p, bases, items, v))[item] == if EntryOf(p, bases, item) == Some(v) then multiset(items)[item] else 0
  {
    hide EntryOf;
    if items != [] {
      GivingCounts(p, bases, items[..|items| - 1], v, item);
      assert items == items[..|items| - 1] + [items[|items| - 1]];
    }
  }

  lemma {:induction false} EntriesCount(p: Pipeline, bases: seq<CaseVector>, items: seq<Item>, v: CaseVector)
    requires Entries(p, bases, items).Some?
    ensures multiset(Entries(p, bases, items).value)[v] == |Giving(p, bases, items, v)|
  {
    hide EntryOf;
    if items != [] {
      EntriesCount(p, bases, items[..|items| - 1], v);
    }
  }

  lemma {:induction false} EntriesExist(p: Pipeline, bases: seq<CaseVector>, items: seq<Item>)
    ensures Entries(p, bases, items).Some? <==> forall item | item in items :: EntryOf(p, bases, item).Some?
  {
    hide EntryOf;
    if items != [] {
      EntriesExist(p, bases, items[..|items| - 1]);
      assert items == items[..|items| - 1] + [items[|items| - 1]];
    }
  }

  lemma {:induction false} EntriesOfSameBases(p: Pipeline, a: seq<CaseVector>, b: seq<CaseVector>, items: seq<Item>)
    requires SameBases(a, b)
    ensures Entries(p, a, items) == Entries(p, b, items)
  {
    hide EntryOf, SameBases;
    if items != [] {
      EntriesOfSameBases(p, a, b, items[..|items| - 1]);
      SameEntry(p, a, b, items[|items| - 1]);
    }
  }

  predicate SameVectors(a: Option<seq<CaseVector>>, b: Option<seq<CaseVector>>) {
    a.Some? == b.Some? && (a.Some? ==> multiset(a.value) == multiset(b.value))
  }

  lemma {:induction false} EntriesIgnoreOrder(p: Pipeline, bases: seq<CaseVector>, a: seq<Item>, b: seq<Item>)
    requires multiset(a) == multiset(b)
    ensures SameVectors(Entries(p, bases, a), Entries(p, bases, b))
  {
    hide EntryOf, Entries, Giving;
    EntriesExist(p, bases, a);
    EntriesExist(p, bases, b);
    forall item ensures item in a <==> item in b {
      assert item in a <==> item in multiset(a);
      assert item in b <==> item in multiset(b);
    }
    if Entries(p, bases, a).Some? {
      forall v ensures multiset(Entries(p, bases, a).value)[v] == multiset(Entries(p, bases, b).value)[v] {
        EntriesCount(p, bases, a, v);
        EntriesCount(p, bases, b, v);
        GivingIgnoresOrder(p, bases, a, b, v);
      }
    }
  }

  lemma {:induction false} GivingIgnoresOrder(p: Pipeline, bases: seq<CaseVector>, a: seq<Item>, b: seq<Item>, v: CaseVector)
    requires multiset(a) == multiset(b)
    ensures |Giving(p, bases, a, v)| == |Giving(p, bases, b, v)|
  {
    hide EntryOf, Giving;
    forall item ensures multiset(Giving(p, bases, a, v))[item] == multiset(Giving(p, bases, b, v))[item] {
      GivingCounts(p, bases, a, v, item);
      GivingCounts(p, bases, b, v, item);
    }
    var x, y := Giving(p, bases, a, v), Giving(p, bases, b, v);
    assert multiset(x) == multiset(y);
    assert |multiset(x)| == |x| && |multiset(y)| == |y|;
  }

  predicate Reordered(m: Manifest, n: Manifest) {
    && multiset(m.cases) == multiset(n.cases) && multiset(m.mutations) == multiset(n.mutations)
    && multiset(m.requests) == multiset(n.requests) && multiset(m.required) == multiset(n.required)
  }

  /** Whatever the order of the entries in each list, the same corpus is loaded, or none. */
  lemma {:induction false} LoadIgnoresOrder(p: Pipeline, m: Manifest, n: Manifest)
    requires Reordered(m, n)
    ensures Load(p, m) == Load(p, n)
  {
    if Load(p, m).Some? {
      LoadedAlike(p, m, n);
    } else if Load(p, n).Some? {
      LoadedAlike(p, n, m);
    }
  }

  lemma {:induction false} LoadedAlike(p: Pipeline, m: Manifest, n: Manifest)
    requires Reordered(m, n) && Load(p, m).Some?
    ensures Load(p, n) == Load(p, m)
  {
    LoadParts(p, m);
    var cases := Entries(p, [], m.cases).value;
    var mutations := Entries(p, cases, m.mutations).value;
    var requests := Entries(p, [], m.requests).value;
    var required := Entries(p, cases + requests, m.required).value;
    hide Entries, Named, Sort;
    assert [] + cases == cases;
    EntriesIgnoreOrder(p, [], m.cases, n.cases);
    var cases' := Entries(p, [], n.cases).value;
    NamedBasesAgree(cases, cases');
    EntriesOfSameBases(p, cases, cases', n.mutations);
    EntriesIgnoreOrder(p, cases, m.mutations, n.mutations);
    EntriesIgnoreOrder(p, [], m.requests, n.requests);
    var mutations', requests' := Entries(p, cases', n.mutations).value, Entries(p, [], n.requests).value;
    NamedBases(cases, mutations, requests, required);
    NamedBasesAgree(cases + requests, cases' + requests');
    EntriesOfSameBases(p, cases + requests, cases' + requests', n.required);
    EntriesIgnoreOrder(p, cases + requests, m.required, n.required);
    var required' := Entries(p, cases' + requests', n.required).value;
    SameSorted(cases + mutations + requests + required, cases' + mutations' + requests' + required');
  }

  lemma {:induction false} NamedBases(cases: seq<CaseVector>, mutations: seq<CaseVector>, requests: seq<CaseVector>, required: seq<CaseVector>)
    requires Named(cases + mutations + requests + required)
    ensures Named(cases + requests)
  {
    NamedIgnoresOrder(cases + mutations + requests + required, (cases + requests) + (mutations + required));
    NamedParts(cases + requests, mutations + required);
  }

  lemma {:induction false} SameSorted(a: seq<CaseVector>, b: seq<CaseVector>)
    requires multiset(a) == multiset(b) && Named(a)
    ensures Named(b) && Sort(a, CaseID) == Sort(b, CaseID)
  {
    NamedIgnoresOrder(a, b);
    NamedIs(a);
    hide Named, Sort, Identifier;
    assert KeysTellApart(a, CaseID);
    SortIgnoresOrder(a, b, CaseID);
  }
}
