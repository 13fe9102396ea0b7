/**
 Canonical text as a line: it holds no line break, and its length is bounded by that of its parts, so the
 control messages of a session fit on any line.
 */
module PrintedLength {
  import opened Basics
  import opened Utf8
  import opened JsonStrings
  import opened JsonGrammar
  import opened JsonParser
  import opened CanonicalJson

  lemma {:induction false} EncodedLength(s: Bytes)
    ensures |EncodeString(s)| <= 6 * |s| + 2
    decreases |s|
  {
    if s != [] {
      var n := RuneLength(s);
      EncodedLength(s[if n == 0 then 1 else n..]);
    }
  }

  lemma {:induction false} ItemsLength(items: seq<Json>, first: bool, bound: nat)
    requires forall i | 0 <= i < |items| :: |Print(items[i])| < bound
    ensures |PrintItems(items, first)| <= |items| * bound + 1
  {
    hide Print;
    if items != [] {
      ItemsLength(items[1..], false, bound);
      assert |items| * bound == bound + |items[1..]| * bound;
    }
  }

  lemma {:induction false} MembersLength(v: Json, keys: seq<Bytes>, first: bool, bound: nat)
    requires v.Object? && forall k | k in keys && k in v.fields :: 6 * |k| + |Print(v.fields[k])| + 4 <= bound
    ensures |PrintMembers(v, keys, first)| <= |keys| * bound + 1
  {
    hide Print, EncodeString;
    if keys != [] {
      MembersLength(v, keys[1..], false, bound);
      MembersLength(v, keys[1..], first, bound);
      EncodedLength(keys[0]);
      assert |keys| * bound == bound + |keys[1..]| * bound;
    }
  }

  /** An object is printed within its number of members times the longest of them. */
  lemma ObjectLength(v: Json, bound: nat)
    requires v.Object? && forall k | k in v.fields :: 6 * |k| + |Print(v.fields[k])| + 4 <= bound
    ensures |Print(v)| <= |v.fields| * bound + 2
  {
    var keys := SortedKeys(v.fields.Keys);
    SortedKeysOfListing(Listing(v.fields.Keys), v.fields.Keys);
    assert |multiset(keys)| == |keys| && |multiset(v.fields.Keys)| == |v.fields.Keys|;
    MembersLength(v, keys, true, bound);
  }

  // ----- no line breaks

  predicate OneLine(s: Bytes) {
    forall i | 0 <= i < |s| :: s[i] >= ' '
  }

  lemma OneLineTogether(a: Bytes, b: Bytes)
    requires OneLine(a) && OneLine(b)
    ensures OneLine(a + b)
  {
  }

  lemma {:induction false} BodyIsOneLine(s: Bytes)
    requires ValidUtf8(s)
    ensures OneLine(EncodeBody(s))
    decreases |s|
  {
    if s != [] {
      var n := RuneLength(s);
      BodyIsOneLine(s[n..]);
      UnitIsOneLine(s[..n]);
      OneLineTogether(UnitText(CanonicalUnit(s[..n])), EncodeBody(s[n..]));
    }
  }

  lemma UnitIsOneLine(r: Bytes)
    requires IsRune(r)
    ensures OneLine(UnitText(CanonicalUnit(r)))
  {
  }

  /** Canonical text is one line. */
  lemma {:induction false} CanonicalIsOneLine(v: Json, depth: nat)
    requires Carried(v, depth)
    ensures OneLine(Print(v))
    decreases v, 1
  {
    match v
    case Number(token) => TokenChars(token);
    case String(s) => BodyIsOneLine(s);
    case Array(items) => ItemsAreOneLine(items, depth + 1, true);
    case Object(fields) => MembersAreOneLine(v, depth, SortedKeys(fields.Keys), true);
    case _ =>
  }

  lemma {:induction false} ItemsAreOneLine(items: seq<Json>, depth: nat, first: bool)
    requires forall i | 0 <= i < |items| :: Carried(items[i], depth)
    ensures OneLine(PrintItems(items, first))
    decreases items
  {
    if items != [] {
      CanonicalIsOneLine(items[0], depth);
      ItemsAreOneLine(items[1..], depth, false);
      OneLineTogether(Print(items[0]), PrintItems(items[1..], false));
    }
  }

  lemma MemberIsOneLine(key: Bytes, value: Bytes, rest: Bytes, first: bool)
    requires OneLine(EncodeBody(key)) && OneLine(value) && OneLine(rest)
    ensures OneLine(Comma("", first) + (EncodeString(key) + ([':'] + (value + rest))))
  {
    hide EncodeBody;
    OneLineTogether(value, rest);
    OneLineTogether([':'], value + rest);
    OneLineTogether(EncodeBody(key), ['"']);
    OneLineTogether(['"'], EncodeBody(key) + ['"']);
    OneLineTogether(EncodeString(key), [':'] + (value + rest));
    OneLineTogether(Comma("", first), EncodeString(key) + ([':'] + (value + rest)));
  }

  lemma {:induction false} MembersAreOneLine(v: Json, depth: nat, keys: seq<Bytes>, first: bool)
    requires v.Object? && Carried(v, depth)
    ensures OneLine(PrintMembers(v, keys, first))
    decreases v, 0, |keys|
  {
    hide OneLine, EncodeString, Print;
    if keys == [] {
      EndIsOneLine();
    } else if keys[0] !in v.fields {
      MembersAreOneLine(v, depth, keys[1..], first);
    } else {
      MembersAreOneLine(v, depth, keys[1..], false);
      BodyIsOneLine(keys[0]);
      CanonicalIsOneLine(v.fields[keys[0]], depth + 1);
      MemberIsOneLine(keys[0], Print(v.fields[keys[0]]), PrintMembers(v, keys[1..], false), first);
    }
  }

  lemma EndIsOneLine()
    ensures OneLine(['}'])
  {
  }
}
