/**
 The decoder and the printer as they run: a reader that moves through its input while lists and
 maps fill up, and a buffer written to in order. Both are proved against `JsonParser`
 and `CanonicalJson`.
 */
module CanonicalCodec {
  import opened Basics
  import opened Utf8
  import opened Ordering
  import opened JsonStrings
  import opened JsonGrammar
  import opened JsonParser
  import opened EscapeScanner
  import opened CanonicalJson
  import opened TextMeaning

  /** Unread input. */
  class Decoder {
    var rest: Bytes

    constructor (raw: Bytes)
      ensures rest == raw
    {
      rest := raw;
    }
  }

  class Buffer {
    var bytes: Bytes

    constructor ()
      ensures bytes == ""
    {
      bytes := "";
    }

    method Write(more: Bytes)
      modifies this
      ensures bytes == old(bytes) + more
    {
      bytes := bytes + more;
    }
  }

  // ----- decoding

  method DecodeCanonicalValue(decoder: Decoder, depth: nat) returns (r: Option<Json>)
    modifies decoder
    ensures r.Some? <==> ParseValue(old(decoder.rest), depth).Some?
    ensures r.Some? ==> ParseValue(old(decoder.rest), depth).value == (r.value, decoder.rest)
    decreases |decoder.rest|, 0
  {
    if depth > MAXIMUM_DEPTH {
      return None;
    }
    var t := SkipSpaces(decoder.rest);
    if t == "" {
      return None;
    }
    if t[0] == '{' {
      decoder.rest := t[1..];
      r := DecodeMembers(decoder, depth + 1);
    } else if t[0] == '[' {
      decoder.rest := t[1..];
      r := DecodeElements(decoder, depth + 1);
    } else if t[0] == '"' {
      var literal := ScanString(t[1..]);
      if literal.None? {
        return None;
      }
      decoder.rest := literal.value.1;
      r := Some(String(DecodeUnits(literal.value.0)));
    } else {
      var scalar := ParseScalar(t);
      if scalar.None? {
        return None;
      }
      decoder.rest := scalar.value.1;
      r := Some(scalar.value.0);
    }
  }

  method DecodeElements(decoder: Decoder, depth: nat) returns (r: Option<Json>)
    modifies decoder
    ensures r.Some? <==> ParseElements(old(decoder.rest), depth, [], true).Some?
    ensures r.Some? ==> ParseElements(old(decoder.rest), depth, [], true).value == (r.value, decoder.rest)
    decreases |decoder.rest|, 1
  {
    var items: seq<Json> := [];
    var first := true;
    while true
      invariant |decoder.rest| <= |old(decoder.rest)|
      invariant ParseElements(old(decoder.rest), depth, [], true) == ParseElements(decoder.rest, depth, items, first)
      decreases |decoder.rest|
    {
      var t := SkipSpaces(decoder.rest);
      if t == "" {
        return None;
      }
      if t[0] == ']' {
        decoder.rest := t[1..];
        return Some(Array(items));
      }
      if !first && t[0] != ',' {
        return None;
      }
      decoder.rest := if first then t else t[1..];
      var value := DecodeCanonicalValue(decoder, depth);
      if value.None? {
        return None;
      }
      items := items + [value.value];
      first := false;
    }
  }

  method DecodeMembers(decoder: Decoder, depth: nat) returns (r: Option<Json>)
    modifies decoder
    ensures r.Some? <==> ParseMembers(old(decoder.rest), depth, map[], true).Some?
    ensures r.Some? ==> ParseMembers(old(decoder.rest), depth, map[], true).value == (r.value, decoder.rest)
    decreases |decoder.rest|, 1
  {
    var fields: map<Bytes, Json> := map[];
    var first := true;
    while true
      invariant |decoder.rest| <= |old(decoder.rest)|
      invariant ParseMembers(old(decoder.rest), depth, map[], true) == ParseMembers(decoder.rest, depth, fields, first)
      decreases |decoder.rest|
    {
      var t := SkipSpaces(decoder.rest);
      if t == "" {
        return None;
      }
      if t[0] == '}' {
        decoder.rest := t[1..];
        return Some(Object(fields));
      }
      if !first && t[0] != ',' {
        return None;
      }
      var key := ParseKey(if first then t else t[1..]);
      if key.None? || key.value.0 in fields {
        return None;
      }
      decoder.rest := key.value.1;
      var value := DecodeCanonicalValue(decoder, depth);
      if value.None? {
        return None;
      }
      fields := fields[key.value.0 := value.value];
      first := false;
    }
  }

  // ----- printing

  method WriteCanonicalValue(output: Buffer, value: Json)
    modifies output
    ensures output.bytes == old(output.bytes) + Print(value)
    decreases value, 1
  {
    match value
    case Null => output.Write("null");
    case Bool(b) => output.Write(if b then "true" else "false");
    case Number(token) => output.Write(token);
    case String(s) => output.Write(EncodeString(s));
    case Array(items) => WriteItems(output, value);
    case Object(fields) => WriteMembers(output, value);
  }

  method WriteItems(output: Buffer, value: Json)
    requires value.Array?
    modifies output
    ensures output.bytes == old(output.bytes) + Print(value)
    decreases value, 0
  {
    var items := value.items;
    output.Write(['[']);
    ghost var goal := output.bytes + PrintItems(items, true);
    Associates(old(output.bytes), ['['], PrintItems(items, true));
    for index := 0 to |items|
      invariant goal == output.bytes + PrintItems(items[index..], index == 0)
    {
      ItemWritten(items, index, output.bytes);
      output.Write(Comma("", index == 0));
      WriteCanonicalValue(output, items[index]);
    }
    assert items[|items|..] == [];
    output.Write([']']);
  }

  lemma ItemWritten(items: seq<Json>, index: nat, before: Bytes)
    requires index < |items|
    ensures before + PrintItems(items[index..], index == 0)
            == before + Comma("", index == 0) + Print(items[index]) + PrintItems(items[index + 1..], false)
  {
    assert items[index..][1..] == items[index + 1..];
    var comma, x, after := Comma("", index == 0), Print(items[index]), PrintItems(items[index + 1..], false);
    assert before + (comma + (x + after)) == before + comma + x + after;
  }

  lemma Associates(a: Bytes, b: Bytes, c: Bytes)
    ensures a + b + c == a + (b + c)
  {
  }

  ghost function MemberText(key: Bytes, value: Json): Bytes {
    EncodeString(key) + ([':'] + Print(value))
  }

  lemma MemberWritten(value: Json, keys: seq<Bytes>, index: nat, before: Bytes)
    requires value.Object? && index < |keys| && keys[index] in value.fields
    ensures before + PrintMembers(value, keys[index..], index == 0)
            == before + Comma("", index == 0) + MemberText(keys[index], value.fields[keys[index]])
               + PrintMembers(value, keys[index + 1..], false)
  {
    assert keys[index..][1..] == keys[index + 1..];
    var comma, name, x, after := Comma("", index == 0), EncodeString(keys[index]), Print(value.fields[keys[index]]),
                                 PrintMembers(value, keys[index + 1..], false);
    Regrouped(comma, name, x, after);
    assert before + (comma + (name + ([':'] + x)) + after) == before + comma + (name + ([':'] + x)) + after;
  }

  lemma Regrouped(comma: Bytes, name: Bytes, x: Bytes, after: Bytes)
    ensures comma + (name + ([':'] + (x + after))) == comma + (name + ([':'] + x)) + after
  {
  }

  method WriteMember(output: Buffer, first: bool, key: Bytes, value: Json)
    modifies output
    ensures output.bytes == old(output.bytes) + Comma("", first) + MemberText(key, value)
    decreases value, 2
  {
    output.Write(Comma("", first));
    ghost var before := output.bytes;
    output.Write(EncodeString(key));
    output.Write([':']);
    WriteCanonicalValue(output, value);
    Associates(before + EncodeString(key), [':'], Print(value));
    Associates(before, EncodeString(key), [':'] + Print(value));
  }

  method WriteMembers(output: Buffer, value: Json)
    requires value.Object?
    modifies output
    ensures output.bytes == old(output.bytes) + Print(value)
    decreases value, 0
  {
    var keys := ListKeys(value.fields);
    SortedKeysOfListing(keys, value.fields.Keys);
    keys := Sort(keys, Self);
    output.Write(['{']);
    WriteListed(output, value, keys);
    Associates(old(output.bytes), ['{'], PrintMembers(value, keys, true));
  }

  method WriteListed(output: Buffer, value: Json, keys: seq<Bytes>)
    requires value.Object? && multiset(keys) == multiset(value.fields.Keys)
    modifies output
    ensures output.bytes == old(output.bytes) + PrintMembers(value, keys, true)
    decreases value, 0, 0
  {
    for index := 0 to |keys|
      invariant old(output.bytes) + PrintMembers(value, keys, true)
             == output.bytes + PrintMembers(value, keys[index..], index == 0)
    {
      assert keys[index] in multiset(keys);
      MemberWritten(value, keys, index, output.bytes);
      WriteMember(output, index == 0, keys[index], value.fields[keys[index]]);
    }
    assert keys[|keys|..] == [];
    output.Write(['}']);
  }

  /** Collects the keys of a map in whatever order it yields them. */
  method ListKeys(fields: map<Bytes, Json>) returns (keys: seq<Bytes>)
    ensures multiset(keys) == multiset(fields.Keys)
  {
    keys := [];
    var left := fields.Keys;
    while left != {}
      invariant multiset(keys) + multiset(left) == multiset(fields.Keys)
      decreases left
    {
      var k :| k in left;
      MoveOne(keys, left, k);
      keys := keys + [k];
      left := left - {k};
    }
  }

  lemma MoveOne(keys: seq<Bytes>, left: set<Bytes>, k: Bytes)
    requires k in left
    ensures multiset(keys + [k]) + multiset(left - {k}) == multiset(keys) + multiset(left)
  {
    assert multiset(left) == multiset{k} + multiset(left - {k});
  }

  method CanonicalizeJSON(raw: Bytes) returns (r: Option<Bytes>)
    ensures r == Canonicalize(raw)
    ensures IsCanonicalOf(raw, r)
  {
    hide IsCanonicalOf;
    CanonicalizeMeans(raw);
    if !ValidUtf8(raw) {
      return None;
    }
    var paired := ValidateEscapedUnicodeScalars(raw);
    if !paired {
      return None;
    }
    var decoder := new Decoder(raw);
    var value := DecodeCanonicalValue(decoder, 0);
    if value.None? || SkipSpaces(decoder.rest) != "" {
      return None;
    }
    var output := new Buffer();
    WriteCanonicalValue(output, value.value);
    assert "" + Print(value.value) == Print(value.value);
    r := Some(output.bytes);
  }
}
