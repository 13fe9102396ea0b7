/**
 Corpus mutations: one add, remove or replace at the place a pointer names (a subset of section 4
 of RFC 6902), on JSON values. The laws relate a mutation to reading the document before and
 after it.
 */
module Mutation {
  import opened Basics
  import opened Utf8
  import opened Digits
  import opened JsonGrammar
  import opened JsonParser
  import opened CanonicalJson
  import opened ParserCorrectness
  import opened JsonPointer

  datatype Operation = Remove | Replace | Add | OtherOperation(text: Bytes)

  predicate Signed(token: Bytes) {
    token != "" && (token[0] == '+' || token[0] == '-')
  }

  /** A decimal number with an optional sign; the value is unbounded here. */
  function Atoi(token: Bytes): Option<int> {
    var digits := if Signed(token) then token[1..] else token;
    if digits == "" || !AllDigits(digits) then None
    else
      var magnitude: int := DigitsValue(digits);
      Some(if token[0] == '-' then -magnitude else magnitude)
  }

  /** The array index a token names: no leading zero, within the array. */
  function ArrayIndex(token: Bytes, length: nat): (r: Option<nat>)
    ensures r.Some? ==> r.value < length
  {
    if token == "" || (|token| > 1 && token[0] == '0') then None
    else
      var index :- Atoi(token);
      if 0 <= index < length then Some(index) else None
  }

  function Child(v: Json, token: Bytes): Option<Json> {
    match v
    case Object(fields) => if token in fields then Some(fields[token]) else None
    case Array(items) =>
      var index :- ArrayIndex(token, |items|);
      Some(items[index])
    case _ => None
  }

  /** `v` with the child a token names replaced. */
  function WithChild(v: Json, token: Bytes, child: Json): Json {
    match v
    case Object(fields) => Object(fields[token := child])
    case Array(items) =>
      var index := ArrayIndex(token, |items|);
      if index.Some? then Array(items[index.value := child]) else v
    case _ => v
  }

  /** The value a token list leads to. */
  function Get(v: Json, tokens: seq<Bytes>): Option<Json> {
    if tokens == [] then Some(v)
    else
      var child :- Child(v, tokens[0]);
      Get(child, tokens[1..])
  }

  /** The mutation of the container that holds the target. */
  function MutatedHere(v: Json, leaf: Bytes, operation: Operation, value: Json): Option<Json> {
    match v
    case Object(fields) =>
      (match operation
       case Remove => if leaf in fields then Some(Object(fields - {leaf})) else None
       case Replace => if leaf in fields then Some(Object(fields[leaf := value])) else None
       case Add => Some(Object(fields[leaf := value]))
       case OtherOperation(_) => None)
    case Array(items) =>
      var index :- ArrayIndex(leaf, |items|);
      if operation == Replace then Some(Array(items[index := value])) else None
    case _ => None
  }

  function Mutated(v: Json, tokens: seq<Bytes>, operation: Operation, value: Json): Option<Json> {
    if tokens == [] then None
    else if |tokens| == 1 then MutatedHere(v, tokens[0], operation, value)
    else
      var child :- Child(v, tokens[0]);
      var changed :- Mutated(child, tokens[1..], operation, value);
      Some(WithChild(v, tokens[0], changed))
  }

  // ----- when a mutation succeeds

  ghost function Parent(v: Json, tokens: seq<Bytes>): Option<Json>
    requires tokens != []
  {
    Get(v, tokens[..|tokens| - 1])
  }

  lemma ParentBelow(v: Json, tokens: seq<Bytes>)
    requires |tokens| > 1
    ensures Parent(v, tokens) == if Child(v, tokens[0]).Some? then Parent(Child(v, tokens[0]).value, tokens[1..]) else None
  {
    assert tokens[..|tokens| - 1][1..] == tokens[1..][..|tokens[1..]| - 1];
  }

  /**
   Replace needs a target, remove a target that is a member of an object, add an object to hold it;
   nothing else is needed and no other operation is known.
   */
  lemma {:induction false} SucceedsExactlyWhen(v: Json, tokens: seq<Bytes>, operation: Operation, value: Json)
    requires tokens != []
    ensures Get(v, tokens).Some? ==> Parent(v, tokens).Some?
    ensures Mutated(v, tokens, operation, value).Some? <==>
            match operation
            case Replace => Get(v, tokens).Some?
            case Remove => Get(v, tokens).Some? && Parent(v, tokens).value.Object?
            case Add => Parent(v, tokens).Some? && Parent(v, tokens).value.Object?
            case OtherOperation(_) => false
  {
    if |tokens| == 1 {
      assert tokens[..0] == [] && tokens[1..] == [];
    } else {
      ParentBelow(v, tokens);
      if Child(v, tokens[0]).Some? {
        SucceedsExactlyWhen(Child(v, tokens[0]).value, tokens[1..], operation, value);
      }
    }
  }

  // ----- get and put

  lemma ChildOfWithChild(v: Json, token: Bytes, child: Json, other: Json)
    requires Child(v, token).Some?
    ensures Child(WithChild(v, token, child), token) == Some(child)
    ensures WithChild(WithChild(v, token, child), token, other) == WithChild(v, token, other)
    ensures WithChild(v, token, Child(v, token).value) == v
  {
    match v
    case Object(fields) =>
      assert fields[token := fields[token]] == fields;
      assert fields[token := child][token := other] == fields[token := other];
    case Array(items) =>
      var index := ArrayIndex(token, |items|).value;
      assert items[index := items[index]] == items;
      assert items[index := child][index := other] == items[index := other];
    case _ =>
  }

  /** After replace or add the path reads back the new value; after remove it is absent. */
  lemma {:induction false} ReadBack(v: Json, tokens: seq<Bytes>, operation: Operation, value: Json)
    requires Mutated(v, tokens, operation, value).Some?
    ensures Get(Mutated(v, tokens, operation, value).value, tokens) == if operation == Remove then None else Some(value)
  {
    if |tokens| == 1 {
      assert tokens[1..] == [];
    } else {
      var child := Child(v, tokens[0]).value;
      ReadBack(child, tokens[1..], operation, value);
      ChildOfWithChild(v, tokens[0], Mutated(child, tokens[1..], operation, value).value, child);
    }
  }

  /** Adding the removed value again restores the document. */
  lemma {:induction false} RemoveThenAdd(v: Json, tokens: seq<Bytes>, unused: Json)
    requires Mutated(v, tokens, Remove, unused).Some?
    ensures Get(v, tokens).Some?
    ensures Mutated(Mutated(v, tokens, Remove, unused).value, tokens, Add, Get(v, tokens).value) == Some(v)
  {
    if |tokens| == 1 {
      assert tokens[1..] == [];
      assert (v.fields - {tokens[0]})[tokens[0] := v.fields[tokens[0]]] == v.fields;
    } else {
      var child := Child(v, tokens[0]).value;
      RemoveThenAdd(child, tokens[1..], unused);
      ChildOfWithChild(v, tokens[0], Mutated(child, tokens[1..], Remove, unused).value, child);
    }
  }

  /** Removing what was added where nothing stood restores the document. */
  lemma {:induction false} AddThenRemove(v: Json, tokens: seq<Bytes>, value: Json, unused: Json)
    requires Mutated(v, tokens, Add, value).Some? && Get(v, tokens).None?
    ensures Mutated(Mutated(v, tokens, Add, value).value, tokens, Remove, unused) == Some(v)
  {
    if |tokens| == 1 {
      assert tokens[1..] == [];
      assert v.fields[tokens[0] := value] - {tokens[0]} == v.fields;
    } else {
      var child := Child(v, tokens[0]).value;
      AddThenRemove(child, tokens[1..], value, unused);
      ChildOfWithChild(v, tokens[0], Mutated(child, tokens[1..], Add, value).value, child);
    }
  }

  /** Of two replacements only the last one remains, and replacing a value by itself changes nothing. */
  lemma {:induction false} ReplaceTwice(v: Json, tokens: seq<Bytes>, first: Json, second: Json)
    requires tokens != [] && Get(v, tokens).Some?
    ensures Mutated(v, tokens, Replace, first).Some?
    ensures Mutated(Mutated(v, tokens, Replace, first).value, tokens, Replace, second) == Mutated(v, tokens, Replace, second)
    ensures Mutated(v, tokens, Replace, Get(v, tokens).value) == Some(v)
  {
    if |tokens| == 1 {
      assert tokens[1..] == [];
      ChildOfWithChild(v, tokens[0], first, second);
    } else {
      var child := Child(v, tokens[0]).value;
      ReplaceTwice(child, tokens[1..], first, second);
      SucceedsExactlyWhen(child, tokens[1..], Replace, second);
      ChildOfWithChild(v, tokens[0], Mutated(child, tokens[1..], Replace, first).value,
                       Mutated(child, tokens[1..], Replace, second).value);
    }
  }

  // ----- what stays unchanged

  /** Whether the second token names another child of a container than the first, or none at all. */
  predicate NamesDiffer(v: Json, a: Bytes, b: Bytes) {
    match v
    case Object(_) => a != b
    case Array(items) => ArrayIndex(a, |items|).Some? && ArrayIndex(a, |items|) != ArrayIndex(b, |items|)
    case _ => false
  }

  predicate NamesSame(v: Json, a: Bytes, b: Bytes) {
    match v
    case Object(_) => a == b
    case Array(items) => ArrayIndex(a, |items|) == ArrayIndex(b, |items|)
    case _ => false
  }

  /** The two paths follow the same children for a while and then part. */
  predicate Diverges(v: Json, tokens: seq<Bytes>, other: seq<Bytes>) {
    && tokens != [] && other != []
    && (NamesDiffer(v, tokens[0], other[0])
        || (NamesSame(v, tokens[0], other[0]) && Child(v, tokens[0]).Some?
            && Diverges(Child(v, tokens[0]).value, tokens[1..], other[1..])))
  }

  /** Every path that parts from the target's reads the same before and after. */
  lemma {:induction false} OthersUnchanged(v: Json, tokens: seq<Bytes>, operation: Operation, value: Json, other: seq<Bytes>)
    requires Mutated(v, tokens, operation, value).Some? && Diverges(v, tokens, other)
    ensures Get(Mutated(v, tokens, operation, value).value, other) == Get(v, other)
  {
    var after := Mutated(v, tokens, operation, value).value;
    if NamesDiffer(v, tokens[0], other[0]) {
      assert Child(after, other[0]) == Child(v, other[0]);
    } else {
      var child := Child(v, tokens[0]).value;
      assert |tokens| > 1;
      OthersUnchanged(child, tokens[1..], operation, value, other[1..]);
      ChildOfWithChild(v, tokens[0], Mutated(child, tokens[1..], operation, value).value, child);
      assert Child(after, other[0]) == Child(after, tokens[0]);
    }
  }

  /** Without a sign, an accepted index token is the canonical decimal of its index. */
  lemma IndexTokensAreUnique(a: Bytes, b: Bytes, length: nat)
    requires !Signed(a) && !Signed(b) && ArrayIndex(a, length).Some? && ArrayIndex(b, length).Some?
    ensures ArrayIndex(a, length) == ArrayIndex(b, length) <==> a == b
    ensures a == DigitsText(ArrayIndex(a, length).value)
  {
    TextOfValue(a);
    TextOfValue(b);
  }

  /** With a sign they are not unique: both of these name the second element. */
  lemma SignedTokensCollide()
    ensures ArrayIndex("+1", 2) == ArrayIndex("1", 2) == Some(1)
    ensures ArrayIndex("+01", 2) == Some(1) && ArrayIndex("01", 2).None?
  {
    assert "1"[..0] == "" && "+1"[1..] == "1" && "01"[..1] == "0" && "+01"[1..] == "01";
    assert DigitsValue("0") == 0 by { assert "0"[..0] == ""; }
  }

  /** Without signed tokens, every path parts from that of a mutation as soon as it differs, whether or not it exists. */
  lemma {:induction false} UnsignedPathsDiverge(v: Json, tokens: seq<Bytes>, operation: Operation, value: Json, other: seq<Bytes>, k: nat)
    requires Mutated(v, tokens, operation, value).Some?
    requires k < |tokens| && k < |other| && tokens[..k] == other[..k] && tokens[k] != other[k]
    requires forall i | 0 <= i < |tokens| :: !Signed(tokens[i])
    requires forall i | 0 <= i < |other| :: !Signed(other[i])
    ensures Diverges(v, tokens, other)
  {
    if k == 0 {
      if v.Array? && ArrayIndex(other[0], |v.items|).Some? {
        IndexTokensAreUnique(tokens[0], other[0], |v.items|);
      }
    } else {
      assert tokens[0] == tokens[..k][0] == other[..k][0] == other[0];
      assert tokens[1..][..k - 1] == tokens[..k][1..] == other[..k][1..] == other[1..][..k - 1];
      UnsignedPathsDiverge(Child(v, tokens[0]).value, tokens[1..], operation, value, other[1..], k - 1);
    }
  }

  // ----- canonical output

  /** What a mutation leaves can be carried by canonical text as far as the new value, and a name that is added, can. */
  lemma {:induction false} StaysCarried(v: Json, tokens: seq<Bytes>, operation: Operation, value: Json, depth: nat)
    requires Mutated(v, tokens, operation, value).Some? && Carried(v, depth)
    ensures Carried(Mutated(v, tokens, operation, value).value, depth) <==>
            operation == Remove || (Carried(value, depth + |tokens|) && (operation == Add ==> ValidUtf8(tokens[|tokens| - 1])))
  {
    var after := Mutated(v, tokens, operation, value).value;
    if |tokens| == 1 {
      CarriedHere(v, tokens[0], operation, value, depth);
    } else {
      var child := Child(v, tokens[0]).value;
      StaysCarried(child, tokens[1..], operation, value, depth + 1);
      CarriedWithChild(v, tokens[0], Mutated(child, tokens[1..], operation, value).value, depth);
    }
  }

  lemma CarriedHere(v: Json, leaf: Bytes, operation: Operation, value: Json, depth: nat)
    requires MutatedHere(v, leaf, operation, value).Some? && Carried(v, depth)
    ensures Carried(MutatedHere(v, leaf, operation, value).value, depth) <==>
            operation == Remove || (Carried(value, depth + 1) && (operation == Add ==> ValidUtf8(leaf)))
  {
    var after := MutatedHere(v, leaf, operation, value).value;
    if v.Object? && operation != Remove {
      assert after.fields[leaf] == value;
    }
    if v.Array? {
      assert after.items[ArrayIndex(leaf, |v.items|).value] == value;
    }
  }

  lemma CarriedWithChild(v: Json, token: Bytes, child: Json, depth: nat)
    requires Child(v, token).Some? && Carried(v, depth)
    ensures Carried(Child(v, token).value, depth + 1)
    ensures Carried(WithChild(v, token, child), depth) <==> Carried(child, depth + 1)
  {
    var after := WithChild(v, token, child);
    if v.Object? {
      assert after.fields[token] == child;
    }
    if v.Array? {
      assert after.items[ArrayIndex(token, |v.items|).value] == child;
    }
  }

  datatype MutationVector = MutationVector(pointer: Bytes, operation: Operation, value: Bytes)

  /** The value a mutation brings along; only replace and add read it. */
  function NewValue(mutation: MutationVector): Option<Json> {
    if mutation.operation == Replace || mutation.operation == Add then ParseText(mutation.value) else Some(Null)
  }

  /** Decode, mutate, print canonically. */
  ghost function ApplyMutation(base: Bytes, mutation: MutationVector): Option<Bytes> {
    var document :- ParseText(base);
    var tokens :- DecodePointer(mutation.pointer);
    if tokens == [] then None else
    var value :- NewValue(mutation);
    var after :- Mutated(document, tokens, mutation.operation, value);
    if Carried(after, 0) then Some(Print(after)) else None
  }

  /** Replace and add bring a value along. */
  predicate Brings(operation: Operation) {
    operation.Replace? || operation.Add?
  }

  /**
   What is put out is its own canonical form. In it the place of the mutation holds the value the
   mutation brings along, or nothing after a removal, and every place apart from it holds what it held.
   */
  ghost predicate OutputMeans(base: Bytes, mutation: MutationVector, output: Bytes) {
    && Canonicalize(output) == Some(output) && ParseText(output).Some? && ParseText(base).Some? && DecodePointer(mutation.pointer).Some?
    && var tokens, before, after := DecodePointer(mutation.pointer).value, ParseText(base).value, ParseText(output).value;
    && (Brings(mutation.operation) ==> ParseText(mutation.value).Some? && Get(after, tokens) == ParseText(mutation.value))
    && (!Brings(mutation.operation) ==> mutation.operation.Remove? && Get(after, tokens) == None)
    && forall other | Diverges(before, tokens, other) :: Get(after, other) == Get(before, other)
  }

  /**
   Whatever a mutation puts out means the mutation; for replace and add it spells the base with the
   parsed value put in.
   */
  lemma OutputIsCanonical(base: Bytes, mutation: MutationVector)
    requires ApplyMutation(base, mutation).Some?
    ensures OutputMeans(base, mutation, ApplyMutation(base, mutation).value)
    ensures var output := ApplyMutation(base, mutation).value;
            var value := if Brings(mutation.operation) then ParseText(mutation.value) else Some(Null);
            && value.Some?
            && ParseText(output) == Mutated(ParseText(base).value, DecodePointer(mutation.pointer).value, mutation.operation, value.value)
  {
    var before, tokens, value := ParseText(base).value, DecodePointer(mutation.pointer).value, NewValue(mutation).value;
    var after := Mutated(before, tokens, mutation.operation, value).value;
    PrintedFormReadsBack(after);
    ReadBack(before, tokens, mutation.operation, value);
    SucceedsExactlyWhen(before, tokens, mutation.operation, value);
    forall other | Diverges(before, tokens, other) ensures Get(after, other) == Get(before, other) {
      OthersUnchanged(before, tokens, mutation.operation, value, other);
    }
  }

  /**
   On a canonical base a mutation is applied exactly when its pointer leads to a place the operation can
   change and, for replace and add, its value parses and what results can be carried by canonical text.
   */
  lemma AppliesExactlyWhen(base: Bytes, mutation: MutationVector)
    requires Canonicalize(base).Some?
    ensures ApplyMutation(base, mutation).Some? <==>
            && DecodePointer(mutation.pointer).Some? && DecodePointer(mutation.pointer).value != []
            && var tokens, before := DecodePointer(mutation.pointer).value, ParseText(base).value;
            match mutation.operation
            case Remove => Get(before, tokens).Some? && Parent(before, tokens).Some? && Parent(before, tokens).value.Object?
            case Replace => Get(before, tokens).Some? && ParseText(mutation.value).Some? && Carried(ParseText(mutation.value).value, |tokens|)
            case Add => Parent(before, tokens).Some? && Parent(before, tokens).value.Object? && ValidUtf8(tokens[|tokens| - 1])
                        && ParseText(mutation.value).Some? && Carried(ParseText(mutation.value).value, |tokens|)
            case OtherOperation(_) => false
  {
    hide ParseText, Canonicalize, DecodePointer, Carried, Print, Mutated, Get;
    AcceptedIsCarried(base);
    if DecodePointer(mutation.pointer).Some? && DecodePointer(mutation.pointer).value != [] && NewValue(mutation).Some? {
      var before, tokens, value := ParseText(base).value, DecodePointer(mutation.pointer).value, NewValue(mutation).value;
      SucceedsExactlyWhen(before, tokens, mutation.operation, value);
      if Mutated(before, tokens, mutation.operation, value).Some? {
        StaysCarried(before, tokens, mutation.operation, value, 0);
      }
    }
  }

  /** An accepted text denotes a value canonical text can carry. */
  lemma AcceptedIsCarried(raw: Bytes)
    requires Canonicalize(raw).Some?
    ensures ParseText(raw).Some? && Carried(ParseText(raw).value, 0) && Canonicalize(raw) == Some(Print(ParseText(raw).value))
  {
    var d := AcceptedIsLegal(raw);
    ReadsDocument(d);
  }

  /** Removal from a canonical base always has a canonical result; text and mutation agree. */
  lemma RemovalNeverFailsLate(base: Bytes, mutation: MutationVector)
    requires Canonicalize(base).Some? && mutation.operation == Remove
    ensures ApplyMutation(base, mutation).Some? <==>
            DecodePointer(mutation.pointer).Some? && DecodePointer(mutation.pointer).value != []
            && Mutated(ParseText(base).value, DecodePointer(mutation.pointer).value, Remove, Null).Some?
  {
    AcceptedIsCarried(base);
    if DecodePointer(mutation.pointer).Some? {
      var tokens := DecodePointer(mutation.pointer).value;
      if tokens != [] && Mutated(ParseText(base).value, tokens, Remove, Null).Some? {
        StaysCarried(ParseText(base).value, tokens, Remove, Null, 0);
      }
    }
  }
}
