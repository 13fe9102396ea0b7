/**
 The mutation as the program performs it: decoded documents are trees of shared mutable containers,
 and one container at the end of the path is changed in place. Each container carries, as ghost
 state, the value it stands for and the containers it is made of.
 */
module MutationInPlace {
  import opened Basics
  import opened JsonGrammar
  import opened JsonParser
  import opened JsonPointer
  import opened CanonicalJson
  import opened CanonicalCodec
  import opened Mutation

  datatype Value = Leaf(json: Json) | Node(container: Container)

  /** A decoded object (its fields) or array (its items). */
  class Container {
    const isObject: bool
    var fields: map<Bytes, Value>
    var items: seq<Value>
    ghost var tree: Json
    ghost var repr: set<Container>

    constructor (isObject: bool)
      ensures Valid() && this.isObject == isObject && repr == {this}
      ensures tree == if isObject then Object(map[]) else Array([])
    {
      this.isObject := isObject;
      fields, items := map[], [];
      tree := if isObject then Object(map[]) else Array([]);
      repr := {this};
    }

    ghost predicate Valid()
      reads this, repr
      decreases repr, 1
    {
      && this in repr
      && (forall k | k in fields :: Holds(fields[k]))
      && (forall i | 0 <= i < |items| :: Holds(items[i]))
      && (forall j, k | j in fields && k in fields && j != k :: ReprOf(fields[j]) !! ReprOf(fields[k]))
      && (forall i, j | 0 <= i < j < |items| :: ReprOf(items[i]) !! ReprOf(items[j]))
      && (if isObject then items == [] && tree.Object? && Shows(tree.fields)
          else fields == map[] && tree.Array? && ShowsItems(tree.items))
    }

    /** A child is sound and made of containers of this one, other than this one. */
    ghost predicate Holds(v: Value)
      requires this in repr
      reads this, repr
      decreases repr, 0
    {
      if v.Node? then v.container in repr && v.container.repr <= repr - {this} && v.container.Valid()
      else !v.json.Object? && !v.json.Array?
    }

    ghost predicate Shows(shown: map<Bytes, Json>)
      reads this, Containers(fields.Values)
    {
      shown.Keys == fields.Keys && forall k | k in fields :: shown[k] == TreeOf(fields[k])
    }

    ghost predicate ShowsItems(shown: seq<Json>)
      reads this, Containers(set v | v in items)
    {
      |shown| == |items| && forall i | 0 <= i < |items| :: shown[i] == TreeOf(items[i])
    }
  }

  ghost function Containers(values: set<Value>): set<Container> {
    set v | v in values && v.Node? :: v.container
  }

  ghost function ReprOf(v: Value): set<Container>
    reads if v.Node? then {v.container} else {}
  {
    if v.Node? then v.container.repr else {}
  }

  ghost function TreeOf(v: Value): Json
    reads if v.Node? then {v.container} else {}
  {
    if v.Node? then v.container.tree else v.json
  }

  /** A leaf is a scalar; a node is a valid container. */
  ghost predicate Sound(v: Value)
    reads if v.Node? then {v.container} + v.container.repr else {}
  {
    if v.Node? then v.container.Valid() else !v.json.Object? && !v.json.Array?
  }

  /** What a mutation of `document` must leave behind, `before` being the value it showed. */
  twostate predicate Changed(document: Value, tokens: seq<Bytes>, operation: Operation, value: Value, ok: bool)
    reads if document.Node? then {document.container} + document.container.repr else {}
    reads if value.Node? then {value.container} else {}
  {
    && Sound(document) && ReprOf(document) <= old(ReprOf(document)) + old(ReprOf(value))
    && var after := Mutated(old(TreeOf(document)), tokens, operation, old(TreeOf(value)));
       ok == after.Some? && TreeOf(document) == if ok then after.value else old(TreeOf(document))
  }

  method DeleteField(target: Container, leaf: Bytes)
    requires target.Valid() && target.isObject && leaf in target.fields
    modifies target
    ensures Sound(Node(target)) && target.repr == old(target.repr)
    ensures target.tree == Object(old(target.tree.fields) - {leaf})
  {
    target.fields := target.fields - {leaf};
    target.tree := Object(target.tree.fields - {leaf});
  }

  method SetField(target: Container, leaf: Bytes, value: Value)
    requires target.Valid() && target.isObject && Sound(value) && target.repr !! ReprOf(value)
    modifies target
    ensures Sound(Node(target)) && target.repr == old(target.repr + ReprOf(value))
    ensures target.tree == Object(old(target.tree.fields)[leaf := old(TreeOf(value))])
  {
    target.fields := target.fields[leaf := value];
    target.tree := Object(target.tree.fields[leaf := TreeOf(value)]);
    target.repr := target.repr + ReprOf(value);
  }

  /** The object at the end of the path. */
  method MutateObject(target: Container, leaf: Bytes, operation: Operation, value: Value) returns (ok: bool)
    requires target.Valid() && target.isObject && Sound(value) && target.repr !! ReprOf(value)
    modifies target
    ensures Changed(Node(target), [leaf], operation, value, ok)
  {
    ok := true;
    match operation {
      case Remove =>
        if leaf !in target.fields {
          return false;
        }
        DeleteField(target, leaf);
      case Replace =>
        if leaf !in target.fields {
          return false;
        }
        SetField(target, leaf, value);
      case Add =>
        SetField(target, leaf, value);
      case OtherOperation(_) =>
        ok := false;
    }
  }

  /** The array at the end of the path: only replacement is supported. */
  method MutateArray(target: Container, leaf: Bytes, operation: Operation, value: Value) returns (ok: bool)
    requires target.Valid() && !target.isObject && Sound(value) && target.repr !! ReprOf(value)
    modifies target
    ensures Changed(Node(target), [leaf], operation, value, ok)
  {
    var index := ArrayIndex(leaf, |target.items|);
    if index.None? || operation != Replace {
      return false;
    }
    SetItem(target, index.value, value);
    ok := true;
  }

  method SetItem(target: Container, index: nat, value: Value)
    requires target.Valid() && !target.isObject && index < |target.items| && Sound(value) && target.repr !! ReprOf(value)
    modifies target
    ensures Sound(Node(target)) && target.repr == old(target.repr + ReprOf(value))
    ensures target.tree == Array(old(target.tree.items)[index := old(TreeOf(value))])
  {
    target.items := target.items[index := value];
    target.tree := Array(target.tree.items[index := TreeOf(value)]);
    target.repr := target.repr + ReprOf(value);
  }

  /** The child a token names. */
  method MutationChild(document: Value, token: Bytes) returns (child: Option<Value>)
    requires Sound(document)
    ensures child.Some? <==> Child(TreeOf(document), token).Some?
    ensures child.Some? ==> document.Node? && TreeOf(child.value) == Child(TreeOf(document), token).value
                            && IsChild(document.container, token, child.value)
  {
    if document.Leaf? {
      return None;
    }
    var container := document.container;
    if container.isObject {
      return if token in container.fields then Some(container.fields[token]) else None;
    }
    var index := ArrayIndex(token, |container.items|);
    return if index.Some? then Some(container.items[index.value]) else None;
  }

  ghost predicate IsChild(container: Container, token: Bytes, child: Value)
    reads container
  {
    if container.isObject then token in container.fields && container.fields[token] == child
    else
      var index := ArrayIndex(token, |container.items|);
      index.Some? && container.items[index.value] == child
  }

  method MutateDocument(document: Value, tokens: seq<Bytes>, operation: Operation, value: Value) returns (ok: bool)
    requires Sound(document) && Sound(value) && ReprOf(document) !! ReprOf(value)
    modifies ReprOf(document)
    decreases |tokens|, 1
    ensures Changed(document, tokens, operation, value, ok)
  {
    if tokens == [] {
      return false;
    }
    if |tokens| == 1 {
      assert tokens == [tokens[0]];
      if document.Leaf? {
        return false;
      }
      if document.container.isObject {
        ok := MutateObject(document.container, tokens[0], operation, value);
      } else {
        ok := MutateArray(document.container, tokens[0], operation, value);
      }
      return;
    }
    var child := MutationChild(document, tokens[0]);
    if child.None? {
      return false;
    }
    ok := MutateBelow(document.container, tokens, child.value, operation, value);
  }

  /** Mutates inside a child; the container itself only follows in its ghost state. */
  method MutateBelow(container: Container, tokens: seq<Bytes>, child: Value, operation: Operation, value: Value) returns (ok: bool)
    requires container.Valid() && Sound(value) && container.repr !! ReprOf(value)
    requires |tokens| > 1 && IsChild(container, tokens[0], child)
    modifies container.repr
    decreases |tokens|, 0
    ensures Changed(Node(container), tokens, operation, value, ok)
  {
    var d := Descent(container, tokens[0], child, value);
    ok := MutateChild(d, tokens[1..], operation);
    Adopted(d);
    hide Follows;
    ChildOfWithChild(old(container.tree), tokens[0], TreeOf(child), TreeOf(child));
  }

  method MutateChild(d: Descent, rest: seq<Bytes>, operation: Operation) returns (ok: bool)
    requires d.container.Valid() && Sound(d.value) && d.container.repr !! ReprOf(d.value)
    requires IsChild(d.container, d.token, d.child)
    modifies d.container.repr
    decreases |rest|, 2
    ensures Follows(d) && d.container.tree == WithChild(old(d.container.tree), d.token, TreeOf(d.child))
    ensures var after := Mutated(old(TreeOf(d.child)), rest, operation, old(TreeOf(d.value)));
            ok == after.Some? && TreeOf(d.child) == if ok then after.value else old(TreeOf(d.child))
  {
    ReachChild(d.container, d.token, d.child);
    ok := MutateDocument(d.child, rest, operation, d.value);
    d.container.tree := WithChild(d.container.tree, d.token, TreeOf(d.child));
    d.container.repr := d.container.repr + ReprOf(d.value);
  }

  /** A step down: a container, the child a token names in it, and the value on its way to the target. */
  datatype Descent = Descent(container: Container, token: Bytes, child: Value, value: Value)

  twostate predicate Follows(d: Descent)
    reads *
  {
    && old(d.container.Valid()) && old(d.container.Holds(d.child)) && old(ReprOf(d.value)) !! old(d.container.repr)
    && Sound(d.child) && ReprOf(d.child) <= old(ReprOf(d.child)) + old(ReprOf(d.value))
    && d.container.fields == old(d.container.fields) && d.container.items == old(d.container.items)
    && d.container.repr == old(d.container.repr) + old(ReprOf(d.value))
    && forall c: Container | c in old(d.container.repr) && c !in old(ReprOf(d.child)) && c != d.container :: unchanged(c)
  }

  /** After a child changed in place, its parent is sound again once its ghost state follows. */
  twostate lemma Adopted(d: Descent)
    requires Follows(d) && old(IsChild(d.container, d.token, d.child))
    requires d.container.tree == WithChild(old(d.container.tree), d.token, TreeOf(d.child))
    ensures d.container.Valid()
  {
    if d.container.isObject {
      FieldAdopted(d);
    } else {
      ItemAdopted(d);
    }
  }

  twostate lemma FieldAdopted(d: Descent)
    requires Follows(d)
    requires d.container.isObject && d.token in d.container.fields && d.container.fields[d.token] == d.child
    requires d.container.tree == Object(old(d.container.tree.fields)[d.token := TreeOf(d.child)])
    ensures d.container.Valid()
  {
    var fields := d.container.fields;
    forall k | k in fields && k != d.token
      ensures d.container.Holds(fields[k]) && ReprOf(fields[k]) == old(ReprOf(fields[k]))
      ensures TreeOf(fields[k]) == old(TreeOf(fields[k]))
    {
      OtherHolds((d, fields[k]));
    }
    forall j, k | j in fields && k in fields && j != k ensures ReprOf(fields[j]) !! ReprOf(fields[k]) {
      assert old(ReprOf(fields[j]) !! ReprOf(fields[k]));
      assert old(d.container.Holds(fields[j]) && d.container.Holds(fields[k]));
    }
  }

  twostate lemma ItemAdopted(d: Descent)
    requires Follows(d)
    requires !d.container.isObject && IsChild(d.container, d.token, d.child)
    requires d.container.tree == Array(old(d.container.tree.items)[ArrayIndex(d.token, |d.container.items|).value := TreeOf(d.child)])
    ensures d.container.Valid()
  {
    var items := d.container.items;
    forall i | 0 <= i < |items| && i != ArrayIndex(d.token, |items|).value
      ensures d.container.Holds(items[i]) && ReprOf(items[i]) == old(ReprOf(items[i]))
      ensures TreeOf(items[i]) == old(TreeOf(items[i]))
    {
      OtherHolds((d, items[i]));
    }
    forall i, j | 0 <= i < j < |items| ensures ReprOf(items[i]) !! ReprOf(items[j]) {
      assert old(ReprOf(items[i]) !! ReprOf(items[j]));
      assert old(d.container.Holds(items[i]) && d.container.Holds(items[j]));
    }
  }

  /** A child made of other containers did not change. */
  twostate lemma OtherHolds(siblings: (Descent, Value))
    requires Follows(siblings.0) && old(siblings.0.container.Holds(siblings.1))
    requires old(ReprOf(siblings.1)) !! old(ReprOf(siblings.0.child))
    ensures siblings.0.container.Holds(siblings.1)
    ensures ReprOf(siblings.1) == old(ReprOf(siblings.1)) && TreeOf(siblings.1) == old(TreeOf(siblings.1))
  {
  }

  lemma ReachChild(container: Container, token: Bytes, child: Value)
    requires container.Valid() && IsChild(container, token, child)
    ensures container.Holds(child)
  {
  }

  // ----- decoding into containers and reading them back

  method AddItem(target: Container, value: Value)
    requires target.Valid() && !target.isObject && Sound(value) && target.repr !! ReprOf(value)
    modifies target
    ensures target.Valid() && target.repr == old(target.repr + ReprOf(value))
    ensures target.tree == Array(old(target.tree.items) + [old(TreeOf(value))])
  {
    target.items := target.items + [value];
    target.tree := Array(target.tree.items + [TreeOf(value)]);
    target.repr := target.repr + ReprOf(value);
  }

  method Decoded(json: Json) returns (value: Value)
    ensures Sound(value) && TreeOf(value) == json && fresh(ReprOf(value))
    decreases json, 1
  {
    match json {
      case Array(items) => value := DecodedArray(json);
      case Object(fields) => value := DecodedObject(json);
      case _ => value := Leaf(json);
    }
  }

  method DecodedArray(json: Json) returns (value: Value)
    requires json.Array?
    ensures Sound(value) && TreeOf(value) == json && fresh(ReprOf(value))
    decreases json, 0
  {
    var items := json.items;
    var c := new Container(false);
    for i := 0 to |items|
      invariant c.Valid() && !c.isObject && fresh(c.repr)
      invariant c.tree == Array(items[..i])
    {
      var item := Decoded(items[i]);
      AddItem(c, item);
      assert items[..i + 1] == items[..i] + [items[i]];
    }
    assert items[..|items|] == items;
    value := Node(c);
  }

  /** All fields but those still `left`. */
  ghost predicate ReadSoFar(some: map<Bytes, Json>, all: map<Bytes, Json>, left: set<Bytes>) {
    some.Keys == all.Keys - left && forall k | k in some :: some[k] == all[k]
  }

  method DecodedObject(json: Json) returns (value: Value)
    requires json.Object?
    ensures Sound(value) && TreeOf(value) == json && fresh(ReprOf(value))
    decreases json, 0
  {
    var fields := json.fields;
    var c := new Container(true);
    var left := fields.Keys;
    while left != {}
      invariant c.Valid() && c.isObject && fresh(c.repr)
      invariant left <= fields.Keys && c.tree.Object? && ReadSoFar(c.tree.fields, fields, left)
      decreases left
    {
      var k :| k in left;
      var field := Decoded(fields[k]);
      SetField(c, k, field);
      left := left - {k};
    }
    assert c.tree.fields == fields;
    value := Node(c);
  }

  /** The value containers stand for, read back for printing. */
  method ReadBack(value: Value) returns (json: Json)
    requires Sound(value)
    ensures json == TreeOf(value)
    decreases ReprOf(value)
  {
    if value.Leaf? {
      return value.json;
    }
    var c := value.container;
    if c.isObject {
      var fields: map<Bytes, Json> := map[];
      var left := c.fields.Keys;
      while left != {}
        invariant left <= c.fields.Keys && ReadSoFar(fields, c.tree.fields, left)
        decreases left
      {
        var k :| k in left;
        assert c.Holds(c.fields[k]);
        var field := ReadBack(c.fields[k]);
        fields := fields[k := field];
        left := left - {k};
      }
      assert fields == c.tree.fields;
      return Object(fields);
    }
    var items: seq<Json> := [];
    for i := 0 to |c.items|
      invariant items == c.tree.items[..i]
    {
      assert c.Holds(c.items[i]);
      var item := ReadBack(c.items[i]);
      items := items + [item];
    }
    json := Array(items);
  }

  /** Decode, mutate in place, print canonically. */
  method ApplyJSONMutation(base: Bytes, mutation: MutationVector) returns (r: Option<Bytes>)
    ensures r == ApplyMutation(base, mutation)
    ensures r.Some? ==> OutputMeans(base, mutation, r.value)
  {
    hide ParseText, DecodePointer, Mutated, Carried, Print, OutputMeans;
    var parsed := ParseText(base);
    if parsed.None? {
      return None;
    }
    var tokens := JsonPointerTokens(mutation.pointer);
    if tokens.None? || tokens.value == [] {
      return None;
    }
    var newValue := NewValue(mutation);
    if newValue.None? {
      return None;
    }
    var document := Decoded(parsed.value);
    var value := Decoded(newValue.value);
    var ok := MutateDocument(document, tokens.value, mutation.operation, value);
    if !ok {
      return None;
    }
    var after := ReadBack(document);
    if !Carried(after, 0) {
      return None;
    }
    var output := new Buffer();
    WriteCanonicalValue(output, after);
    assert "" + Print(after) == Print(after);
    r := Some(output.bytes);
    OutputIsCanonical(base, mutation);
  }
}
