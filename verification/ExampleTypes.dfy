/** Generated examples against their schema (OpenAPI 3.0.3 section 4.7.24). */
module ExampleTypes {
  import opened Common
  import opened Json
  import opened Refs
  import opened FieldWalk
  import opened ExampleWalk

  function TypeOf(entries: seq<Entry>): string {
    var t := Get(entries, "type", Null);
    if t.Str? then t.s else ""
  }

  function PropertiesOf(entries: seq<Entry>): seq<Entry> {
    var p := Get(entries, "properties", EMPTY_OBJECT);
    if p.Obj? then p.entries else []
  }

  predicate DistinctKeys(entries: seq<Entry>) {
    forall i, j :: 0 <= i < j < |entries| ==> entries[i].key != entries[j].key
  }

  /** No reference, combinator or explicit example; one declared type; `properties` only on objects and
      `items` only on arrays. */
  ghost predicate Simple(j: Json)
    decreases j, 0
  {
    j.Obj? &&
    var es := j.entries;
    && !Has(es, "$ref") && !Has(es, "example") && Combinator(es).None?
    && TypeOf(es) in {"string", "integer", "number", "boolean", "array", "object"}
    && (Has(es, "properties") ==> TypeOf(es) == "object" && Lookup(es, "properties").value.Obj?)
    && (Has(es, "items") ==> TypeOf(es) == "array")
    && SimpleParts(es)
  }

  ghost predicate SimpleParts(entries: seq<Entry>)
    decreases entries
  {
    entries == [] || (SimplePart(entries[0].key, entries[0].value) && SimpleParts(entries[1..]))
  }

  ghost predicate SimplePart(key: string, value: Json)
    decreases value, 1
  {
    && (key == "items" ==> Simple(value))
    && (key == "properties" && value.Obj? ==> DistinctKeys(value.entries) && AllSimple(value.entries))
  }

  ghost predicate AllSimple(entries: seq<Entry>)
    decreases entries
  {
    entries == [] || (Simple(entries[0].value) && AllSimple(entries[1..]))
  }

  lemma {:induction false} PartIsSimple(entries: seq<Entry>, key: string)
    requires SimpleParts(entries) && Has(entries, key)
    ensures SimplePart(key, Lookup(entries, key).value)
  {
    if entries[0].key != key {
      PartIsSimple(entries[1..], key);
    }
  }

  lemma {:induction false} AllSimpleAt(entries: seq<Entry>, i: nat)
    requires AllSimple(entries) && i < |entries|
    ensures Simple(entries[i].value)
  {
    if i > 0 {
      AllSimpleAt(entries[1..], i - 1);
    }
  }

  // ---------------------------------------------------------------- what an example should look like

  /** The value has the declared type, and so has everything in it; an object holds declared properties in
      their order, or nothing at all. */
  ghost predicate Typed(v: Json, schema: Json)
    decreases v
  {
    schema.Obj? &&
    match TypeOf(schema.entries)
    case "string" => v.Str?
    case "integer" => v.Int?
    case "number" => v.Float?
    case "boolean" => v.Bool?
    case "array" =>
      v.Arr? && forall i :: 0 <= i < |v.items| ==> Typed(v.items[i], Get(schema.entries, "items", EMPTY_OBJECT))
    case "object" =>
      v.Obj? &&
      var properties := PropertiesOf(schema.entries);
      v.entries == []
      || (|v.entries| == |properties|
          && forall i :: 0 <= i < |v.entries| ==>
            v.entries[i].key == properties[i].key && Typed(v.entries[i].value, properties[i].value))
    case _ => false
  }

  /** Every object in the value has exactly the declared properties. */
  ghost predicate Complete(v: Json, schema: Json)
    decreases v
  {
    match v
    case Obj(entries) =>
      schema.Obj? &&
      var properties := PropertiesOf(schema.entries);
      |entries| == |properties|
      && forall i :: 0 <= i < |entries| ==>
        entries[i].key == properties[i].key && Complete(entries[i].value, properties[i].value)
    case Arr(items) =>
      schema.Obj? && forall i :: 0 <= i < |items| ==> Complete(items[i], Get(schema.entries, "items", EMPTY_OBJECT))
    case _ => true
  }

  /** Some object that declares properties is itself a property beyond the depth limit. */
  ghost predicate CutsObject(schema: Json, max: nat, depth: nat)
    decreases Room(max, depth)
  {
    schema.Obj? &&
    var properties := PropertiesOf(schema.entries);
    if depth > max then TypeOf(schema.entries) == "object" && properties != []
    else if TypeOf(schema.entries) == "object" then
      exists i :: 0 <= i < |properties| && CutsObject(properties[i].value, max, depth + 1)
    else
      depth < max && Has(schema.entries, "items")
        && CutsObject(Get(schema.entries, "items", EMPTY_OBJECT), max, depth + 1)
  }

  // ---------------------------------------------------------------- the theorem

  lemma {:induction false} PutNew(entries: seq<Entry>, key: string, value: Json)
    requires forall i :: 0 <= i < |entries| ==> entries[i].key != key
    ensures Put(entries, key, value) == entries + [Entry(key, value)]
  {
    if entries != [] {
      PutNew(entries[1..], key, value);
    }
  }

  /** An object example has the declared keys in order, each with its own property example. */
  lemma {:induction false} ObjectExampleAligned(
    w: World, max: nat, entries: seq<Entry>, context: Context, depth: nat, seen: set<string>)
    requires depth <= max && DistinctKeys(entries)
    requires forall i :: 0 <= i < |entries| ==> PropertyExample(w, max, entries[i].value, context, depth, seen).Value?
    ensures var r := ObjectExample(w, max, entries, context, depth, seen);
      r.Value? && r.v.Obj? && |r.v.entries| == |entries|
      && forall i :: 0 <= i < |entries| ==>
        r.v.entries[i] == Entry(entries[i].key, PropertyExample(w, max, entries[i].value, context, depth, seen).v)
    decreases |entries|
  {
    hide PropertyExample;
    if entries != [] {
      var n := |entries| - 1;
      ObjectExampleAligned(w, max, entries[..n], context, depth, seen);
      var before := ObjectExample(w, max, entries[..n], context, depth, seen);
      var val := PropertyExample(w, max, entries[n].value, context, depth, seen);
      PutNew(before.v.entries, entries[n].key, val.v);
    }
  }

  /** A generated value of a simple schema: typed as declared everywhere, and with every declared key
      exactly when the depth limit cuts no object off. */
  ghost predicate Good(r: Example, schema: Json, max: nat, depth: nat) {
    r.Value? && r.v != Null && Typed(r.v, schema) && (Complete(r.v, schema) <==> !CutsObject(schema, max, depth))
  }

  lemma SimpleKinds(entries: seq<Entry>)
    requires Simple(Obj(entries))
    ensures IsObjectSchema(entries) <==> TypeOf(entries) == "object"
    ensures TypeOf(entries) != "object" ==> (IsArraySchema(entries) <==> TypeOf(entries) == "array")
    ensures Get(entries, "type", Str("")) == Str(TypeOf(entries))
    ensures TypeOf(entries) == "object" ==>
      Get(entries, "properties", EMPTY_OBJECT) == Obj(PropertiesOf(entries))
      && DistinctKeys(PropertiesOf(entries)) && AllSimple(PropertiesOf(entries))
    ensures Has(entries, "items") ==> Simple(Get(entries, "items", EMPTY_OBJECT))
  {
    hide DistinctKeys, AllSimple;
    if Has(entries, "properties") {
      PartIsSimple(entries, "properties");
    } else {
      NoKeys();
    }
    if Has(entries, "items") {
      PartIsSimple(entries, "items");
    }
  }

  lemma NoKeys()
    ensures DistinctKeys([]) && AllSimple([])
  {
  }

  lemma PlaceholderIsGood(schema: Json, max: nat, depth: nat)
    requires Simple(schema) && depth > max
    ensures Good(Placeholder(schema), schema, max, depth)
  {
    var entries := schema.entries;
    SimpleKinds(entries);
    hide Simple, SimpleParts, Lookup, DistinctKeys, AllSimple;
    assert Get(entries, "type", Str("string")) == Str(TypeOf(entries));
  }

  lemma {:induction false} ObjectIsGood(
    w: World, max: nat, schema: Json, context: Context, depth: nat, seen: set<string>)
    requires Simple(schema) && depth <= max && TypeOf(schema.entries) == "object"
    ensures Good(ExampleOf(w, max, schema.entries, context, depth, seen), schema, max, depth)
    decreases Room(max, depth), 0, 1
  {
    var entries := schema.entries;
    var properties := PropertiesOf(entries);
    SimpleKinds(entries);
    forall i | 0 <= i < |properties|
      ensures Good(PropertyExample(w, max, properties[i].value, context, depth, seen), properties[i].value, max,
                   depth + 1)
    {
      AllSimpleAt(properties, i);
      PropertyIsGood(w, max, properties[i].value, context, depth, seen);
    }
    ObjectExampleAligned(w, max, properties, context, depth, seen);
    AlignedIsGood(w, max, schema, context, depth, seen,
                  ObjectExample(w, max, properties, context, depth, seen).v.entries);
  }

  lemma AlignedIsGood(
    w: World, max: nat, schema: Json, context: Context, depth: nat, seen: set<string>, made: seq<Entry>)
    requires depth <= max && schema.Obj? && TypeOf(schema.entries) == "object"
    requires var properties := PropertiesOf(schema.entries);
      |made| == |properties|
      && forall i :: 0 <= i < |made| ==>
        made[i].key == properties[i].key && Good(Value(made[i].value), properties[i].value, max, depth + 1)
    ensures Good(Value(Obj(made)), schema, max, depth)
  {
    hide TypeOf, PropertiesOf;
    var properties, v, deeper := PropertiesOf(schema.entries), Obj(made), depth + 1;
    forall i | 0 <= i < |made|
      ensures made[i].key == properties[i].key && Typed(made[i].value, properties[i].value)
      ensures Complete(made[i].value, properties[i].value) <==> !CutsObject(properties[i].value, max, deeper)
    {
      assert Good(Value(made[i].value), properties[i].value, max, deeper);
    }
  }

  /** An array of the one good item, or of none where the item lies beyond the limit. */
  lemma WrappedIsGood(item: Example, schema: Json, max: nat, depth: nat)
    requires schema.Obj? && TypeOf(schema.entries) == "array" && depth <= max
    requires var items := Get(schema.entries, "items", EMPTY_OBJECT);
      if Has(schema.entries, "items") && depth < max then Good(item, items, max, depth + 1) else item == Value(Null)
    ensures Good(Wrapped(item), schema, max, depth)
  {
    hide TypeOf, PropertiesOf, Get, Lookup, Has;
    if item != Value(Null) {
      var items := Get(schema.entries, "items", EMPTY_OBJECT);
      var v := Wrapped(item).v;
      assert v.items == [item.v] && v.items[0] == item.v;
      assert Typed(v, schema);
      assert Complete(v, schema) <==> Complete(item.v, items);
      assert CutsObject(schema, max, depth) <==> CutsObject(items, max, depth + 1);
    } else {
      assert Wrapped(item).v == Arr([]);
    }
  }

  lemma {:induction false} ArrayIsGood(
    w: World, max: nat, schema: Json, context: Context, depth: nat, seen: set<string>)
    requires Simple(schema) && depth <= max && TypeOf(schema.entries) == "array"
    ensures Good(ExampleOf(w, max, schema.entries, context, depth, seen), schema, max, depth)
    decreases Room(max, depth), 0, 1
  {
    hide Typed, Complete, CutsObject;
    var entries := schema.entries;
    SimpleKinds(entries);
    var items := Get(entries, "items", EMPTY_OBJECT);
    var item := ExampleFor(w, max, items, context, depth + 1, seen);
    if Has(entries, "items") && depth < max {
      ExampleIsGood(w, max, items, context, depth + 1, seen);
    } else {
      assert item == Value(Null);
    }
    WrappedIsGood(item, schema, max, depth);
  }

  lemma {:induction false} ExampleIsGood(
    w: World, max: nat, schema: Json, context: Context, depth: nat, seen: set<string>)
    requires Simple(schema) && depth <= max
    ensures Good(ExampleFor(w, max, schema, context, depth, seen), schema, max, depth)
    decreases Room(max, depth), 1
  {
    var entries := schema.entries;
    SimpleKinds(entries);
    assert Truthy(schema) by {
      assert entries == [] ==> TypeOf(entries) == "";
    }
    var r := ExampleFor(w, max, schema, context, depth, seen);
    assert r == ExampleOf(w, max, entries, context, depth, seen);
    if TypeOf(entries) == "object" {
      ObjectIsGood(w, max, schema, context, depth, seen);
    } else if TypeOf(entries) == "array" {
      ArrayIsGood(w, max, schema, context, depth, seen);
    }
  }

  lemma {:induction false} PropertyIsGood(
    w: World, max: nat, schema: Json, context: Context, depth: nat, seen: set<string>)
    requires Simple(schema) && depth <= max
    ensures Good(PropertyExample(w, max, schema, context, depth, seen), schema, max, depth + 1)
    decreases Room(max, depth), 0, 0
  {
    if depth + 1 <= max {
      ExampleIsGood(w, max, schema, context, depth + 1, seen);
    } else {
      PlaceholderIsGood(schema, max, depth + 1);
    }
  }

  /** The example generated for a simple schema has the declared type everywhere, and declares every key of
      every object exactly when no object with properties lies beyond the source's depth limit. */
  lemma ExamplesValidate(w: World, schema: Json, context: Context)
    requires Simple(schema)
    ensures var r := ExampleFor(w, MAX_EXAMPLE_DEPTH, schema, context, 0, {});
      r.Value? && Typed(r.v, schema) && (Complete(r.v, schema) <==> !CutsObject(schema, MAX_EXAMPLE_DEPTH, 0))
  {
    ExampleIsGood(w, MAX_EXAMPLE_DEPTH, schema, context, 0, {});
  }

  // ---------------------------------------------------------------- a schema that is cut

  /** An object with one property, `n` levels deep; the innermost declares none. */
  function Nest(n: nat): Json {
    Obj([Entry("type", Str("object")), Entry("properties", Obj(if n == 0 then [] else [Entry("p", Nest(n - 1))]))])
  }

  lemma NestParts(n: nat)
    ensures var es := Nest(n).entries;
      TypeOf(es) == "object" && Lookup(es, "properties") == Some(Obj(PropertiesOf(es)))
      && PropertiesOf(es) == (if n == 0 then [] else [Entry("p", Nest(n - 1))])
      && !Has(es, "$ref") && !Has(es, "example") && Combinator(es).None? && !Has(es, "items")
  {
    var es := Nest(n).entries;
    assert es[1..] == [es[1]] && es[1..][1..] == [];
  }

  lemma {:induction false} NestIsSimple(n: nat)
    ensures Simple(Nest(n))
  {
    NestParts(n);
    var es := Nest(n).entries;
    var properties := PropertiesOf(es);
    if n > 0 {
      NestIsSimple(n - 1);
      assert properties[1..] == [];
    }
    assert AllSimple(properties);
    assert es[1..] == [es[1]] && es[1..][1..] == [];
    assert SimplePart(es[1].key, es[1].value);
    assert SimpleParts(es[1..]);
  }

  lemma {:induction false} NestIsCutIff(n: nat, max: nat, depth: nat)
    requires depth <= max + 1
    ensures CutsObject(Nest(n), max, depth) <==> n + depth > max + 1
    decreases n
  {
    NestParts(n);
    hide Simple;
    var properties := PropertiesOf(Nest(n).entries);
    if n > 0 && depth <= max {
      NestIsCutIff(n - 1, max, depth + 1);
      assert properties[0].value == Nest(n - 1);
    }
  }

  /** With the source's limit: the example of a schema this deep lacks a declared key. */
  lemma DeepExampleIsIncomplete(w: World, context: Context, n: nat)
    ensures Simple(Nest(n))
    ensures var r := ExampleFor(w, MAX_EXAMPLE_DEPTH, Nest(n), context, 0, {});
      r.Value? && (!Complete(r.v, Nest(n)) <==> n > MAX_EXAMPLE_DEPTH + 1)
  {
    hide Simple, ExampleFor, Complete, CutsObject, Typed;
    NestIsSimple(n);
    NestIsCutIff(n, MAX_EXAMPLE_DEPTH, 0);
    ExamplesValidate(w, Nest(n), context);
  }
}
