/** Examples of combinators, and examples that are given (bank_api_parser/parsers/base_parser.py). */
module ExampleMerge {
  import opened Common
  import opened Json
  import opened Refs
  import opened FieldWalk
  import opened ExampleWalk
  import opened ExampleTypes

  // ---------------------------------------------------------------- dictionaries

  lemma {:induction false} PutLookup(entries: seq<Entry>, key: string, value: Json, other: string)
    ensures Lookup(Put(entries, key, value), other) == if other == key then Some(value) else Lookup(entries, other)
  {
    if entries != [] && entries[0].key != key {
      PutLookup(entries[1..], key, value, other);
    }
  }

  lemma {:induction false} LookupLast(entries: seq<Entry>, last: Entry, key: string)
    ensures Lookup(entries + [last], key)
         == if Has(entries, key) then Lookup(entries, key) else if last.key == key then Some(last.value) else None
  {
    var all := entries + [last];
    if entries != [] {
      assert all[1..] == entries[1..] + [last];
      LookupLast(entries[1..], last, key);
    } else {
      assert all[1..] == [];
    }
  }

  lemma {:induction false} NotThere(entries: seq<Entry>, key: string)
    requires forall i :: 0 <= i < |entries| ==> entries[i].key != key
    ensures !Has(entries, key)
  {
    if entries != [] {
      NotThere(entries[1..], key);
    }
  }

  /** An update takes the new values for its keys and keeps the others. */
  lemma {:induction false} UpdateLookup(entries: seq<Entry>, more: seq<Entry>, key: string)
    requires DistinctKeys(more)
    ensures Lookup(Update(entries, more), key) == if Has(more, key) then Lookup(more, key) else Lookup(entries, key)
  {
    hide Lookup, Put;
    if more == [] {
      NotThere(more, key);
    } else {
      var init, last := more[..|more| - 1], more[|more| - 1];
      assert more == init + [last];
      UpdateLookup(entries, init, key);
      PutLookup(Update(entries, init), last.key, last.value, key);
      LookupLast(init, last, key);
      NotThere(init, last.key);
    }
  }

  // ---------------------------------------------------------------- members that are objects

  /** Member `i` gives the object `made[i]`. */
  ghost predicate Gives(
    w: World, max: nat, items: seq<Json>, context: Context, depth: nat, seen: set<string>, made: seq<seq<Entry>>)
    requires depth <= max
  {
    |made| == |items|
    && forall i :: 0 <= i < |items| ==>
      MemberExample(w, max, items[i], context, depth, seen) == Value(Obj(made[i])) && DistinctKeys(made[i])
  }

  function MergeAll(made: seq<seq<Entry>>): seq<Entry> {
    if made == [] then [] else Update(MergeAll(made[..|made| - 1]), made[|made| - 1])
  }

  /** `i` is the last of the objects with the key. */
  ghost predicate LastWith(made: seq<seq<Entry>>, key: string, i: int) {
    0 <= i < |made| && Has(made[i], key) && forall j :: i < j < |made| ==> !Has(made[j], key)
  }

  ghost predicate AllDistinct(made: seq<seq<Entry>>) {
    forall i :: 0 <= i < |made| ==> DistinctKeys(made[i])
  }

  ghost predicate NoneHas(made: seq<seq<Entry>>, key: string) {
    forall i :: 0 <= i < |made| ==> !Has(made[i], key)
  }

  /** Each key has the value of the last member that has it. */
  lemma {:induction false} LaterMemberWins(made: seq<seq<Entry>>, key: string, i: nat)
    requires AllDistinct(made) && LastWith(made, key, i)
    ensures Lookup(MergeAll(made), key) == Lookup(made[i], key)
  {
    hide Lookup, Update, DistinctKeys;
    var n := |made| - 1;
    UpdateLookup(MergeAll(made[..n]), made[n], key);
    if i < n {
      LaterMemberWins(made[..n], key, i);
    }
  }

  /** A key of no member is not there. */
  lemma {:induction false} NoMemberHas(made: seq<seq<Entry>>, key: string)
    requires AllDistinct(made) && NoneHas(made, key)
    ensures !Has(MergeAll(made), key)
  {
    hide Lookup, Update, DistinctKeys;
    if made == [] {
      NotThere([], key);
    } else {
      var n := |made| - 1;
      NoMemberHas(made[..n], key);
      UpdateLookup(MergeAll(made[..n]), made[n], key);
    }
  }

  lemma {:induction false} CombinedObjects(
    w: World, max: nat, items: seq<Json>, context: Context, depth: nat, seen: set<string>, made: seq<seq<Entry>>)
    requires depth <= max && Gives(w, max, items, context, depth, seen, made)
    ensures CombineItems(w, max, items, context, depth, seen) == Collected(MergeAll(made))
    decreases |items|
  {
    hide MemberExample, Update, DistinctKeys;
    if items != [] {
      var n := |items| - 1;
      CombinedObjects(w, max, items[..n], context, depth, seen, made[..n]);
    }
  }

  // ---------------------------------------------------------------- the properties beside them

  /** The example of a property beside a combinator, if it has one. */
  ghost function OwnValue(
    w: World, max: nat, properties: seq<Entry>, key: string, context: Context, depth: nat,
    seen: set<string>): Option<Json>
  {
    var schema := Lookup(properties, key);
    if schema.None? then None
    else
      var r := ExampleFor(w, max, schema.value, context, depth + 1, seen);
      if r.Value? && r.v != Null then Some(r.v) else None
  }

  /** A merged key stays; a key of the properties alone gets their example, or is left out when there is none. */
  lemma {:induction false} PropertiesFillIn(
    w: World, max: nat, merged: seq<Entry>, properties: seq<Entry>, context: Context, depth: nat, seen: set<string>,
    key: string)
    requires depth <= max && DistinctKeys(properties)
    ensures var r := AddProperties(w, max, merged, properties, context, depth, seen);
      r.Collected? ==>
        Lookup(r.entries, key)
        == if Has(merged, key) then Lookup(merged, key)
           else OwnValue(w, max, properties, key, context, depth, seen)
    decreases |properties|
  {
    hide Lookup, Put, ExampleFor;
    if properties == [] {
      NotThere([], key);
    } else {
      var n := |properties| - 1;
      var init, last := properties[..n], properties[n];
      assert properties == init + [last];
      PropertiesFillIn(w, max, merged, init, context, depth, seen, key);
      PropertiesFillIn(w, max, merged, init, context, depth, seen, last.key);
      LookupLast(init, last, key);
      NotThere(init, last.key);
      var before := AddProperties(w, max, merged, init, context, depth, seen);
      if before.Collected? {
        var val := ExampleFor(w, max, last.value, context, depth + 1, seen);
        if val.Value? {
          PutLookup(before.entries, last.key, val.v, key);
        }
      }
    }
  }

  // ---------------------------------------------------------------- the laws

  /** The members of the combinator that counts: `allOf` before `oneOf` before `anyOf`. */
  function Members(entries: seq<Entry>): Option<Json> {
    if Has(entries, "allOf") then Lookup(entries, "allOf")
    else if Has(entries, "oneOf") then Lookup(entries, "oneOf")
    else Lookup(entries, "anyOf")
  }

  /** Where the members of a combinator give objects, the example has for each key the value of the last member
      with that key, else the example of the property of that name; and it is nothing when no key is left. */
  lemma CombinedExample(
    w: World, max: nat, entries: seq<Entry>, items: seq<Json>, made: seq<seq<Entry>>, properties: seq<Entry>,
    context: Context, depth: nat, seen: set<string>, key: string)
    requires depth <= max && !Has(entries, "example") && Members(entries) == Some(Arr(items))
    requires Get(entries, "properties", EMPTY_OBJECT) == Obj(properties) && DistinctKeys(properties)
    requires Gives(w, max, items, context, depth, seen, made)
    ensures var r := ExampleOf(w, max, entries, context, depth, seen);
      r.Value? ==>
        && (r.v == Null || (r.v.Obj? && r.v.entries != []))
        && var all := if r.v.Obj? then r.v.entries else [];
           && (forall i :: LastWith(made, key, i) ==> Lookup(all, key) == Lookup(made[i], key))
           && (NoneHas(made, key) ==>
                 Lookup(all, key) == OwnValue(w, max, properties, key, context, depth, seen))
  {
    hide Lookup, CombineItems, AddProperties, OwnValue, MergeAll, MemberExample, DistinctKeys;
    CombinedObjects(w, max, items, context, depth, seen, made);
    assert AllDistinct(made);
    forall i: nat | LastWith(made, key, i) ensures Lookup(MergeAll(made), key) == Lookup(made[i], key) {
      LaterMemberWins(made, key, i);
    }
    if NoneHas(made, key) {
      NoMemberHas(made, key);
    }
    PropertiesFillIn(w, max, MergeAll(made), properties, context, depth, seen, key);
    NotThere([], key);
  }

  /** Members that give nothing to merge: nothing at all, or an object without keys. */
  ghost predicate GivesNothing(
    w: World, max: nat, items: seq<Json>, context: Context, depth: nat, seen: set<string>)
    requires depth <= max
  {
    forall i :: 0 <= i < |items| ==>
      MemberExample(w, max, items[i], context, depth, seen) in {Value(Null), Value(EMPTY_OBJECT)}
  }

  lemma {:induction false} NothingCollected(
    w: World, max: nat, items: seq<Json>, context: Context, depth: nat, seen: set<string>)
    requires depth <= max && GivesNothing(w, max, items, context, depth, seen)
    ensures CombineItems(w, max, items, context, depth, seen) == Collected([])
    decreases |items|
  {
    hide MemberExample;
    if items != [] {
      NothingCollected(w, max, items[..|items| - 1], context, depth, seen);
    }
  }

  lemma {:induction false} StaysReturned(
    w: World, max: nat, items: seq<Json>, k: nat, v: Json, context: Context, depth: nat, seen: set<string>)
    requires depth <= max && k <= |items| && CombineItems(w, max, items[..k], context, depth, seen) == Returned(v)
    ensures CombineItems(w, max, items, context, depth, seen) == Returned(v)
    decreases |items|
  {
    hide MemberExample;
    if k == |items| {
      assert items[..k] == items;
    } else {
      assert items[..|items| - 1][..k] == items[..k];
      StaysReturned(w, max, items[..|items| - 1], k, v, context, depth, seen);
    }
  }

  /** The first member that gives anything decides when that is no object: its example is the result. */
  lemma FirstScalarWins(
    w: World, max: nat, entries: seq<Entry>, items: seq<Json>, k: nat, v: Json, context: Context, depth: nat,
    seen: set<string>)
    requires depth <= max && !Has(entries, "example") && Members(entries) == Some(Arr(items)) && k < |items|
    requires GivesNothing(w, max, items[..k], context, depth, seen)
    requires MemberExample(w, max, items[k], context, depth, seen) == Value(v) && v != Null && !v.Obj?
    ensures ExampleOf(w, max, entries, context, depth, seen) == Value(v)
  {
    hide Lookup, MemberExample, GivesNothing;
    NothingCollected(w, max, items[..k], context, depth, seen);
    assert items[..k + 1][..k] == items[..k];
    StaysReturned(w, max, items, k + 1, v, context, depth, seen);
    hide CombineItems, AddProperties;
  }

  /** An example that is given is taken as it is, whatever else the schema says. */
  lemma GivenExample(w: World, max: nat, entries: seq<Entry>, v: Json, context: Context, depth: nat, seen: set<string>)
    requires depth <= max && Lookup(entries, "example") == Some(v) && !Has(entries, "$ref")
    ensures ExampleFor(w, max, Obj(entries), context, depth, seen) == Value(v)
  {
    assert entries != [];
    hide Lookup;
  }

  /** Without anything else to go by, a type has one example. */
  lemma TypeExample(w: World, max: nat, t: string, context: Context, depth: nat, seen: set<string>)
    requires depth <= max
    ensures ExampleFor(w, max, Obj([Entry("type", Str(t))]), context, depth, seen)
         == match t
            case "string" => Value(Str("string"))
            case "integer" => Value(Int(0))
            case "number" => Value(Float(0.0))
            case "boolean" => Value(Bool(false))
            case "array" => Value(Arr([]))
            case "object" => Value(Obj([]))
            case _ => Value(Null)
  {
    var es := [Entry("type", Str(t))];
    assert es[1..] == [];
    assert Lookup(es, "type") == Some(Str(t));
    assert Combinator(es) == None && !Has(es, "$ref") && !Has(es, "example");
    assert !Has(es, "properties") && !Has(es, "items");
    assert ExampleFor(w, max, EMPTY_OBJECT, context, depth + 1, seen) == Value(Null);
    assert ObjectExample(w, max, [], context, depth, seen) == Value(EMPTY_OBJECT);
  }

  /** A property without an example of its own stands as the empty value of its type, a text when it has none. */
  lemma PlaceholderByType(schema: seq<Entry>)
    ensures Placeholder(Obj(schema))
         == match Get(schema, "type", Str("string"))
            case Str("integer") => Value(Int(0))
            case Str("number") => Value(Float(0.0))
            case Str("boolean") => Value(Bool(false))
            case Str("array") => Value(Arr([]))
            case Str("object") => Value(Obj([]))
            case Arr(_) => Fails
            case Obj(_) => Fails
            case _ => Value(Str("string"))
  {
    hide Lookup;
  }

  /** An array stands with one item, or with none where its item has no example. */
  lemma ArrayExample(w: World, max: nat, items: Json, context: Context, depth: nat, seen: set<string>)
    requires depth <= max
    ensures var item := ExampleFor(w, max, items, context, depth + 1, seen);
      ExampleFor(w, max, Obj([Entry("type", Str("array")), Entry("items", items)]), context, depth, seen)
      == if item.Fails? then Fails else if item.v == Null then Value(Arr([])) else Value(Arr([item.v]))
  {
    var es := [Entry("type", Str("array")), Entry("items", items)];
    assert es[1..] == [es[1]] && es[1..][1..] == [];
    assert Lookup(es, "type") == Some(Str("array")) && Lookup(es, "items") == Some(items);
    assert Combinator(es) == None && !Has(es, "$ref") && !Has(es, "example") && !Has(es, "properties");
  }
}
