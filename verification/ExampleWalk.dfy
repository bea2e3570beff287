/** Generated examples, `_schema_to_example` (bank_api_parser/parsers/base_parser.py). Null stands for Python's None. */
module ExampleWalk {
  import opened Json
  import opened Refs
  import opened FieldWalk

  const MAX_EXAMPLE_DEPTH: nat := 12

  datatype Example = Fails | Value(v: Json)

  /** The state of merging combinator members: still collecting, or already decided. */
  datatype Merge = Broken | Returned(v: Json) | Collected(entries: seq<Entry>)

  function Room(max: nat, depth: nat): nat {
    if depth > max then 0 else max + 1 - depth
  }

  /** `d[key] = value`: an existing key keeps its place. */
  function Put(entries: seq<Entry>, key: string, value: Json): seq<Entry> {
    if entries == [] then [Entry(key, value)]
    else if entries[0].key == key then [Entry(key, value)] + entries[1..]
    else [entries[0]] + Put(entries[1..], key, value)
  }

  /** `d.update(more)`. */
  function Update(entries: seq<Entry>, more: seq<Entry>): seq<Entry> {
    if more == [] then entries
    else Put(Update(entries, more[..|more| - 1]), more[|more| - 1].key, more[|more| - 1].value)
  }

  /** A dictionary lookup by `type`; lists and objects cannot be looked up and raise. */
  function DefaultFor(t: Json): Example {
    if t.Arr? || t.Obj? then Fails
    else if t == Str("string") then Value(Str("string"))
    else if t == Str("integer") then Value(Int(0))
    else if t == Str("number") then Value(Float(0.0))
    else if t == Str("boolean") then Value(Bool(false))
    else Value(Null)
  }

  /** Stands in for a property that gave nothing; chosen by the type written at the property itself. */
  function Placeholder(schema: Json): Example {
    if !schema.Obj? then Value(Str("string"))
    else
      var t := Get(schema.entries, "type", Str("string"));
      if t.Arr? || t.Obj? then Fails
      else if t == Str("array") then Value(Arr([]))
      else if t == Str("object") then Value(EMPTY_OBJECT)
      else if t == Str("integer") then Value(Int(0))
      else if t == Str("number") then Value(Float(0.0))
      else if t == Str("boolean") then Value(Bool(false))
      else Value(Str("string"))
  }

  function ExampleFor(w: World, max: nat, schema: Json, context: Context, depth: nat, seen: set<string>): Example
    decreases Room(max, depth), 2, 0
  {
    if depth > max || !Truthy(schema) then Value(Null)
    else if !schema.Obj? then Fails
    else
      var ref := Lookup(schema.entries, "$ref");
      if ref.None? then ExampleOf(w, max, schema.entries, context, depth, seen)
      else
        match Resolve(w, ref.value, context, seen)
        case Crash => Fails
        case Resolved(node, target, followed) =>
          if node.Obj? && Truthy(node) then ExampleOf(w, max, node.entries, target, depth, followed) else Value(Null)
  }

  function ExampleOf(w: World, max: nat, entries: seq<Entry>, context: Context, depth: nat, seen: set<string>): Example
    requires depth <= max
    decreases Room(max, depth), 1, 0
  {
    var given, combined := Lookup(entries, "example"), Combinator(entries);
    if given.Some? then Value(given.value)
    else if combined.Some? then
      if combined.value.Arr? then
        Finish(w, max, CombineItems(w, max, combined.value.items, context, depth, seen), entries, context, depth, seen)
      else if !Iterable(combined.value) || (depth < max && YieldsText(combined.value)) then Fails
      else Finish(w, max, Collected([]), entries, context, depth, seen)
    else if IsObjectSchema(entries) then
      var properties := Get(entries, "properties", EMPTY_OBJECT);
      if properties.Obj? then ObjectExample(w, max, properties.entries, context, depth, seen) else Fails
    else if IsArraySchema(entries) then
      Wrapped(ExampleFor(w, max, Get(entries, "items", EMPTY_OBJECT), context, depth + 1, seen))
    else DefaultFor(Get(entries, "type", Str("")))
  }

  function Wrapped(item: Example): Example {
    if item.Fails? then Fails else Value(Arr(if item.v == Null then [] else [item.v]))
  }

  /** The combinator members, merged in order. */
  function CombineItems(w: World, max: nat, items: seq<Json>, context: Context, depth: nat, seen: set<string>): Merge
    requires depth <= max
    decreases Room(max, depth), 0, |items|
  {
    if items == [] then Collected([])
    else
      var n := |items| - 1;
      var before := CombineItems(w, max, items[..n], context, depth, seen);
      if !before.Collected? then before
      else Merged(before.entries, MemberExample(w, max, items[n], context, depth, seen))
  }

  /** One member; its own reference is followed here, and the target's again by the recursive call. */
  function MemberExample(w: World, max: nat, member: Json, context: Context, depth: nat, seen: set<string>): Example
    requires depth <= max
    decreases Room(max, depth), 0, 0
  {
    if member.Obj? && Has(member.entries, "$ref") then
      match Resolve(w, Lookup(member.entries, "$ref").value, context, seen)
      case Crash => Fails
      case Resolved(node, target, followed) =>
        if !Truthy(node) then Value(Null) else ExampleFor(w, max, node, target, depth + 1, followed)
    else ExampleFor(w, max, member, context, depth + 1, seen)
  }

  function Merged(entries: seq<Entry>, result: Example): Merge {
    if result.Fails? then Broken
    else if result.v.Obj? then Collected(Update(entries, result.v.entries))
    else if result.v != Null && entries == [] then Returned(result.v)
    else Collected(entries)
  }

  /** After the members, the properties that stand beside the combinator. */
  function Finish(
    w: World, max: nat, members: Merge, entries: seq<Entry>, context: Context, depth: nat, seen: set<string>): Example
    requires depth <= max
    decreases Room(max, depth), 0, |entries| + 1
  {
    match members
    case Broken => Fails
    case Returned(v) => Value(v)
    case Collected(merged) =>
      var properties := Get(entries, "properties", EMPTY_OBJECT);
      if !properties.Obj? then Fails
      else
        match AddProperties(w, max, merged, properties.entries, context, depth, seen)
        case Collected(all) => if all == [] then Value(Null) else Value(Obj(all))
        case _ => Fails
  }

  function AddProperties(
    w: World, max: nat, merged: seq<Entry>, entries: seq<Entry>, context: Context, depth: nat, seen: set<string>): Merge
    requires depth <= max
    decreases Room(max, depth), 0, 0, |entries|
  {
    if entries == [] then Collected(merged)
    else
      var n := |entries| - 1;
      var before := AddProperties(w, max, merged, entries[..n], context, depth, seen);
      if !before.Collected? || Has(before.entries, entries[n].key) then before
      else
        var val := ExampleFor(w, max, entries[n].value, context, depth + 1, seen);
        if val.Fails? then Broken
        else if val.v == Null then before
        else Collected(Put(before.entries, entries[n].key, val.v))
  }

  /** Every property gets a value, a placeholder at worst. */
  function ObjectExample(
    w: World, max: nat, entries: seq<Entry>, context: Context, depth: nat, seen: set<string>): Example
    requires depth <= max
    decreases Room(max, depth), 0, |entries|
  {
    if entries == [] then Value(EMPTY_OBJECT)
    else
      var n := |entries| - 1;
      var before := ObjectExample(w, max, entries[..n], context, depth, seen);
      var val := PropertyExample(w, max, entries[n].value, context, depth, seen);
      if before.Fails? || val.Fails? || !before.v.Obj? then Fails
      else Value(Obj(Put(before.v.entries, entries[n].key, val.v)))
  }

  function PropertyExample(w: World, max: nat, schema: Json, context: Context, depth: nat, seen: set<string>): Example
    requires depth <= max
    decreases Room(max, depth), 0, 0
  {
    var val := ExampleFor(w, max, schema, context, depth + 1, seen);
    if val == Value(Null) then Placeholder(schema) else val
  }
}
