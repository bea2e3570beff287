/** The parser object: its cache of sibling documents and the two recursive walkers as loops
    (bank_api_parser/parsers/base_parser.py). */
module SpecParser {
  import opened Json
  import opened Refs
  import opened FieldWalk
  import opened ExampleWalk

  // ---------------------------------------------------------------- an exception ends the loop it occurs in

  lemma {:induction false} RaisedItem(
    w: World, lim: Limits, items: seq<Json>, n: nat, context: Context, prefix: string, depth: nat, seen: set<string>)
    requires n <= |items| && FieldsOfItems(w, lim, items[..n], context, prefix, depth, seen).Raises?
    ensures FieldsOfItems(w, lim, items, context, prefix, depth, seen).Raises?
    decreases |items|
  {
    hide Fields;
    if n < |items| {
      var init := items[..|items| - 1];
      assert init[..n] == items[..n];
      RaisedItem(w, lim, init, n, context, prefix, depth, seen);
    } else {
      assert items[..n] == items;
    }
  }

  lemma {:induction false} RaisedProperty(
    w: World, lim: Limits, entries: seq<Entry>, n: nat, context: Context, prefix: string, depth: nat, seen: set<string>)
    requires depth <= lim.maxDepth
    requires n <= |entries| && FieldsOfProperties(w, lim, entries[..n], context, prefix, depth, seen).Raises?
    ensures FieldsOfProperties(w, lim, entries, context, prefix, depth, seen).Raises?
    decreases |entries|
  {
    hide FieldsOfProperty;
    if n < |entries| {
      var init := entries[..|entries| - 1];
      assert init[..n] == entries[..n];
      RaisedProperty(w, lim, init, n, context, prefix, depth, seen);
    } else {
      assert entries[..n] == entries;
    }
  }

  lemma {:induction false} DecidedMember(
    w: World, max: nat, items: seq<Json>, n: nat, context: Context, depth: nat, seen: set<string>)
    requires depth <= max && n <= |items| && !CombineItems(w, max, items[..n], context, depth, seen).Collected?
    ensures CombineItems(w, max, items, context, depth, seen) == CombineItems(w, max, items[..n], context, depth, seen)
    decreases |items|
  {
    hide MemberExample;
    if n < |items| {
      var init := items[..|items| - 1];
      assert init[..n] == items[..n];
      DecidedMember(w, max, init, n, context, depth, seen);
    } else {
      assert items[..n] == items;
    }
  }

  lemma {:induction false} BrokenProperty(
    w: World, max: nat, merged: seq<Entry>, entries: seq<Entry>, n: nat, context: Context, depth: nat,
    seen: set<string>)
    requires depth <= max && n <= |entries| && AddProperties(w, max, merged, entries[..n], context, depth, seen).Broken?
    ensures AddProperties(w, max, merged, entries, context, depth, seen).Broken?
    decreases |entries|
  {
    hide ExampleFor;
    if n < |entries| {
      var init := entries[..|entries| - 1];
      assert init[..n] == entries[..n];
      BrokenProperty(w, max, merged, init, n, context, depth, seen);
    } else {
      assert entries[..n] == entries;
    }
  }

  lemma {:induction false} FailedProperty(
    w: World, max: nat, entries: seq<Entry>, n: nat, context: Context, depth: nat, seen: set<string>)
    requires depth <= max && n <= |entries| && ObjectExample(w, max, entries[..n], context, depth, seen).Fails?
    ensures ObjectExample(w, max, entries, context, depth, seen).Fails?
    decreases |entries|
  {
    hide PropertyExample;
    if n < |entries| {
      var init := entries[..|entries| - 1];
      assert init[..n] == entries[..n];
      FailedProperty(w, max, init, n, context, depth, seen);
    } else {
      assert entries[..n] == entries;
    }
  }

  class BaseParser {
    const world: World
    /** Address to parsed document, {} for one that could not be had. */
    var cache: map<string, Json>
    /** Addresses asked of the network, in order. */
    ghost var downloads: seq<string>

    ghost predicate Valid()
      reads this
    {
      && (forall u :: u in cache ==> cache[u] == Document(world, u))
      && (forall u :: u in downloads <==> u in cache)
      && (forall i, j :: 0 <= i < j < |downloads| ==> downloads[i] != downloads[j])
    }

    constructor (w: World)
      ensures Valid() && world == w && cache == map[] && downloads == []
    {
      world, cache, downloads := w, map[], [];
    }

    /** Each address is downloaded at most once, and the answer never depends on what was asked before. */
    method FetchExternalSpec(url: string) returns (spec: Json)
      requires Valid()
      modifies this
      ensures Valid()
      ensures spec == Document(world, url)
      ensures cache == old(cache)[url := spec]
      ensures downloads == if url in old(cache) then old(downloads) else old(downloads) + [url]
    {
      if url in cache {
        spec := cache[url];
        assert cache == cache[url := spec];
        return;
      }
      downloads := downloads + [url];
      spec := EMPTY_OBJECT;
      if url in world.docs && world.docs[url].Obj? {
        spec := world.docs[url];
      }
      cache := cache[url := spec];
    }

    method ResolveRef(ref: Json, context: Context, seen: set<string>) returns (r: Resolution)
      requires Valid()
      modifies this
      ensures Valid()
      ensures r == Resolve(world, ref, context, seen)
    {
      if !Truthy(ref) {
        return Resolved(EMPTY_OBJECT, context, seen);
      }
      if !ref.Str? {
        return Crash;
      }
      if ref.s in seen {
        return Resolved(EMPTY_OBJECT, context, seen);
      }
      var followed := seen + {ref.s};
      if StartsWithHashSlash(ref.s) {
        var node := ResolvePointer(ref.s, context.spec);
        return Resolved(node, context, followed);
      }
      var filePart, fragment := BeforeHash(ref.s), AfterHash(ref.s);
      if filePart == "" || context.url == "" || Link(context.url, filePart) !in world.targets {
        return Resolved(EMPTY_OBJECT, context, followed);
      }
      var externalUrl := world.targets[Link(context.url, filePart)];
      var externalSpec := FetchExternalSpec(externalUrl);
      if !Truthy(externalSpec) {
        return Resolved(EMPTY_OBJECT, context, followed);
      }
      if fragment == "" {
        return Resolved(externalSpec, Context(externalSpec, externalUrl), followed);
      }
      var node := ResolvePointer("#" + fragment, externalSpec);
      r := Resolved(node, Context(externalSpec, externalUrl), followed);
    }

    method ExtractFields(
      schema: Json, context: Context, prefix: string, depth: nat, seen: set<string>) returns (r: FieldList)
      requires Valid()
      modifies this
      ensures Valid()
      ensures r == Fields(world, SOURCE_LIMITS, schema, context, prefix, depth, seen)
      decreases Left(SOURCE_LIMITS, depth), 2
    {
      hide FieldsOf, Resolve;
      if depth > SOURCE_LIMITS.maxDepth || !Truthy(schema) {
        return Names([]);
      }
      if !schema.Obj? {
        return Raises;
      }
      var ref := Lookup(schema.entries, "$ref");
      if ref.None? {
        r := ExtractFieldsOf(schema.entries, context, prefix, depth, seen);
        return;
      }
      var resolved := ResolveRef(ref.value, context, seen);
      if resolved.Crash? {
        return Raises;
      }
      if !resolved.node.Obj? || !Truthy(resolved.node) {
        return Names([]);
      }
      r := ExtractFieldsOf(resolved.node.entries, resolved.context, prefix, depth, resolved.seen);
    }

    /** The loop over the members of a combinator. */
    method ExtractItems(items: seq<Json>, context: Context, prefix: string, depth: nat, seen: set<string>)
      returns (r: FieldList)
      requires Valid() && depth <= SOURCE_LIMITS.maxDepth
      modifies this
      ensures Valid()
      ensures r == FieldsOfItems(world, SOURCE_LIMITS, items, context, prefix, depth + 1, seen)
      decreases Left(SOURCE_LIMITS, depth), 0
    {
      hide Fields, Lookup;
      var lim := SOURCE_LIMITS;
      var fields: seq<string> := [];
      for n := 0 to |items|
        invariant Valid()
        invariant Names(fields) == FieldsOfItems(world, lim, items[..n], context, prefix, depth + 1, seen)
      {
        assert items[..n + 1][..n] == items[..n];
        var sub := ExtractFields(items[n], context, prefix, depth + 1, seen);
        if sub.Raises? {
          RaisedItem(world, lim, items, n + 1, context, prefix, depth + 1, seen);
          return Raises;
        }
        fields := fields + sub.names;
      }
      assert items[..|items|] == items;
      return Names(fields);
    }

    /** The loop over the properties of an object schema. */
    method ExtractProperties(entries: seq<Entry>, context: Context, prefix: string, depth: nat, seen: set<string>)
      returns (r: FieldList)
      requires Valid() && depth <= SOURCE_LIMITS.maxDepth
      modifies this
      ensures Valid()
      ensures r == FieldsOfProperties(world, SOURCE_LIMITS, entries, context, prefix, depth, seen)
      decreases Left(SOURCE_LIMITS, depth), 0
    {
      hide Fields, Lookup;
      var lim := SOURCE_LIMITS;
      var fields: seq<string> := [];
      for n := 0 to |entries|
        invariant Valid()
        invariant Names(fields) == FieldsOfProperties(world, lim, entries[..n], context, prefix, depth, seen)
      {
        assert entries[..n + 1][..n] == entries[..n];
        var full := Dotted(prefix, entries[n].key);
        var below := Names([]);
        if depth < lim.nestDepth {
          below := ExtractFields(entries[n].value, context, full, depth + 1, seen);
        }
        if below.Raises? {
          RaisedProperty(world, lim, entries, n + 1, context, prefix, depth, seen);
          return Raises;
        }
        assert fields + [full] + below.names == fields + ([full] + below.names);
        fields := fields + [full] + below.names;
      }
      assert entries[..|entries|] == entries;
      return Names(fields);
    }

    /** The part of `_extract_fields` after the reference is dealt with. */
    method ExtractFieldsOf(
      entries: seq<Entry>, context: Context, prefix: string, depth: nat, seen: set<string>) returns (r: FieldList)
      requires Valid() && depth <= SOURCE_LIMITS.maxDepth
      modifies this
      ensures Valid()
      ensures r == FieldsOf(world, SOURCE_LIMITS, entries, context, prefix, depth, seen)
      decreases Left(SOURCE_LIMITS, depth), 1
    {
      hide Fields, Lookup;
      var lim := SOURCE_LIMITS;
      var combined := Combinator(entries);
      if combined.Some? {
        if !Iterable(combined.value) {
          return Raises;
        }
        if !combined.value.Arr? {
          return if depth < lim.maxDepth && YieldsText(combined.value) then Raises else Names([]);
        }
        r := ExtractItems(combined.value.items, context, prefix, depth, seen);
        return;
      }
      if IsObjectSchema(entries) {
        var properties := Get(entries, "properties", EMPTY_OBJECT);
        if !properties.Obj? {
          return Raises;
        }
        r := ExtractProperties(properties.entries, context, prefix, depth, seen);
        return;
      }
      if IsArraySchema(entries) {
        r := ExtractFields(Get(entries, "items", EMPTY_OBJECT), context, prefix, depth + 1, seen);
      } else {
        r := Names([]);
      }
    }

    method SchemaToExample(schema: Json, context: Context, depth: nat, seen: set<string>) returns (r: Example)
      requires Valid()
      modifies this
      ensures Valid()
      ensures r == ExampleFor(world, MAX_EXAMPLE_DEPTH, schema, context, depth, seen)
      decreases Room(MAX_EXAMPLE_DEPTH, depth), 2
    {
      hide ExampleOf, Resolve;
      if depth > MAX_EXAMPLE_DEPTH || !Truthy(schema) {
        return Value(Null);
      }
      if !schema.Obj? {
        return Fails;
      }
      var ref := Lookup(schema.entries, "$ref");
      if ref.None? {
        r := ExampleOfEntries(schema.entries, context, depth, seen);
        return;
      }
      var resolved := ResolveRef(ref.value, context, seen);
      if resolved.Crash? {
        return Fails;
      }
      if !resolved.node.Obj? || !Truthy(resolved.node) {
        return Value(Null);
      }
      r := ExampleOfEntries(resolved.node.entries, resolved.context, depth, resolved.seen);
    }

    /** The part of `_schema_to_example` after the reference is dealt with. */
    method ExampleOfEntries(entries: seq<Entry>, context: Context, depth: nat, seen: set<string>) returns (r: Example)
      requires Valid() && depth <= MAX_EXAMPLE_DEPTH
      modifies this
      ensures Valid()
      ensures r == ExampleOf(world, MAX_EXAMPLE_DEPTH, entries, context, depth, seen)
      decreases Room(MAX_EXAMPLE_DEPTH, depth), 1
    {
      hide ExampleFor, Lookup, CombineItems, ObjectExample, DefaultFor, Finish;
      var given, combined := Lookup(entries, "example"), Combinator(entries);
      if given.Some? {
        return Value(given.value);
      }
      if combined.Some? {
        if !Iterable(combined.value) {
          return Fails;
        }
        var members := Collected([]);
        if combined.value.Arr? {
          members := MergeMembers(combined.value.items, context, depth, seen);
        } else if depth < MAX_EXAMPLE_DEPTH && YieldsText(combined.value) {
          return Fails;
        }
        r := MergeProperties(members, entries, context, depth, seen);
        return;
      }
      if IsObjectSchema(entries) {
        var properties := Get(entries, "properties", EMPTY_OBJECT);
        if !properties.Obj? {
          return Fails;
        }
        r := BuildObject(properties.entries, context, depth, seen);
        return;
      }
      if IsArraySchema(entries) {
        var item := SchemaToExample(Get(entries, "items", EMPTY_OBJECT), context, depth + 1, seen);
        return Wrapped(item);
      }
      r := DefaultFor(Get(entries, "type", Str("")));
    }

    /** The loop over the members of a combinator. */
    method MergeMembers(items: seq<Json>, context: Context, depth: nat, seen: set<string>) returns (r: Merge)
      requires Valid() && depth <= MAX_EXAMPLE_DEPTH
      modifies this
      ensures Valid()
      ensures r == CombineItems(world, MAX_EXAMPLE_DEPTH, items, context, depth, seen)
      decreases Room(MAX_EXAMPLE_DEPTH, depth), 0
    {
      hide ExampleFor, Lookup, Update, Resolve;
      var max := MAX_EXAMPLE_DEPTH;
      var merged: seq<Entry> := [];
      for n := 0 to |items|
        invariant Valid()
        invariant Collected(merged) == CombineItems(world, max, items[..n], context, depth, seen)
      {
        assert items[..n + 1][..n] == items[..n];
        var sub, subContext, subSeen, skip := items[n], context, seen, false;
        var result := Value(Null);
        if sub.Obj? && Has(sub.entries, "$ref") {
          var resolved := ResolveRef(Lookup(sub.entries, "$ref").value, context, seen);
          if resolved.Crash? {
            DecidedMember(world, max, items, n + 1, context, depth, seen);
            return Broken;
          }
          sub, subContext, subSeen, skip := resolved.node, resolved.context, resolved.seen, !Truthy(resolved.node);
        }
        if !skip {
          result := SchemaToExample(sub, subContext, depth + 1, subSeen);
        }
        assert result == MemberExample(world, max, items[n], context, depth, seen);
        if result.Fails? {
          DecidedMember(world, max, items, n + 1, context, depth, seen);
          return Broken;
        }
        if result.v.Obj? {
          merged := Update(merged, result.v.entries);
        } else if result.v != Null && merged == [] {
          DecidedMember(world, max, items, n + 1, context, depth, seen);
          return Returned(result.v);
        }
      }
      assert items[..|items|] == items;
      r := Collected(merged);
    }

    /** The properties beside a combinator, where the members left them out. */
    method MergeProperties(
      members: Merge, entries: seq<Entry>, context: Context, depth: nat, seen: set<string>) returns (r: Example)
      requires Valid() && depth <= MAX_EXAMPLE_DEPTH
      modifies this
      ensures Valid()
      ensures r == Finish(world, MAX_EXAMPLE_DEPTH, members, entries, context, depth, seen)
      decreases Room(MAX_EXAMPLE_DEPTH, depth), 0
    {
      hide ExampleFor, Lookup, Put;
      var max := MAX_EXAMPLE_DEPTH;
      if members.Broken? {
        return Fails;
      }
      if members.Returned? {
        return Value(members.v);
      }
      var properties := Get(entries, "properties", EMPTY_OBJECT);
      if !properties.Obj? {
        return Fails;
      }
      var merged, props := members.entries, properties.entries;
      for n := 0 to |props|
        invariant Valid()
        invariant Collected(merged) == AddProperties(world, max, members.entries, props[..n], context, depth, seen)
      {
        assert props[..n + 1][..n] == props[..n];
        if !Has(merged, props[n].key) {
          var val := SchemaToExample(props[n].value, context, depth + 1, seen);
          if val.Fails? {
            BrokenProperty(world, max, members.entries, props, n + 1, context, depth, seen);
            return Fails;
          }
          if val.v != Null {
            merged := Put(merged, props[n].key, val.v);
          }
        }
      }
      assert props[..|props|] == props;
      r := if merged == [] then Value(Null) else Value(Obj(merged));
    }

    /** The loop over the properties of an object schema. */
    method BuildObject(entries: seq<Entry>, context: Context, depth: nat, seen: set<string>) returns (r: Example)
      requires Valid() && depth <= MAX_EXAMPLE_DEPTH
      modifies this
      ensures Valid()
      ensures r == ObjectExample(world, MAX_EXAMPLE_DEPTH, entries, context, depth, seen)
      decreases Room(MAX_EXAMPLE_DEPTH, depth), 0
    {
      hide ExampleFor, Lookup, Put, Placeholder;
      var max := MAX_EXAMPLE_DEPTH;
      var obj: seq<Entry> := [];
      for n := 0 to |entries|
        invariant Valid()
        invariant Value(Obj(obj)) == ObjectExample(world, max, entries[..n], context, depth, seen)
      {
        assert entries[..n + 1][..n] == entries[..n];
        var val := SchemaToExample(entries[n].value, context, depth + 1, seen);
        if val == Value(Null) {
          val := Placeholder(entries[n].value);
        }
        if val.Fails? {
          FailedProperty(world, max, entries, n + 1, context, depth, seen);
          return Fails;
        }
        obj := Put(obj, entries[n].key, val.v);
      }
      assert entries[..|entries|] == entries;
      r := Value(Obj(obj));
    }
  }
}
