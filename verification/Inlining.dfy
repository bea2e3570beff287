/** Replacing references by what they point to does not change the field names
    (bank_api_parser/parsers/base_parser.py). */
module Inlining {
  import opened Common
  import opened Json
  import opened Refs
  import opened FieldWalk

  predicate IsCombinator(key: string) {
    key == "allOf" || key == "oneOf" || key == "anyOf"
  }

  /** The entries other than `$ref`: a node that was reached by a reference is not dereferenced again. */
  function DropRef(entries: seq<Entry>): seq<Entry> {
    if entries == [] then []
    else if entries[0].key == "$ref" then DropRef(entries[1..])
    else [entries[0]] + DropRef(entries[1..])
  }

  // ---------------------------------------------------------------- inlining with the cycle guard

  /** `schema` with every reference replaced by its target, on any finite set of documents: a reference
      already followed on the branch becomes {}. `known` bounds the references that can occur. */
  ghost function Inline(
    w: World, schema: Json, context: Context, seen: set<string>, known: set<string>, height: nat): Json
    requires height > 0 && BoundedWorld(w, known, height)
    requires Bounded(schema, known, height) && Bounded(context.spec, known, height)
    decreases known - seen, schema, 0
  {
    if !schema.Obj? then schema
    else
      var ref := Lookup(schema.entries, "$ref");
      if ref.None? then Obj(InlineEntries(w, schema.entries, context, seen, known, height))
      else
        LookupBounded(schema.entries, "$ref", known, height);
        ResolveBounded(w, ref.value, context, seen, known, height);
        ResolveGrows(w, ref.value, context, seen);
        match Resolve(w, ref.value, context, seen)
        case Crash => schema
        case Resolved(node, target, followed) =>
          if !Truthy(node) then EMPTY_OBJECT
          else
            DropRefBounded(node.entries, known, height);
            assert ref.value.s in known - seen;
            Obj(InlineEntries(w, DropRef(node.entries), target, followed, known, height))
  }

  ghost function InlineEntries(
    w: World, entries: seq<Entry>, context: Context, seen: set<string>, known: set<string>, height: nat): seq<Entry>
    requires height > 0 && BoundedWorld(w, known, height)
    requires RefsInEntries(entries) <= known && HeightOfEntries(entries) <= height
    requires Bounded(context.spec, known, height)
    decreases known - seen, entries
  {
    if entries == [] then []
    else
      [Entry(entries[0].key, InlineValue(w, entries[0].key, entries[0].value, context, seen, known, height))]
      + InlineEntries(w, entries[1..], context, seen, known, height)
  }

  /** Only the places where a schema stands are touched. */
  ghost function InlineValue(
    w: World, key: string, value: Json, context: Context, seen: set<string>, known: set<string>, height: nat): Json
    requires height > 0 && BoundedWorld(w, known, height)
    requires Bounded(value, known, height) && Bounded(context.spec, known, height)
    decreases known - seen, value, 1
  {
    if IsCombinator(key) && value.Arr? then Arr(InlineItems(w, value.items, context, seen, known, height))
    else if key == "properties" && value.Obj? then Obj(InlineProperties(w, value.entries, context, seen, known, height))
    else if key == "items" then Inline(w, value, context, seen, known, height)
    else value
  }

  ghost function InlineItems(
    w: World, items: seq<Json>, context: Context, seen: set<string>, known: set<string>, height: nat): seq<Json>
    requires height > 0 && BoundedWorld(w, known, height)
    requires RefsInItems(items) <= known && HeightOfItems(items) <= height
    requires Bounded(context.spec, known, height)
    decreases known - seen, items
  {
    if items == [] then []
    else
      [Inline(w, items[0], context, seen, known, height)] + InlineItems(w, items[1..], context, seen, known, height)
  }

  ghost function InlineProperties(
    w: World, entries: seq<Entry>, context: Context, seen: set<string>, known: set<string>, height: nat): seq<Entry>
    requires height > 0 && BoundedWorld(w, known, height)
    requires RefsInEntries(entries) <= known && HeightOfEntries(entries) <= height
    requires Bounded(context.spec, known, height)
    decreases known - seen, entries
  {
    if entries == [] then []
    else
      [Entry(entries[0].key, Inline(w, entries[0].value, context, seen, known, height))]
      + InlineProperties(w, entries[1..], context, seen, known, height)
  }

  lemma {:induction false} DropRefBounded(entries: seq<Entry>, known: set<string>, height: nat)
    requires RefsInEntries(entries) <= known && HeightOfEntries(entries) <= height
    ensures RefsInEntries(DropRef(entries)) <= known && HeightOfEntries(DropRef(entries)) <= height
  {
    if entries != [] {
      DropRefBounded(entries[1..], known, height);
    }
  }

  lemma {:induction false} DropRefLookup(entries: seq<Entry>, key: string)
    ensures Lookup(DropRef(entries), key) == if key == "$ref" then None else Lookup(entries, key)
  {
    if entries != [] {
      DropRefLookup(entries[1..], key);
      if entries[0].key != "$ref" {
        assert DropRef(entries)[1..] == DropRef(entries[1..]);
      }
    }
  }

  lemma {:induction false} DropRefIdentity(entries: seq<Entry>)
    requires !Has(entries, "$ref")
    ensures DropRef(entries) == entries
  {
    if entries != [] {
      DropRefIdentity(entries[1..]);
    }
  }

  // ---------------------------------------------------------------- the theorem

  lemma {:induction false} InlinedLookup(
    w: World, entries: seq<Entry>, key: string, context: Context, seen: set<string>, known: set<string>, height: nat)
    requires height > 0 && BoundedWorld(w, known, height)
    requires RefsInEntries(entries) <= known && HeightOfEntries(entries) <= height
    requires Bounded(context.spec, known, height)
    ensures Lookup(entries, key).None? ==> Lookup(InlineEntries(w, entries, context, seen, known, height), key).None?
    ensures Lookup(entries, key).Some? ==>
      Bounded(Lookup(entries, key).value, known, height)
      && Lookup(InlineEntries(w, entries, context, seen, known, height), key)
         == Some(InlineValue(w, key, Lookup(entries, key).value, context, seen, known, height))
    decreases entries
  {
    if entries != [] {
      var inlined := InlineEntries(w, entries, context, seen, known, height);
      assert inlined[1..] == InlineEntries(w, entries[1..], context, seen, known, height);
      if entries[0].key != key {
        InlinedLookup(w, entries[1..], key, context, seen, known, height);
      }
    }
  }

  /** At every prefix and depth, and whatever document the inlined schema is taken to stand in, inlining
      leaves the field list as it was. Documents may be cyclic and refer to one another. */
  lemma {:induction false} InliningKeepsFields(
    w: World, lim: Limits, schema: Json, context: Context, prefix: string, depth: nat, seen: set<string>,
    known: set<string>, height: nat, elsewhere: Context, other: set<string>)
    requires height > 0 && BoundedWorld(w, known, height)
    requires Bounded(schema, known, height) && Bounded(context.spec, known, height)
    ensures Fields(w, lim, Inline(w, schema, context, seen, known, height), elsewhere, prefix, depth, other)
         == Fields(w, lim, schema, context, prefix, depth, seen)
    decreases Left(lim, depth), 2, 0
  {
    if depth <= lim.maxDepth && schema.Obj? {
      var ref := Lookup(schema.entries, "$ref");
      if ref.None? {
        EntriesKeepFields(w, lim, schema.entries, context, prefix, depth, seen, known, height, elsewhere, other);
        InlinedLookup(w, schema.entries, "$ref", context, seen, known, height);
      } else {
        LookupBounded(schema.entries, "$ref", known, height);
        ResolveBounded(w, ref.value, context, seen, known, height);
        var r := Resolve(w, ref.value, context, seen);
        if r.Resolved? && Truthy(r.node) {
          DropRefBounded(r.node.entries, known, height);
          DropRefLookup(r.node.entries, "$ref");
          var dropped := DropRef(r.node.entries);
          EntriesKeepFields(w, lim, dropped, r.context, prefix, depth, r.seen, known, height, elsewhere, other);
          InlinedLookup(w, dropped, "$ref", r.context, r.seen, known, height);
          FieldsIgnoreRef(w, lim, r.node.entries, r.context, prefix, depth, r.seen);
          if dropped == [] {
            NothingListed(w, lim, r.context, prefix, depth, r.seen);
          }
        }
      }
    }
  }

  lemma NothingListed(w: World, lim: Limits, context: Context, prefix: string, depth: nat, seen: set<string>)
    requires depth <= lim.maxDepth
    ensures FieldsOf(w, lim, [], context, prefix, depth, seen) == Names([])
  {
  }

  lemma FieldsIgnoreRef(
    w: World, lim: Limits, entries: seq<Entry>, context: Context, prefix: string, depth: nat, seen: set<string>)
    requires depth <= lim.maxDepth
    ensures FieldsOf(w, lim, DropRef(entries), context, prefix, depth, seen)
         == FieldsOf(w, lim, entries, context, prefix, depth, seen)
  {
    hide Lookup, DropRef, Fields, FieldsOfItems, FieldsOfProperties;
    DropRefLookup(entries, "allOf");
    DropRefLookup(entries, "oneOf");
    DropRefLookup(entries, "anyOf");
    DropRefLookup(entries, "type");
    DropRefLookup(entries, "properties");
    DropRefLookup(entries, "items");
  }

  lemma InlinedCombinator(
    w: World, entries: seq<Entry>, context: Context, seen: set<string>, known: set<string>, height: nat)
    requires height > 0 && BoundedWorld(w, known, height)
    requires RefsInEntries(entries) <= known && HeightOfEntries(entries) <= height
    requires Bounded(context.spec, known, height)
    ensures var was, now := Combinator(entries), Combinator(InlineEntries(w, entries, context, seen, known, height));
      && (was.None? <==> now.None?)
      && (was.Some? ==>
        Bounded(was.value, known, height)
        && now.value == if was.value.Arr? then Arr(InlineItems(w, was.value.items, context, seen, known, height))
          else was.value)
  {
    InlinedLookup(w, entries, "allOf", context, seen, known, height);
    InlinedLookup(w, entries, "oneOf", context, seen, known, height);
    InlinedLookup(w, entries, "anyOf", context, seen, known, height);
    hide InlineEntries, Lookup, InlineItems, Inline, RefsInEntries, HeightOfEntries, BoundedWorld;
  }

  lemma InlinedKeywords(
    w: World, entries: seq<Entry>, context: Context, seen: set<string>, known: set<string>, height: nat)
    requires height > 0 && BoundedWorld(w, known, height)
    requires RefsInEntries(entries) <= known && HeightOfEntries(entries) <= height
    requires Bounded(context.spec, known, height)
    ensures var inlined := InlineEntries(w, entries, context, seen, known, height);
      IsObjectSchema(inlined) == IsObjectSchema(entries) && IsArraySchema(inlined) == IsArraySchema(entries)
  {
    InlinedLookup(w, entries, "type", context, seen, known, height);
    InlinedLookup(w, entries, "properties", context, seen, known, height);
    InlinedLookup(w, entries, "items", context, seen, known, height);
    hide InlineEntries, Lookup, InlineProperties, InlineItems, Inline, RefsInEntries, HeightOfEntries, BoundedWorld;
  }

  lemma InlinedProperties(
    w: World, entries: seq<Entry>, context: Context, seen: set<string>, known: set<string>, height: nat)
    requires height > 0 && BoundedWorld(w, known, height)
    requires RefsInEntries(entries) <= known && HeightOfEntries(entries) <= height
    requires Bounded(context.spec, known, height)
    ensures var properties := Get(entries, "properties", EMPTY_OBJECT);
      && Bounded(properties, known, height)
      && Get(InlineEntries(w, entries, context, seen, known, height), "properties", EMPTY_OBJECT)
         == if properties.Obj? then Obj(InlineProperties(w, properties.entries, context, seen, known, height))
           else properties
  {
    InlinedLookup(w, entries, "properties", context, seen, known, height);
    assert InlineProperties(w, [], context, seen, known, height) == [];
    hide InlineEntries, Lookup, InlineProperties, InlineItems, Inline, BoundedWorld;
  }

  lemma InlineEmpty(w: World, context: Context, seen: set<string>, known: set<string>, height: nat)
    requires height > 0 && BoundedWorld(w, known, height) && Bounded(context.spec, known, height)
    ensures Bounded(EMPTY_OBJECT, known, height)
    ensures Inline(w, EMPTY_OBJECT, context, seen, known, height) == EMPTY_OBJECT
  {
    hide BoundedWorld;
    assert Lookup([], "$ref").None?;
  }

  lemma InlinedItems(
    w: World, entries: seq<Entry>, context: Context, seen: set<string>, known: set<string>, height: nat)
    requires height > 0 && BoundedWorld(w, known, height)
    requires RefsInEntries(entries) <= known && HeightOfEntries(entries) <= height
    requires Bounded(context.spec, known, height)
    ensures var items := Get(entries, "items", EMPTY_OBJECT);
      && Bounded(items, known, height)
      && Get(InlineEntries(w, entries, context, seen, known, height), "items", EMPTY_OBJECT)
         == Inline(w, items, context, seen, known, height)
  {
    hide InlineEntries, Lookup, InlineProperties, InlineItems, Inline, BoundedWorld;
    InlinedLookup(w, entries, "items", context, seen, known, height);
    InlineEmpty(w, context, seen, known, height);
  }

  lemma {:induction false} EntriesKeepFields(
    w: World, lim: Limits, entries: seq<Entry>, context: Context, prefix: string, depth: nat, seen: set<string>,
    known: set<string>, height: nat, elsewhere: Context, other: set<string>)
    requires height > 0 && BoundedWorld(w, known, height)
    requires RefsInEntries(entries) <= known && HeightOfEntries(entries) <= height
    requires Bounded(context.spec, known, height)
    requires depth <= lim.maxDepth
    ensures FieldsOf(w, lim, InlineEntries(w, entries, context, seen, known, height), elsewhere, prefix, depth, other)
         == FieldsOf(w, lim, entries, context, prefix, depth, seen)
    decreases Left(lim, depth), 1, 0
  {
    hide Inline, InlineEntries, InlineItems, InlineProperties, InlineValue, Fields, FieldsOfItems,
        FieldsOfProperties, Lookup,
         RefsInEntries, HeightOfEntries, BoundedWorld;
    InlinedCombinator(w, entries, context, seen, known, height);
    InlinedKeywords(w, entries, context, seen, known, height);
    InlinedProperties(w, entries, context, seen, known, height);
    InlinedItems(w, entries, context, seen, known, height);
    var combined := Combinator(entries);
    if combined.Some? {
      if combined.value.Arr? {
        ItemsKeepFields(w, lim, combined.value.items, context, prefix, depth + 1, seen, known, height, elsewhere,
                        other);
      }
    } else if IsObjectSchema(entries) {
      var properties := Get(entries, "properties", EMPTY_OBJECT);
      if properties.Obj? {
        PropertiesKeepFields(w, lim, properties.entries, context, prefix, depth, seen, known, height, elsewhere, other);
      }
    } else if IsArraySchema(entries) {
      var items := Get(entries, "items", EMPTY_OBJECT);
      InliningKeepsFields(w, lim, items, context, prefix, depth + 1, seen, known, height, elsewhere, other);
    }
  }

  lemma {:induction false} ItemsKeepFields(
    w: World, lim: Limits, items: seq<Json>, context: Context, prefix: string, depth: nat, seen: set<string>,
    known: set<string>, height: nat, elsewhere: Context, other: set<string>)
    requires height > 0 && BoundedWorld(w, known, height)
    requires RefsInItems(items) <= known && HeightOfItems(items) <= height
    requires Bounded(context.spec, known, height)
    ensures FieldsOfItems(w, lim, InlineItems(w, items, context, seen, known, height), elsewhere, prefix, depth, other)
         == FieldsOfItems(w, lim, items, context, prefix, depth, seen)
    decreases Left(lim, depth), 3, |items|
  {
    if items != [] {
      var n := |items| - 1;
      ItemsSplit(w, items, n, context, seen, known, height);
      ItemsKeepFields(w, lim, items[..n], context, prefix, depth, seen, known, height, elsewhere, other);
      InliningKeepsFields(w, lim, items[n], context, prefix, depth, seen, known, height, elsewhere, other);
      var init := InlineItems(w, items[..n], context, seen, known, height);
      var last := Inline(w, items[n], context, seen, known, height);
      assert (init + [last])[..|init|] == init;
    }
  }

  /** Inlining works item by item, so the last one can be taken off. */
  lemma {:induction false} ItemsSplit(
    w: World, items: seq<Json>, n: nat, context: Context, seen: set<string>, known: set<string>, height: nat)
    requires height > 0 && BoundedWorld(w, known, height)
    requires RefsInItems(items) <= known && HeightOfItems(items) <= height
    requires Bounded(context.spec, known, height)
    requires |items| == n + 1
    ensures RefsInItems(items[..n]) <= known && HeightOfItems(items[..n]) <= height && Bounded(items[n], known, height)
    ensures InlineItems(w, items, context, seen, known, height)
         == InlineItems(w, items[..n], context, seen, known, height)
           + [Inline(w, items[n], context, seen, known, height)]
    decreases n
  {
    if n > 0 {
      ItemsSplit(w, items[1..], n - 1, context, seen, known, height);
      assert items[1..][..n - 1] == items[..n][1..];
    }
  }

  lemma {:induction false} PropertiesSplit(
    w: World, entries: seq<Entry>, n: nat, context: Context, seen: set<string>, known: set<string>, height: nat)
    requires height > 0 && BoundedWorld(w, known, height)
    requires RefsInEntries(entries) <= known && HeightOfEntries(entries) <= height
    requires Bounded(context.spec, known, height)
    requires |entries| == n + 1
    ensures RefsInEntries(entries[..n]) <= known && HeightOfEntries(entries[..n]) <= height
    ensures Bounded(entries[n].value, known, height)
    ensures InlineProperties(w, entries, context, seen, known, height)
         == InlineProperties(w, entries[..n], context, seen, known, height)
            + [Entry(entries[n].key, Inline(w, entries[n].value, context, seen, known, height))]
    decreases n
  {
    if n > 0 {
      PropertiesSplit(w, entries[1..], n - 1, context, seen, known, height);
      assert entries[1..][..n - 1] == entries[..n][1..];
    }
  }

  lemma {:induction false} PropertiesKeepFields(
    w: World, lim: Limits, entries: seq<Entry>, context: Context, prefix: string, depth: nat, seen: set<string>,
    known: set<string>, height: nat, elsewhere: Context, other: set<string>)
    requires height > 0 && BoundedWorld(w, known, height)
    requires RefsInEntries(entries) <= known && HeightOfEntries(entries) <= height
    requires Bounded(context.spec, known, height)
    requires depth <= lim.maxDepth
    ensures FieldsOfProperties(w, lim, InlineProperties(w, entries, context, seen, known, height), elsewhere, prefix,
                               depth, other)
         == FieldsOfProperties(w, lim, entries, context, prefix, depth, seen)
    decreases Left(lim, depth), 0, |entries| + 1
  {
    if entries != [] {
      var n := |entries| - 1;
      var last := entries[n];
      PropertiesSplit(w, entries, n, context, seen, known, height);
      PropertiesKeepFields(w, lim, entries[..n], context, prefix, depth, seen, known, height, elsewhere, other);
      if depth < lim.nestDepth {
        InliningKeepsFields(w, lim, last.value, context, Dotted(prefix, last.key), depth + 1, seen, known, height,
                            elsewhere, other);
      }
      var init := InlineProperties(w, entries[..n], context, seen, known, height);
      var tail := Entry(last.key, Inline(w, last.value, context, seen, known, height));
      assert (init + [tail])[..|init|] == init;
    }
  }
}
