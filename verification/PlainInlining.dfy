/** Ordinary inlining of local, acyclic references. */
module PlainInlining {
  import opened Common
  import opened Json
  import opened Refs
  import opened FieldWalk
  import opened Inlining

  /** The references standing at schema positions of a schema, its own included. */
  ghost function SchemaRefs(schema: Json): set<string>
    decreases schema, 0
  {
    if !schema.Obj? then {}
    else
      var ref := Lookup(schema.entries, "$ref");
      if ref.None? then EntryRefs(schema.entries)
      else if ref.value.Str? && ref.value.s != "" then {ref.value.s}
      else {}
  }

  ghost function EntryRefs(entries: seq<Entry>): set<string>
    decreases entries
  {
    if entries == [] then {} else ValueRefs(entries[0].key, entries[0].value) + EntryRefs(entries[1..])
  }

  ghost function ValueRefs(key: string, value: Json): set<string>
    decreases value, 1
  {
    if IsCombinator(key) && value.Arr? then ItemRefs(value.items)
    else if key == "properties" && value.Obj? then PropertyRefs(value.entries)
    else if key == "items" then SchemaRefs(value)
    else {}
  }

  ghost function ItemRefs(items: seq<Json>): set<string>
    decreases items
  {
    if items == [] then {} else SchemaRefs(items[0]) + ItemRefs(items[1..])
  }

  ghost function PropertyRefs(entries: seq<Entry>): set<string>
    decreases entries
  {
    if entries == [] then {} else SchemaRefs(entries[0].value) + PropertyRefs(entries[1..])
  }

  /** The references in `rank` are local, and each has a larger rank than every reference its target uses, so
      that no chain of references returns to its start. */
  ghost predicate Acyclic(spec: Json, rank: map<string, nat>) {
    forall s :: s in rank ==>
      StartsWithHashSlash(s) && Below(EntryRefs(Replacement(s, spec)), rank, rank[s])
  }

  /** What takes the place of a reference: its target, less a reference of the target's own. */
  ghost function Replacement(s: string, spec: Json): seq<Entry> {
    DropRef(Target(s, spec))
  }

  ghost function Target(s: string, spec: Json): seq<Entry> {
    var node := Pointed(s, spec);
    if node.Obj? then node.entries else []
  }

  ghost predicate Below(used: set<string>, rank: map<string, nat>, bound: nat) {
    forall s :: s in used ==> s in rank && rank[s] < bound
  }

  /** `schema` with every reference replaced. */
  ghost function Expand(schema: Json, spec: Json, rank: map<string, nat>, bound: nat): Json
    requires Acyclic(spec, rank) && Below(SchemaRefs(schema), rank, bound)
    decreases bound, schema, 0
  {
    if !schema.Obj? then schema
    else
      var ref := Lookup(schema.entries, "$ref");
      if ref.None? then Obj(ExpandEntries(schema.entries, spec, rank, bound))
      else if !Truthy(ref.value) then EMPTY_OBJECT
      else if !ref.value.Str? then schema
      else
        var s := ref.value.s;
        assert s in SchemaRefs(schema);
        Obj(ExpandEntries(Replacement(s, spec), spec, rank, rank[s]))
  }

  ghost function ExpandEntries(entries: seq<Entry>, spec: Json, rank: map<string, nat>, bound: nat): seq<Entry>
    requires Acyclic(spec, rank) && Below(EntryRefs(entries), rank, bound)
    decreases bound, entries
  {
    if entries == [] then []
    else
      [Entry(entries[0].key, ExpandValue(entries[0].key, entries[0].value, spec, rank, bound))]
      + ExpandEntries(entries[1..], spec, rank, bound)
  }

  ghost function ExpandValue(key: string, value: Json, spec: Json, rank: map<string, nat>, bound: nat): Json
    requires Acyclic(spec, rank) && Below(ValueRefs(key, value), rank, bound)
    decreases bound, value, 1
  {
    if IsCombinator(key) && value.Arr? then Arr(ExpandItems(value.items, spec, rank, bound))
    else if key == "properties" && value.Obj? then Obj(ExpandProperties(value.entries, spec, rank, bound))
    else if key == "items" then Expand(value, spec, rank, bound)
    else value
  }

  ghost function ExpandItems(items: seq<Json>, spec: Json, rank: map<string, nat>, bound: nat): seq<Json>
    requires Acyclic(spec, rank) && Below(ItemRefs(items), rank, bound)
    decreases bound, items
  {
    if items == [] then []
    else [Expand(items[0], spec, rank, bound)] + ExpandItems(items[1..], spec, rank, bound)
  }

  ghost function ExpandProperties(entries: seq<Entry>, spec: Json, rank: map<string, nat>, bound: nat): seq<Entry>
    requires Acyclic(spec, rank) && Below(PropertyRefs(entries), rank, bound)
    decreases bound, entries
  {
    if entries == [] then []
    else [Entry(entries[0].key, Expand(entries[0].value, spec, rank, bound))]
         + ExpandProperties(entries[1..], spec, rank, bound)
  }

  /** Followed references are never used again below: they rank at least `bound`. */
  ghost predicate Spent(seen: set<string>, rank: map<string, nat>, bound: nat) {
    forall s :: s in seen && s in rank ==> rank[s] >= bound
  }

  /** With local acyclic references the cycle guard never fires, so guarded inlining is plain inlining. */
  lemma {:induction false} InlineIsExpand(
    w: World, schema: Json, context: Context, seen: set<string>, known: set<string>, height: nat,
    rank: map<string, nat>, bound: nat)
    requires height > 0 && BoundedWorld(w, known, height)
    requires Bounded(schema, known, height) && Bounded(context.spec, known, height)
    requires Acyclic(context.spec, rank) && Below(SchemaRefs(schema), rank, bound) && Spent(seen, rank, bound)
    ensures Inline(w, schema, context, seen, known, height) == Expand(schema, context.spec, rank, bound)
    decreases bound, schema, 0
  {
    if schema.Obj? {
      var ref := Lookup(schema.entries, "$ref");
      if ref.None? {
        EntriesInlineIsExpand(w, schema.entries, context, seen, known, height, rank, bound);
      } else if Truthy(ref.value) && ref.value.Str? {
        var s := ref.value.s;
        assert s in SchemaRefs(schema);
        ResolveBounded(w, ref.value, context, seen, known, height);
        var r := Resolve(w, ref.value, context, seen);
        assert r == Resolved(Pointed(s, context.spec), context, seen + {s});
        if Truthy(r.node) {
          LookupBounded(schema.entries, "$ref", known, height);
          DropRefBounded(Target(s, context.spec), known, height);
          EntriesInlineIsExpand(w, Replacement(s, context.spec), context, seen + {s}, known, height, rank, rank[s]);
        }
      }
    }
  }

  lemma {:induction false} EntriesInlineIsExpand(
    w: World, entries: seq<Entry>, context: Context, seen: set<string>, known: set<string>, height: nat,
    rank: map<string, nat>, bound: nat)
    requires height > 0 && BoundedWorld(w, known, height)
    requires RefsInEntries(entries) <= known && HeightOfEntries(entries) <= height
    requires Bounded(context.spec, known, height)
    requires Acyclic(context.spec, rank) && Below(EntryRefs(entries), rank, bound) && Spent(seen, rank, bound)
    ensures InlineEntries(w, entries, context, seen, known, height) == ExpandEntries(entries, context.spec, rank, bound)
    decreases bound, entries
  {
    if entries != [] {
      ValueInlineIsExpand(w, entries[0].key, entries[0].value, context, seen, known, height, rank, bound);
      EntriesInlineIsExpand(w, entries[1..], context, seen, known, height, rank, bound);
    }
  }

  lemma {:induction false} ValueInlineIsExpand(
    w: World, key: string, value: Json, context: Context, seen: set<string>, known: set<string>, height: nat,
    rank: map<string, nat>, bound: nat)
    requires height > 0 && BoundedWorld(w, known, height)
    requires Bounded(value, known, height) && Bounded(context.spec, known, height)
    requires Acyclic(context.spec, rank) && Below(ValueRefs(key, value), rank, bound) && Spent(seen, rank, bound)
    ensures InlineValue(w, key, value, context, seen, known, height)
         == ExpandValue(key, value, context.spec, rank, bound)
    decreases bound, value, 1
  {
    if IsCombinator(key) && value.Arr? {
      ItemsInlineIsExpand(w, value.items, context, seen, known, height, rank, bound);
    } else if key == "properties" && value.Obj? {
      PropertiesInlineIsExpand(w, value.entries, context, seen, known, height, rank, bound);
    } else if key == "items" {
      InlineIsExpand(w, value, context, seen, known, height, rank, bound);
    }
  }

  lemma {:induction false} ItemsInlineIsExpand(
    w: World, items: seq<Json>, context: Context, seen: set<string>, known: set<string>, height: nat,
    rank: map<string, nat>, bound: nat)
    requires height > 0 && BoundedWorld(w, known, height)
    requires RefsInItems(items) <= known && HeightOfItems(items) <= height
    requires Bounded(context.spec, known, height)
    requires Acyclic(context.spec, rank) && Below(ItemRefs(items), rank, bound) && Spent(seen, rank, bound)
    ensures InlineItems(w, items, context, seen, known, height) == ExpandItems(items, context.spec, rank, bound)
    decreases bound, items
  {
    if items != [] {
      InlineIsExpand(w, items[0], context, seen, known, height, rank, bound);
      ItemsInlineIsExpand(w, items[1..], context, seen, known, height, rank, bound);
    }
  }

  lemma {:induction false} PropertiesInlineIsExpand(
    w: World, entries: seq<Entry>, context: Context, seen: set<string>, known: set<string>, height: nat,
    rank: map<string, nat>, bound: nat)
    requires height > 0 && BoundedWorld(w, known, height)
    requires RefsInEntries(entries) <= known && HeightOfEntries(entries) <= height
    requires Bounded(context.spec, known, height)
    requires Acyclic(context.spec, rank) && Below(PropertyRefs(entries), rank, bound) && Spent(seen, rank, bound)
    ensures InlineProperties(w, entries, context, seen, known, height)
         == ExpandProperties(entries, context.spec, rank, bound)
    decreases bound, entries
  {
    if entries != [] {
      InlineIsExpand(w, entries[0].value, context, seen, known, height, rank, bound);
      PropertiesInlineIsExpand(w, entries[1..], context, seen, known, height, rank, bound);
    }
  }

  /** In a document with local acyclic references the field list of a schema is that of the schema with every
      reference replaced, at every prefix and depth. */
  lemma PlainInliningKeepsFields(
    w: World, lim: Limits, schema: Json, context: Context, prefix: string, depth: nat, rank: map<string, nat>,
    bound: nat)
    requires Acyclic(context.spec, rank) && Below(SchemaRefs(schema), rank, bound)
    ensures Fields(w, lim, Expand(schema, context.spec, rank, bound), context, prefix, depth, {})
         == Fields(w, lim, schema, context, prefix, depth, {})
  {
    var known, height := EveryWorldIsBounded(w, schema, context.spec);
    InlineIsExpand(w, schema, context, {}, known, height, rank, bound);
    InliningKeepsFields(w, lim, schema, context, prefix, depth, {}, known, height, context, {});
  }

  /** A target without a reference of its own takes the place of a reference as it stands. */
  lemma PlainTargetReplaces(s: string, spec: Json)
    requires !Has(Target(s, spec), "$ref")
    ensures Replacement(s, spec) == Target(s, spec)
  {
    DropRefIdentity(Target(s, spec));
  }
}
