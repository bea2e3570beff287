/** The cycle guard alone ends both walks: the walkers without their depth limits, on any finite and
    possibly cyclic set of documents. */
module GuardedWalk {
  import opened Json
  import opened Refs
  import opened FieldWalk

  // ---------------------------------------------------------------- field names without depth limits

  /** `_extract_fields` with both depth tests removed. It ends because each step either follows a reference
      that is new on the branch or moves into a part of the current schema. */
  ghost function FieldsFree(
    w: World, schema: Json, context: Context, prefix: string, seen: set<string>, known: set<string>,
    height: nat): FieldList
    requires height > 0 && BoundedWorld(w, known, height)
    requires Bounded(schema, known, height) && Bounded(context.spec, known, height)
    decreases known - seen, schema, 0
  {
    if !Truthy(schema) then Names([])
    else if !schema.Obj? then Raises
    else
      var ref := Lookup(schema.entries, "$ref");
      if ref.None? then FreeOf(w, schema.entries, context, prefix, seen, known, height)
      else
        LookupBounded(schema.entries, "$ref", known, height);
        ResolveBounded(w, ref.value, context, seen, known, height);
        ResolveGrows(w, ref.value, context, seen);
        match Resolve(w, ref.value, context, seen)
        case Crash => Raises
        case Resolved(node, target, followed) =>
          if !Truthy(node) then Names([])
          else
            assert ref.value.s in known - seen;
            FreeOf(w, node.entries, target, prefix, followed, known, height)
  }

  ghost function FreeOf(
    w: World, entries: seq<Entry>, context: Context, prefix: string, seen: set<string>, known: set<string>,
    height: nat): FieldList
    requires height > 0 && BoundedWorld(w, known, height)
    requires RefsInEntries(entries) <= known && HeightOfEntries(entries) <= height
    requires Bounded(context.spec, known, height)
    decreases known - seen, entries, 0
  {
    var combined, properties, items := Combinator(entries), Lookup(entries, "properties"), Lookup(entries, "items");
    CombinatorBounded(entries, known, height);
    if combined.Some? then
      if combined.value.Arr? then FreeItems(w, combined.value.items, context, prefix, seen, known, height)
      else if !Iterable(combined.value) || YieldsText(combined.value) then Raises
      else Names([])
    else if IsObjectSchema(entries) then
      if properties.None? then Names([])
      else
        LookupBounded(entries, "properties", known, height);
        if !properties.value.Obj? then Raises
        else FreeProperties(w, properties.value.entries, context, prefix, seen, known, height)
    else if IsArraySchema(entries) && items.Some? then
      LookupBounded(entries, "items", known, height);
      FieldsFree(w, items.value, context, prefix, seen, known, height)
    else Names([])
  }

  ghost function FreeItems(
    w: World, items: seq<Json>, context: Context, prefix: string, seen: set<string>, known: set<string>,
    height: nat): FieldList
    requires height > 0 && BoundedWorld(w, known, height)
    requires RefsInItems(items) <= known && HeightOfItems(items) <= height
    requires Bounded(context.spec, known, height)
    decreases known - seen, items, 0
  {
    if items == [] then Names([])
    else
      var n := |items| - 1;
      ItemsBounded(items, n, known, height);
      Plus(FreeItems(w, items[..n], context, prefix, seen, known, height),
           FieldsFree(w, items[n], context, prefix, seen, known, height))
  }

  ghost function FreeProperties(
    w: World, entries: seq<Entry>, context: Context, prefix: string, seen: set<string>, known: set<string>,
    height: nat): FieldList
    requires height > 0 && BoundedWorld(w, known, height)
    requires RefsInEntries(entries) <= known && HeightOfEntries(entries) <= height
    requires Bounded(context.spec, known, height)
    decreases known - seen, entries, 0
  {
    if entries == [] then Names([])
    else
      var n := |entries| - 1;
      EntriesBounded(entries, n, known, height);
      var full := Dotted(prefix, entries[n].key);
      Plus(FreeProperties(w, entries[..n], context, prefix, seen, known, height),
           Plus(Names([full]), FieldsFree(w, entries[n].value, context, full, seen, known, height)))
  }

  lemma CombinatorBounded(entries: seq<Entry>, known: set<string>, height: nat)
    requires RefsInEntries(entries) <= known && HeightOfEntries(entries) <= height
    ensures Combinator(entries).Some? ==>
      Bounded(Combinator(entries).value, known, height)
      && exists key :: Entry(key, Combinator(entries).value) in entries
  {
    if Has(entries, "allOf") {
      LookupBounded(entries, "allOf", known, height);
    } else if Has(entries, "oneOf") {
      LookupBounded(entries, "oneOf", known, height);
    } else if Has(entries, "anyOf") {
      LookupBounded(entries, "anyOf", known, height);
    }
  }

  lemma {:induction false} ItemsBounded(items: seq<Json>, n: nat, known: set<string>, height: nat)
    requires |items| == n + 1 && RefsInItems(items) <= known && HeightOfItems(items) <= height
    ensures RefsInItems(items[..n]) <= known && HeightOfItems(items[..n]) <= height && Bounded(items[n], known, height)
    decreases n
  {
    if n > 0 {
      ItemsBounded(items[1..], n - 1, known, height);
      assert items[1..][..n - 1] == items[..n][1..];
    }
  }

  lemma {:induction false} EntriesBounded(entries: seq<Entry>, n: nat, known: set<string>, height: nat)
    requires |entries| == n + 1 && RefsInEntries(entries) <= known && HeightOfEntries(entries) <= height
    ensures RefsInEntries(entries[..n]) <= known && HeightOfEntries(entries[..n]) <= height
    ensures Bounded(entries[n].value, known, height)
    decreases n
  {
    if n > 0 {
      EntriesBounded(entries[1..], n - 1, known, height);
      assert entries[1..][..n - 1] == entries[..n][1..];
    }
  }

  // ---------------------------------------------------------------- the limits become irrelevant

  /** How deep a branch can still go by following references: each unseen one can lead into a whole document. */
  ghost function Budget(seen: set<string>, known: set<string>, height: nat): nat {
    |known - seen| * (height + 1)
  }

  lemma BudgetDrops(s: string, seen: set<string>, known: set<string>, height: nat)
    requires s in known && s !in seen
    ensures Budget(seen + {s}, known, height) + height + 1 <= Budget(seen, known, height)
  {
    var less, more := known - (seen + {s}), known - seen;
    assert more == less + {s};
    assert |more| == |less| + 1;
    assert |more| * (height + 1) == |less| * (height + 1) + (height + 1);
  }

  /** No branch from `depth` can reach either limit. */
  ghost predicate Ample(lim: Limits, depth: nat, need: nat) {
    depth + need <= lim.maxDepth && depth + need <= lim.nestDepth
  }

  lemma {:induction false} LimitsUnreached(
    w: World, lim: Limits, schema: Json, context: Context, prefix: string, depth: nat, seen: set<string>,
    known: set<string>, height: nat)
    requires height > 0 && BoundedWorld(w, known, height)
    requires Bounded(schema, known, height) && Bounded(context.spec, known, height)
    requires Ample(lim, depth, Budget(seen, known, height) + Height(schema))
    ensures Fields(w, lim, schema, context, prefix, depth, seen)
         == FieldsFree(w, schema, context, prefix, seen, known, height)
    decreases known - seen, schema, 0
  {
    hide Budget, Resolve, FieldsOf, FreeOf, BoundedWorld;
    if schema.Obj? && Truthy(schema) {
      var ref := Lookup(schema.entries, "$ref");
      if ref.None? {
        LimitsUnreachedOf(w, lim, schema.entries, context, prefix, depth, seen, known, height);
      } else {
        LookupBounded(schema.entries, "$ref", known, height);
        ResolveBounded(w, ref.value, context, seen, known, height);
        ResolveGrows(w, ref.value, context, seen);
        var r := Resolve(w, ref.value, context, seen);
        if r.Resolved? && Truthy(r.node) {
          assert ref.value.s in known - seen;
          BudgetDrops(ref.value.s, seen, known, height);
          LimitsUnreachedOf(w, lim, r.node.entries, r.context, prefix, depth, r.seen, known, height);
        }
      }
    }
  }

  lemma {:induction false} LimitsUnreachedOf(
    w: World, lim: Limits, entries: seq<Entry>, context: Context, prefix: string, depth: nat, seen: set<string>,
    known: set<string>, height: nat)
    requires height > 0 && BoundedWorld(w, known, height)
    requires RefsInEntries(entries) <= known && HeightOfEntries(entries) <= height
    requires Bounded(context.spec, known, height)
    requires Ample(lim, depth, Budget(seen, known, height) + HeightOfEntries(entries) + 1)
    ensures FieldsOf(w, lim, entries, context, prefix, depth, seen)
         == FreeOf(w, entries, context, prefix, seen, known, height)
    decreases known - seen, entries, 0
  {
    hide Budget, Resolve, BoundedWorld;
    var own := HeightOfEntries(entries);
    CombinatorBounded(entries, known, own);
    var combined, properties, items := Combinator(entries), Lookup(entries, "properties"), Lookup(entries, "items");
    if combined.Some? {
      if combined.value.Arr? {
        LimitsUnreachedItems(w, lim, combined.value.items, context, prefix, depth + 1, seen, known, height);
      }
    } else if IsObjectSchema(entries) {
      if properties.Some? {
        LookupBounded(entries, "properties", known, own);
        if properties.value.Obj? {
          LimitsUnreachedProperties(w, lim, properties.value.entries, context, prefix, depth, seen, known, height);
        }
      }
    } else if IsArraySchema(entries) && items.Some? {
      LookupBounded(entries, "items", known, own);
      LimitsUnreached(w, lim, items.value, context, prefix, depth + 1, seen, known, height);
    }
  }

  lemma {:induction false} LimitsUnreachedItems(
    w: World, lim: Limits, items: seq<Json>, context: Context, prefix: string, depth: nat, seen: set<string>,
    known: set<string>, height: nat)
    requires height > 0 && BoundedWorld(w, known, height)
    requires RefsInItems(items) <= known && HeightOfItems(items) <= height
    requires Bounded(context.spec, known, height)
    requires Ample(lim, depth, Budget(seen, known, height) + HeightOfItems(items))
    ensures FieldsOfItems(w, lim, items, context, prefix, depth, seen)
         == FreeItems(w, items, context, prefix, seen, known, height)
    decreases known - seen, items, 0
  {
    if items != [] {
      var n := |items| - 1;
      ItemsBounded(items, n, known, HeightOfItems(items));
      LimitsUnreachedItems(w, lim, items[..n], context, prefix, depth, seen, known, height);
      LimitsUnreached(w, lim, items[n], context, prefix, depth, seen, known, height);
    }
  }

  lemma {:induction false} LimitsUnreachedProperties(
    w: World, lim: Limits, entries: seq<Entry>, context: Context, prefix: string, depth: nat, seen: set<string>,
    known: set<string>, height: nat)
    requires height > 0 && BoundedWorld(w, known, height)
    requires RefsInEntries(entries) <= known && HeightOfEntries(entries) <= height
    requires Bounded(context.spec, known, height)
    requires Ample(lim, depth, Budget(seen, known, height) + HeightOfEntries(entries) + 1)
    ensures FieldsOfProperties(w, lim, entries, context, prefix, depth, seen)
         == FreeProperties(w, entries, context, prefix, seen, known, height)
    decreases known - seen, entries, 0
  {
    if entries != [] {
      var n := |entries| - 1;
      EntriesBounded(entries, n, known, HeightOfEntries(entries));
      LimitsUnreachedProperties(w, lim, entries[..n], context, prefix, depth, seen, known, height);
      LimitsUnreached(w, lim, entries[n].value, context, Dotted(prefix, entries[n].key), depth + 1, seen, known,
                      height);
    }
  }

  /** Field extraction with limits of at least |references| * (height + 1) + height of the schema is
      extraction without limits: larger limits can change nothing. */
  lemma GuardAloneEndsFields(
    w: World, lim: Limits, schema: Json, context: Context, prefix: string, known: set<string>, height: nat)
    requires height > 0 && BoundedWorld(w, known, height)
    requires Bounded(schema, known, height) && Bounded(context.spec, known, height)
    requires lim.maxDepth >= |known| * (height + 1) + Height(schema)
        && lim.nestDepth >= |known| * (height + 1) + Height(schema)
    ensures Fields(w, lim, schema, context, prefix, 0, {}) == FieldsFree(w, schema, context, prefix, {}, known, height)
  {
    assert known - {} == known;
    LimitsUnreached(w, lim, schema, context, prefix, 0, {}, known, height);
  }
}
