/** The cycle guard alone ends example generation too, combinators included. */
module GuardedExample {
  import opened Json
  import opened Refs
  import opened FieldWalk
  import opened ExampleWalk
  import opened GuardedWalk

  /** `_schema_to_example` without its depth test. */
  ghost function ExampleFree(
    w: World, schema: Json, context: Context, seen: set<string>, known: set<string>, height: nat): Example
    requires height > 0 && BoundedWorld(w, known, height)
    requires Bounded(schema, known, height) && Bounded(context.spec, known, height)
    decreases known - seen, schema, 0
  {
    if !Truthy(schema) then Value(Null)
    else if !schema.Obj? then Fails
    else
      var ref := Lookup(schema.entries, "$ref");
      if ref.None? then FreeExampleOf(w, schema.entries, context, seen, known, height)
      else
        LookupBounded(schema.entries, "$ref", known, height);
        ResolveBounded(w, ref.value, context, seen, known, height);
        ResolveGrows(w, ref.value, context, seen);
        match Resolve(w, ref.value, context, seen)
        case Crash => Fails
        case Resolved(node, target, followed) =>
          if !Truthy(node) then Value(Null)
          else
            assert ref.value.s in known - seen;
            FreeExampleOf(w, node.entries, target, followed, known, height)
  }

  ghost function FreeExampleOf(
    w: World, entries: seq<Entry>, context: Context, seen: set<string>, known: set<string>, height: nat): Example
    requires height > 0 && BoundedWorld(w, known, height)
    requires RefsInEntries(entries) <= known && HeightOfEntries(entries) <= height
    requires Bounded(context.spec, known, height)
    decreases known - seen, entries, 1
  {
    var given, combined := Lookup(entries, "example"), Combinator(entries);
    var properties, items := Lookup(entries, "properties"), Lookup(entries, "items");
    CombinatorBounded(entries, known, height);
    if given.Some? then Value(given.value)
    else if combined.Some? then
      if combined.value.Arr? then
        FreeFinish(w, FreeMembers(w, combined.value.items, context, seen, known, height), entries, context, seen,
                   known, height)
      else if !Iterable(combined.value) || YieldsText(combined.value) then Fails
      else FreeFinish(w, Collected([]), entries, context, seen, known, height)
    else if IsObjectSchema(entries) then
      if properties.None? then Value(EMPTY_OBJECT)
      else
        LookupBounded(entries, "properties", known, height);
        if properties.value.Obj? then FreeObject(w, properties.value.entries, context, seen, known, height) else Fails
    else if IsArraySchema(entries) then
      if items.None? then Wrapped(Value(Null))
      else
        LookupBounded(entries, "items", known, height);
        Wrapped(ExampleFree(w, items.value, context, seen, known, height))
    else DefaultFor(Get(entries, "type", Str("")))
  }

  ghost function FreeMembers(
    w: World, items: seq<Json>, context: Context, seen: set<string>, known: set<string>, height: nat): Merge
    requires height > 0 && BoundedWorld(w, known, height)
    requires RefsInItems(items) <= known && HeightOfItems(items) <= height
    requires Bounded(context.spec, known, height)
    decreases known - seen, items, 0
  {
    if items == [] then Collected([])
    else
      var n := |items| - 1;
      ItemsBounded(items, n, known, height);
      var before := FreeMembers(w, items[..n], context, seen, known, height);
      if !before.Collected? then before
      else Merged(before.entries, FreeMember(w, items[n], context, seen, known, height))
  }

  ghost function FreeMember(
    w: World, member: Json, context: Context, seen: set<string>, known: set<string>, height: nat): Example
    requires height > 0 && BoundedWorld(w, known, height)
    requires Bounded(member, known, height) && Bounded(context.spec, known, height)
    decreases known - seen, member, 1
  {
    if member.Obj? && Has(member.entries, "$ref") then
      var ref := Lookup(member.entries, "$ref");
      LookupBounded(member.entries, "$ref", known, height);
      ResolveBounded(w, ref.value, context, seen, known, height);
      ResolveGrows(w, ref.value, context, seen);
      match Resolve(w, ref.value, context, seen)
      case Crash => Fails
      case Resolved(node, target, followed) =>
        if !Truthy(node) then Value(Null)
        else
          assert ref.value.s in known - seen;
          ExampleFree(w, node, target, followed, known, height)
    else ExampleFree(w, member, context, seen, known, height)
  }

  ghost function FreeFinish(
    w: World, members: Merge, entries: seq<Entry>, context: Context, seen: set<string>, known: set<string>,
    height: nat): Example
    requires height > 0 && BoundedWorld(w, known, height)
    requires RefsInEntries(entries) <= known && HeightOfEntries(entries) <= height
    requires Bounded(context.spec, known, height)
    decreases known - seen, entries, 0
  {
    match members
    case Broken => Fails
    case Returned(v) => Value(v)
    case Collected(merged) =>
      var properties := Lookup(entries, "properties");
      if properties.None? then (if merged == [] then Value(Null) else Value(Obj(merged)))
      else
        LookupBounded(entries, "properties", known, height);
        if !properties.value.Obj? then Fails
        else
          match FreeAdd(w, merged, properties.value.entries, context, seen, known, height)
          case Collected(all) => if all == [] then Value(Null) else Value(Obj(all))
          case _ => Fails
  }

  ghost function FreeAdd(
    w: World, merged: seq<Entry>, entries: seq<Entry>, context: Context, seen: set<string>, known: set<string>,
    height: nat): Merge
    requires height > 0 && BoundedWorld(w, known, height)
    requires RefsInEntries(entries) <= known && HeightOfEntries(entries) <= height
    requires Bounded(context.spec, known, height)
    decreases known - seen, entries, 0
  {
    if entries == [] then Collected(merged)
    else
      var n := |entries| - 1;
      EntriesBounded(entries, n, known, height);
      var before := FreeAdd(w, merged, entries[..n], context, seen, known, height);
      if !before.Collected? || Has(before.entries, entries[n].key) then before
      else
        var val := ExampleFree(w, entries[n].value, context, seen, known, height);
        if val.Fails? then Broken
        else if val.v == Null then before
        else Collected(Put(before.entries, entries[n].key, val.v))
  }

  ghost function FreeObject(
    w: World, entries: seq<Entry>, context: Context, seen: set<string>, known: set<string>, height: nat): Example
    requires height > 0 && BoundedWorld(w, known, height)
    requires RefsInEntries(entries) <= known && HeightOfEntries(entries) <= height
    requires Bounded(context.spec, known, height)
    decreases known - seen, entries, 0
  {
    if entries == [] then Value(EMPTY_OBJECT)
    else
      var n := |entries| - 1;
      EntriesBounded(entries, n, known, height);
      var before := FreeObject(w, entries[..n], context, seen, known, height);
      var made := ExampleFree(w, entries[n].value, context, seen, known, height);
      var val := if made == Value(Null) then Placeholder(entries[n].value) else made;
      if before.Fails? || val.Fails? || !before.v.Obj? then Fails
      else Value(Obj(Put(before.v.entries, entries[n].key, val.v)))
  }

  // ---------------------------------------------------------------- the limit becomes irrelevant

  lemma {:induction false} LimitUnreached(
    w: World, max: nat, schema: Json, context: Context, depth: nat, seen: set<string>, known: set<string>, height: nat)
    requires height > 0 && BoundedWorld(w, known, height)
    requires Bounded(schema, known, height) && Bounded(context.spec, known, height)
    requires depth + Budget(seen, known, height) + Height(schema) <= max
    ensures ExampleFor(w, max, schema, context, depth, seen) == ExampleFree(w, schema, context, seen, known, height)
    decreases known - seen, schema, 0
  {
    hide Budget, Resolve, ExampleOf, FreeExampleOf, BoundedWorld;
    if schema.Obj? && Truthy(schema) {
      var ref := Lookup(schema.entries, "$ref");
      if ref.None? {
        LimitUnreachedOf(w, max, schema.entries, context, depth, seen, known, height);
      } else {
        LookupBounded(schema.entries, "$ref", known, height);
        ResolveBounded(w, ref.value, context, seen, known, height);
        ResolveGrows(w, ref.value, context, seen);
        var r := Resolve(w, ref.value, context, seen);
        if r.Resolved? && Truthy(r.node) {
          assert ref.value.s in known - seen;
          BudgetDrops(ref.value.s, seen, known, height);
          LimitUnreachedOf(w, max, r.node.entries, r.context, depth, r.seen, known, height);
        }
      }
    }
  }

  lemma {:induction false} LimitUnreachedOf(
    w: World, max: nat, entries: seq<Entry>, context: Context, depth: nat, seen: set<string>, known: set<string>,
    height: nat)
    requires height > 0 && BoundedWorld(w, known, height)
    requires RefsInEntries(entries) <= known && HeightOfEntries(entries) <= height
    requires Bounded(context.spec, known, height)
    requires depth + Budget(seen, known, height) + HeightOfEntries(entries) + 1 <= max
    ensures ExampleOf(w, max, entries, context, depth, seen) == FreeExampleOf(w, entries, context, seen, known, height)
    decreases known - seen, entries, 1
  {
    hide Budget, Resolve, ExampleFor, ExampleFree, CombineItems, FreeMembers, ObjectExample, FreeObject, Finish,
        FreeFinish,
         BoundedWorld, Lookup, RefsInEntries, DefaultFor;
    var own := HeightOfEntries(entries);
    CombinatorBounded(entries, known, own);
    var combined, properties, items := Combinator(entries), Lookup(entries, "properties"), Lookup(entries, "items");
    if Lookup(entries, "example").Some? {
    } else if combined.Some? {
      if combined.value.Arr? {
        MembersUnreached(w, max, combined.value.items, context, depth, seen, known, height);
        FinishUnreached(w, max, CombineItems(w, max, combined.value.items, context, depth, seen), entries, context,
                        depth,
                        seen, known, height);
      } else {
        FinishUnreached(w, max, Collected([]), entries, context, depth, seen, known, height);
      }
    } else if IsObjectSchema(entries) {
      if properties.Some? {
        LookupBounded(entries, "properties", known, own);
        if properties.value.Obj? {
          ObjectUnreached(w, max, properties.value.entries, context, depth, seen, known, height);
        }
      } else {
        NoProperties(w, max, context, depth, seen);
      }
    } else if IsArraySchema(entries) {
      if items.Some? {
        LookupBounded(entries, "items", known, own);
        LimitUnreached(w, max, items.value, context, depth + 1, seen, known, height);
      } else {
        NoProperties(w, max, context, depth, seen);
      }
    }
  }

  lemma NoProperties(w: World, max: nat, context: Context, depth: nat, seen: set<string>)
    requires depth <= max
    ensures ObjectExample(w, max, [], context, depth, seen) == Value(EMPTY_OBJECT)
    ensures ExampleFor(w, max, EMPTY_OBJECT, context, depth + 1, seen) == Value(Null)
  {
  }

  lemma {:induction false} MembersUnreached(
    w: World, max: nat, items: seq<Json>, context: Context, depth: nat, seen: set<string>, known: set<string>,
    height: nat)
    requires height > 0 && BoundedWorld(w, known, height)
    requires RefsInItems(items) <= known && HeightOfItems(items) <= height
    requires Bounded(context.spec, known, height)
    requires depth + 1 + Budget(seen, known, height) + HeightOfItems(items) <= max
    ensures CombineItems(w, max, items, context, depth, seen) == FreeMembers(w, items, context, seen, known, height)
    decreases known - seen, items, 0
  {
    hide Budget, MemberExample, FreeMember, BoundedWorld, Merged;
    if items != [] {
      var n := |items| - 1;
      ItemsBounded(items, n, known, HeightOfItems(items));
      MembersUnreached(w, max, items[..n], context, depth, seen, known, height);
      MemberUnreached(w, max, items[n], context, depth, seen, known, height);
    }
  }

  lemma {:induction false} MemberUnreached(
    w: World, max: nat, member: Json, context: Context, depth: nat, seen: set<string>, known: set<string>, height: nat)
    requires height > 0 && BoundedWorld(w, known, height)
    requires Bounded(member, known, height) && Bounded(context.spec, known, height)
    requires depth + 1 + Budget(seen, known, height) + Height(member) <= max
    ensures MemberExample(w, max, member, context, depth, seen) == FreeMember(w, member, context, seen, known, height)
    decreases known - seen, member, 1
  {
    hide Budget, Resolve, ExampleFor, ExampleFree, BoundedWorld;
    if member.Obj? && Has(member.entries, "$ref") {
      var ref := Lookup(member.entries, "$ref");
      LookupBounded(member.entries, "$ref", known, height);
      ResolveBounded(w, ref.value, context, seen, known, height);
      ResolveGrows(w, ref.value, context, seen);
      var r := Resolve(w, ref.value, context, seen);
      if r.Resolved? && Truthy(r.node) {
        assert ref.value.s in known - seen;
        BudgetDrops(ref.value.s, seen, known, height);
        LimitUnreached(w, max, r.node, r.context, depth + 1, r.seen, known, height);
      }
    } else {
      LimitUnreached(w, max, member, context, depth + 1, seen, known, height);
    }
  }

  lemma {:induction false} FinishUnreached(
    w: World, max: nat, members: Merge, entries: seq<Entry>, context: Context, depth: nat, seen: set<string>,
    known: set<string>, height: nat)
    requires height > 0 && BoundedWorld(w, known, height)
    requires RefsInEntries(entries) <= known && HeightOfEntries(entries) <= height
    requires Bounded(context.spec, known, height)
    requires depth + Budget(seen, known, height) + HeightOfEntries(entries) + 1 <= max
    ensures Finish(w, max, members, entries, context, depth, seen)
         == FreeFinish(w, members, entries, context, seen, known, height)
    decreases known - seen, entries, 0
  {
    hide Budget, BoundedWorld, Lookup, RefsInEntries, FreeAdd;
    var properties := Lookup(entries, "properties");
    if members.Collected? {
      if properties.Some? {
        LookupBounded(entries, "properties", known, HeightOfEntries(entries));
        if properties.value.Obj? {
          AddUnreached(w, max, members.entries, properties.value.entries, context, depth, seen, known, height);
        }
      } else {
        assert AddProperties(w, max, members.entries, [], context, depth, seen) == Collected(members.entries);
      }
    }
  }

  lemma {:induction false} AddUnreached(
    w: World, max: nat, merged: seq<Entry>, entries: seq<Entry>, context: Context, depth: nat, seen: set<string>,
    known: set<string>, height: nat)
    requires height > 0 && BoundedWorld(w, known, height)
    requires RefsInEntries(entries) <= known && HeightOfEntries(entries) <= height
    requires Bounded(context.spec, known, height)
    requires depth + Budget(seen, known, height) + HeightOfEntries(entries) + 1 <= max
    ensures AddProperties(w, max, merged, entries, context, depth, seen)
         == FreeAdd(w, merged, entries, context, seen, known, height)
    decreases known - seen, entries, 0
  {
    hide Budget, BoundedWorld, Put, Lookup, ExampleFor, ExampleFree;
    if entries != [] {
      var n := |entries| - 1;
      EntriesBounded(entries, n, known, HeightOfEntries(entries));
      AddUnreached(w, max, merged, entries[..n], context, depth, seen, known, height);
      LimitUnreached(w, max, entries[n].value, context, depth + 1, seen, known, height);
    }
  }

  lemma {:induction false} ObjectUnreached(
    w: World, max: nat, entries: seq<Entry>, context: Context, depth: nat, seen: set<string>, known: set<string>,
    height: nat)
    requires height > 0 && BoundedWorld(w, known, height)
    requires RefsInEntries(entries) <= known && HeightOfEntries(entries) <= height
    requires Bounded(context.spec, known, height)
    requires depth + Budget(seen, known, height) + HeightOfEntries(entries) + 1 <= max
    ensures ObjectExample(w, max, entries, context, depth, seen) == FreeObject(w, entries, context, seen, known, height)
    decreases known - seen, entries, 0
  {
    hide Budget, BoundedWorld, Put, Placeholder, ExampleFor, ExampleFree;
    if entries != [] {
      var n := |entries| - 1;
      EntriesBounded(entries, n, known, HeightOfEntries(entries));
      ObjectUnreached(w, max, entries[..n], context, depth, seen, known, height);
      LimitUnreached(w, max, entries[n].value, context, depth + 1, seen, known, height);
    }
  }

  /** Example generation with a limit of at least |references| * (height + 1) + height of the schema is
      generation without a limit. */
  lemma GuardAloneEndsExamples(w: World, max: nat, schema: Json, context: Context, known: set<string>, height: nat)
    requires height > 0 && BoundedWorld(w, known, height)
    requires Bounded(schema, known, height) && Bounded(context.spec, known, height)
    requires max >= |known| * (height + 1) + Height(schema)
    ensures ExampleFor(w, max, schema, context, 0, {}) == ExampleFree(w, schema, context, {}, known, height)
  {
    assert known - {} == known;
    LimitUnreached(w, max, schema, context, 0, {}, known, height);
  }
}
