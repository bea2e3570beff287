/** Which fields are listed, said without the walk (bank_api_parser/parsers/base_parser.py). */
module FieldListing {
  import opened Common
  import opened Text
  import opened Json
  import opened Refs
  import opened FieldWalk

  /** Steps that may still be taken. */
  function Steps(depth: nat): nat {
    if depth > 4 then 0 else 5 - depth
  }

  /** The key of the combinator that counts: the first of these that the schema has. */
  function CombinatorKey(entries: seq<Entry>): string {
    if Has(entries, "allOf") then "allOf" else if Has(entries, "oneOf") then "oneOf" else "anyOf"
  }

  /** `path` leads from a schema over property names to a field: through references, members of the first
      combinator and array items at the price of a level each but the reference, not beyond level 4, and below
      properties not beyond level 2. */
  ghost predicate Listed(w: World, schema: Json, context: Context, path: seq<string>, depth: nat, seen: set<string>)
    decreases Steps(depth), 1
  {
    depth <= 4 && schema.Obj?
    && match Lookup(schema.entries, "$ref")
       case None => ListedOf(w, schema.entries, context, path, depth, seen)
       case Some(ref) =>
         match Resolve(w, ref, context, seen)
         case Crash => false
         case Resolved(node, target, followed) => node.Obj? && ListedOf(w, node.entries, target, path, depth, followed)
  }

  ghost predicate ListedOf(
    w: World, entries: seq<Entry>, context: Context, path: seq<string>, depth: nat, seen: set<string>)
    requires depth <= 4
    decreases Steps(depth), 0
  {
    if Has(entries, "allOf") || Has(entries, "oneOf") || Has(entries, "anyOf") then
      match Lookup(entries, CombinatorKey(entries))
      case Some(Arr(items)) =>
        exists i :: 0 <= i < |items| && Listed(w, items[i], context, path, depth + 1, seen)
      case _ => false
    else if Has(entries, "properties") || Lookup(entries, "type") == Some(Str("object")) then
      match Lookup(entries, "properties")
      case Some(Obj(properties)) =>
        path != []
        && exists i ::
          && 0 <= i < |properties| && properties[i].key == path[0]
          && (|path| == 1
              || (depth < 2 && Listed(w, properties[i].value, context, path[1..], depth + 1, seen)))
      case _ => false
    else
      match Lookup(entries, "items")
      case Some(items) => Listed(w, items, context, path, depth + 1, seen)
      case None => false
  }

  /** `q` is `prefix` and then a listed path. */
  ghost predicate ListedAfter(
    w: World, schema: Json, context: Context, prefix: seq<string>, q: seq<string>, depth: nat, seen: set<string>)
  {
    |prefix| <= |q| && q[..|prefix|] == prefix && Listed(w, schema, context, q[|prefix|..], depth, seen)
  }

  ghost predicate ListedOfAfter(
    w: World, entries: seq<Entry>, context: Context, prefix: seq<string>, q: seq<string>, depth: nat, seen: set<string>)
    requires depth <= 4
  {
    |prefix| <= |q| && q[..|prefix|] == prefix && ListedOf(w, entries, context, q[|prefix|..], depth, seen)
  }

  lemma {:induction false} NothingAtOnce(w: World, schema: Json, context: Context, depth: nat, seen: set<string>)
    ensures !Listed(w, schema, context, [], depth, seen)
    decreases Steps(depth), 1
  {
    hide Resolve;
    if depth <= 4 && schema.Obj? {
      var ref := Lookup(schema.entries, "$ref");
      if ref.None? {
        NothingAtOnceOf(w, schema.entries, context, depth, seen);
      } else {
        var r := Resolve(w, ref.value, context, seen);
        if r.Resolved? && r.node.Obj? {
          NothingAtOnceOf(w, r.node.entries, r.context, depth, r.seen);
        }
      }
    }
  }

  lemma {:induction false} NothingAtOnceOf(
    w: World, entries: seq<Entry>, context: Context, depth: nat, seen: set<string>)
    requires depth <= 4
    ensures !ListedOf(w, entries, context, [], depth, seen)
    decreases Steps(depth), 0
  {
    hide Listed, Lookup;
    var combined := Lookup(entries, CombinatorKey(entries));
    if combined.Some? && combined.value.Arr? {
      forall i | 0 <= i < |combined.value.items|
        ensures !Listed(w, combined.value.items[i], context, [], depth + 1, seen)
      {
        NothingAtOnce(w, combined.value.items[i], context, depth + 1, seen);
      }
    }
    var items := Lookup(entries, "items");
    if items.Some? {
      NothingAtOnce(w, items.value, context, depth + 1, seen);
    }
  }

  /** Wherever the walk does not raise, it lists exactly the listed paths, each after the prefix. */
  lemma {:induction false} WalkListsIff(
    w: World, schema: Json, context: Context, prefix: seq<string>, depth: nat, seen: set<string>, q: seq<string>)
    ensures var r := PathsIn(w, SOURCE_LIMITS, schema, context, prefix, depth, seen);
      r.Paths? ==> (q in r.paths <==> ListedAfter(w, schema, context, prefix, q, depth, seen))
    decreases Steps(depth), 2, 0
  {
    hide Resolve, PathsOf, ListedOf;
    if depth <= 4 && schema.Obj? {
      var ref := Lookup(schema.entries, "$ref");
      if ref.None? {
        WalkOfListsIff(w, schema.entries, context, prefix, depth, seen, q);
        if schema.entries == [] {
          NothingInNothing(w, context, q[if |prefix| <= |q| then |prefix| else 0..], depth, seen);
        }
      } else {
        var r := Resolve(w, ref.value, context, seen);
        if r.Resolved? && r.node.Obj? {
          WalkOfListsIff(w, r.node.entries, r.context, prefix, depth, r.seen, q);
          if r.node.entries == [] {
            NothingInNothing(w, r.context, q[if |prefix| <= |q| then |prefix| else 0..], depth, r.seen);
          }
        }
      }
    }
  }

  lemma NothingInNothing(w: World, context: Context, path: seq<string>, depth: nat, seen: set<string>)
    requires depth <= 4
    ensures !ListedOf(w, [], context, path, depth, seen)
  {
  }

  lemma {:induction false} WalkOfListsIff(
    w: World, entries: seq<Entry>, context: Context, prefix: seq<string>, depth: nat, seen: set<string>, q: seq<string>)
    requires depth <= 4
    ensures var r := PathsOf(w, SOURCE_LIMITS, entries, context, prefix, depth, seen);
      r.Paths? ==> (q in r.paths <==> ListedOfAfter(w, entries, context, prefix, q, depth, seen))
    decreases Steps(depth), 1, 0
  {
    hide PathsIn, PathsOfItems, PathsOfProperties, Listed, Lookup;
    var combined := Combinator(entries);
    var properties := Get(entries, "properties", EMPTY_OBJECT);
    if combined.Some? {
      if combined.value.Arr? {
        WalkOfItemsListsIff(w, combined.value.items, context, prefix, depth, seen, q);
      }
    } else if IsObjectSchema(entries) {
      if properties.Obj? {
        WalkOfPropertiesListsIff(w, properties.entries, context, prefix, depth, seen, q);
      }
    } else if IsArraySchema(entries) {
      WalkListsIff(w, Get(entries, "items", EMPTY_OBJECT), context, prefix, depth + 1, seen, q);
      NothingInEmptyObject(w, context, q[if |prefix| <= |q| then |prefix| else 0..], depth + 1, seen);
    }
  }

  lemma NothingInEmptyObject(w: World, context: Context, path: seq<string>, depth: nat, seen: set<string>)
    ensures !Listed(w, EMPTY_OBJECT, context, path, depth, seen)
  {
  }

  /** Some member lists the path. */
  ghost predicate ByItem(
    w: World, items: seq<Json>, context: Context, prefix: seq<string>, q: seq<string>, depth: nat, seen: set<string>)
  {
    exists i :: 0 <= i < |items| && ListedAfter(w, items[i], context, prefix, q, depth, seen)
  }

  lemma {:induction false} WalkOfItemsListsIff(
    w: World, items: seq<Json>, context: Context, prefix: seq<string>, depth: nat, seen: set<string>, q: seq<string>)
    requires depth <= 4
    ensures var r := PathsOfItems(w, SOURCE_LIMITS, items, context, prefix, depth + 1, seen);
      r.Paths? ==> (q in r.paths <==> ByItem(w, items, context, prefix, q, depth + 1, seen))
    decreases Steps(depth), 0, |items|
  {
    hide PathsIn, ListedAfter;
    if items != [] {
      var n := |items| - 1;
      WalkOfItemsListsIff(w, items[..n], context, prefix, depth, seen, q);
      WalkListsIff(w, items[n], context, prefix, depth + 1, seen, q);
      if ByItem(w, items[..n], context, prefix, q, depth + 1, seen) {
        var i :| 0 <= i < n && ListedAfter(w, items[..n][i], context, prefix, q, depth + 1, seen);
        assert ListedAfter(w, items[i], context, prefix, q, depth + 1, seen);
      }
      forall i | 0 <= i < n ensures items[..n][i] == items[i] {
      }
    }
  }

  /** `q` is `prefix` and a property, and then a path below it. */
  ghost predicate ByProperty(
    w: World, e: Entry, context: Context, prefix: seq<string>, q: seq<string>, depth: nat, seen: set<string>)
  {
    |prefix| < |q| && q[..|prefix|] == prefix && q[|prefix|] == e.key
    && (|q| == |prefix| + 1 || (depth < 2 && Listed(w, e.value, context, q[|prefix| + 1..], depth + 1, seen)))
  }

  lemma WalkOfPropertyListsIff(
    w: World, e: Entry, context: Context, prefix: seq<string>, depth: nat, seen: set<string>, q: seq<string>)
    requires depth <= 4
    ensures var r := PathsOfProperty(w, SOURCE_LIMITS, e, context, prefix, depth, seen);
      r.Paths? ==> (q in r.paths <==> ByProperty(w, e, context, prefix, q, depth, seen))
    decreases Steps(depth), 0, 0
  {
    hide PathsIn, Listed;
    var full := prefix + [e.key];
    if depth < 2 {
      WalkListsIff(w, e.value, context, full, depth + 1, seen, q);
      NothingAtOnce(w, e.value, context, depth + 1, seen);
    }
    if |q| > |prefix| {
      assert q[..|full|] == q[..|prefix|] + [q[|prefix|]];
    }
    if |q| == |full| {
      assert q[..|full|] == q && q[|full|..] == [];
    }
  }

  ghost predicate BySome(
    w: World, entries: seq<Entry>, context: Context, prefix: seq<string>, q: seq<string>, depth: nat, seen: set<string>)
  {
    exists i :: 0 <= i < |entries| && ByProperty(w, entries[i], context, prefix, q, depth, seen)
  }

  lemma {:induction false} WalkOfPropertiesListsIff(
    w: World, entries: seq<Entry>, context: Context, prefix: seq<string>, depth: nat, seen: set<string>, q: seq<string>)
    requires depth <= 4
    ensures var r := PathsOfProperties(w, SOURCE_LIMITS, entries, context, prefix, depth, seen);
      r.Paths? ==> (q in r.paths <==> BySome(w, entries, context, prefix, q, depth, seen))
    decreases Steps(depth), 0, |entries| + 1
  {
    hide PathsIn, PathsOfProperty, ByProperty;
    if entries != [] {
      var n := |entries| - 1;
      WalkOfPropertiesListsIff(w, entries[..n], context, prefix, depth, seen, q);
      WalkOfPropertyListsIff(w, entries[n], context, prefix, depth, seen, q);
      if BySome(w, entries[..n], context, prefix, q, depth, seen) {
        var i :| 0 <= i < n && ByProperty(w, entries[..n][i], context, prefix, q, depth, seen);
        assert ByProperty(w, entries[i], context, prefix, q, depth, seen);
      }
      forall i | 0 <= i < n ensures entries[..n][i] == entries[i] {
      }
    }
  }

  /** A top-level call that does not raise lists a name exactly when some listed path reads like it. */
  lemma TopLevelIff(w: World, schema: Json, context: Context, name: string)
    requires Fields(w, SOURCE_LIMITS, schema, context, "", 0, {}).Names?
    ensures name in Fields(w, SOURCE_LIMITS, schema, context, "", 0, {}).names
       <==> exists path :: NameOf(path) == name && Listed(w, schema, context, path, 0, {})
  {
    hide Fields, PathsIn, Listed, NameOf;
    var r := PathsIn(w, SOURCE_LIMITS, schema, context, [], 0, {});
    EmptyName();
    FieldsArePaths(w, SOURCE_LIMITS, schema, context, [], 0, {});
    NamesAreNamed(r.paths, name);
    forall path ensures path in r.paths <==> Listed(w, schema, context, path, 0, {}) {
      WalkListsIff(w, schema, context, [], 0, {}, path);
      assert path[..0] == [] && path[0..] == path;
    }
    if ReadsLike(r.paths, name) {
      var path :| path in r.paths && NameOf(path) == name;
      assert Listed(w, schema, context, path, 0, {});
    }
  }

  lemma EmptyName()
    ensures NameOf([]) == ""
  {
  }

  lemma {:induction false} NamesAreNamed(paths: seq<seq<string>>, name: string)
    ensures name in NamesOf(paths) <==> ReadsLike(paths, name)
  {
    hide NameOf;
    if paths != [] {
      var init, last := paths[..|paths| - 1], paths[|paths| - 1];
      NamesAreNamed(init, name);
      assert paths == init + [last];
      if ReadsLike(init, name) {
        var path :| path in init && NameOf(path) == name;
        assert path in paths;
      }
      if ReadsLike(paths, name) {
        var path :| path in paths && NameOf(path) == name;
        assert path in init || path == last;
      }
      assert last in paths;
    }
  }

  ghost predicate ReadsLike(paths: seq<seq<string>>, name: string) {
    exists path :: path in paths && NameOf(path) == name
  }

  /** A name is its components with dots between, as long as the first one is not empty. */
  lemma {:induction false} NameJoins(path: seq<string>)
    requires path != [] && path[0] != ""
    ensures NameOf(path) == JoinWith(path, '.') != ""
  {
    var n := |path| - 1;
    if n == 0 {
      assert path[..0] == [];
    } else {
      NameJoins(path[..n]);
      JoinLast(path[..n], path[n], '.');
      assert path == path[..n] + [path[n]];
    }
  }

  lemma {:induction false} JoinLast(parts: seq<string>, last: string, c: char)
    requires parts != []
    ensures JoinWith(parts + [last], c) == JoinWith(parts, c) + [c] + last
  {
    var all := parts + [last];
    if |parts| == 1 {
      assert all[1..] == [last];
    } else {
      assert all[1..] == parts[1..] + [last];
      JoinLast(parts[1..], last, c);
    }
  }
}
