/** Field names of a schema, `_extract_fields` (bank_api_parser/parsers/base_parser.py). */
module FieldWalk {
  import opened Common
  import opened Json
  import opened Refs

  /** `maxDepth` ends the walk; properties nested deeper than `nestDepth` are listed but not entered. */
  datatype Limits = Limits(maxDepth: nat, nestDepth: nat)

  const SOURCE_LIMITS := Limits(4, 2)

  /** The names found, or an exception. */
  datatype FieldList = Raises | Names(names: seq<string>)

  function Plus(a: FieldList, b: FieldList): FieldList {
    if a.Raises? || b.Raises? then Raises else Names(a.names + b.names)
  }

  function Left(lim: Limits, depth: nat): nat {
    if depth > lim.maxDepth then 0 else lim.maxDepth + 1 - depth
  }

  function Dotted(prefix: string, name: string): string {
    if prefix != "" then prefix + "." + name else name
  }

  /** The value of the first combinator the schema has. */
  function Combinator(entries: seq<Entry>): Option<Json> {
    if Has(entries, "allOf") then Lookup(entries, "allOf")
    else if Has(entries, "oneOf") then Lookup(entries, "oneOf")
    else Lookup(entries, "anyOf")
  }

  predicate HasType(entries: seq<Entry>, name: string) {
    Lookup(entries, "type") == Some(Str(name))
  }

  predicate IsObjectSchema(entries: seq<Entry>) {
    HasType(entries, "object") || Has(entries, "properties")
  }

  predicate IsArraySchema(entries: seq<Entry>) {
    HasType(entries, "array") || Has(entries, "items")
  }

  predicate AnyNamed(entries: seq<Entry>) {
    entries != [] && (entries[0].key != "" || AnyNamed(entries[1..]))
  }

  /** Iterating a text gives its characters, an object its keys; a non-empty text in the place of a schema
      makes the source raise unless the depth limit cuts it first. */
  predicate YieldsText(value: Json) {
    match value
    case Str(s) => s != ""
    case Obj(entries) => AnyNamed(entries)
    case _ => false
  }

  predicate Iterable(value: Json) {
    value.Arr? || value.Str? || value.Obj?
  }

  function Fields(
    w: World, lim: Limits, schema: Json, context: Context, prefix: string, depth: nat, seen: set<string>): FieldList
    decreases Left(lim, depth), 2, 0
  {
    if depth > lim.maxDepth || !Truthy(schema) then Names([])
    else if !schema.Obj? then Raises
    else
      var ref := Lookup(schema.entries, "$ref");
      if ref.None? then FieldsOf(w, lim, schema.entries, context, prefix, depth, seen)
      else
        match Resolve(w, ref.value, context, seen)
        case Crash => Raises
        case Resolved(node, target, followed) =>
          if node.Obj? && Truthy(node) then FieldsOf(w, lim, node.entries, target, prefix, depth, followed)
            else Names([])
  }

  /** The fields of a schema whose own reference has been dealt with. */
  function FieldsOf(
    w: World, lim: Limits, entries: seq<Entry>, context: Context, prefix: string, depth: nat,
    seen: set<string>): FieldList
    requires depth <= lim.maxDepth
    decreases Left(lim, depth), 1, 0
  {
    var combined := Combinator(entries);
    if combined.Some? then
      if combined.value.Arr? then FieldsOfItems(w, lim, combined.value.items, context, prefix, depth + 1, seen)
      else if !Iterable(combined.value) || (depth < lim.maxDepth && YieldsText(combined.value)) then Raises
      else Names([])
    else if IsObjectSchema(entries) then
      var properties := Get(entries, "properties", EMPTY_OBJECT);
      if properties.Obj? then FieldsOfProperties(w, lim, properties.entries, context, prefix, depth, seen) else Raises
    else if IsArraySchema(entries) then
      Fields(w, lim, Get(entries, "items", EMPTY_OBJECT), context, prefix, depth + 1, seen)
    else Names([])
  }

  function FieldsOfItems(
    w: World, lim: Limits, items: seq<Json>, context: Context, prefix: string, depth: nat, seen: set<string>): FieldList
    decreases Left(lim, depth), 3, |items|
  {
    if items == [] then Names([])
    else
      var n := |items| - 1;
      Plus(FieldsOfItems(w, lim, items[..n], context, prefix, depth, seen),
           Fields(w, lim, items[n], context, prefix, depth, seen))
  }

  /** One property: its own name, then the names below it. */
  function FieldsOfProperty(
    w: World, lim: Limits, e: Entry, context: Context, prefix: string, depth: nat, seen: set<string>): FieldList
    requires depth <= lim.maxDepth
    decreases Left(lim, depth), 0, 0
  {
    var full := Dotted(prefix, e.key);
    if depth < lim.nestDepth then Plus(Names([full]), Fields(w, lim, e.value, context, full, depth + 1, seen))
    else Names([full])
  }

  function FieldsOfProperties(
    w: World, lim: Limits, entries: seq<Entry>, context: Context, prefix: string, depth: nat,
    seen: set<string>): FieldList
    requires depth <= lim.maxDepth
    decreases Left(lim, depth), 0, |entries| + 1
  {
    if entries == [] then Names([])
    else
      var n := |entries| - 1;
      Plus(FieldsOfProperties(w, lim, entries[..n], context, prefix, depth, seen),
           FieldsOfProperty(w, lim, entries[n], context, prefix, depth, seen))
  }

  // ---------------------------------------------------------------- names as component sequences

  datatype PathList = NoPaths | Paths(paths: seq<seq<string>>)

  function PlusPaths(a: PathList, b: PathList): PathList {
    if a.NoPaths? || b.NoPaths? then NoPaths else Paths(a.paths + b.paths)
  }

  function NameOf(path: seq<string>): string {
    if path == [] then "" else Dotted(NameOf(path[..|path| - 1]), path[|path| - 1])
  }

  function NamesOf(paths: seq<seq<string>>): seq<string> {
    if paths == [] then [] else NamesOf(paths[..|paths| - 1]) + [NameOf(paths[|paths| - 1])]
  }

  function Named(p: PathList): FieldList {
    if p.NoPaths? then Raises else Names(NamesOf(p.paths))
  }

  /** The same walk, keeping the components of each name apart. */
  function PathsIn(
    w: World, lim: Limits, schema: Json, context: Context, prefix: seq<string>, depth: nat, seen: set<string>): PathList
    decreases Left(lim, depth), 2, 0
  {
    if depth > lim.maxDepth || !Truthy(schema) then Paths([])
    else if !schema.Obj? then NoPaths
    else
      var ref := Lookup(schema.entries, "$ref");
      if ref.None? then PathsOf(w, lim, schema.entries, context, prefix, depth, seen)
      else
        match Resolve(w, ref.value, context, seen)
        case Crash => NoPaths
        case Resolved(node, target, followed) =>
          if node.Obj? && Truthy(node) then PathsOf(w, lim, node.entries, target, prefix, depth, followed)
            else Paths([])
  }

  function PathsOf(
    w: World, lim: Limits, entries: seq<Entry>, context: Context, prefix: seq<string>, depth: nat,
    seen: set<string>): PathList
    requires depth <= lim.maxDepth
    decreases Left(lim, depth), 1, 0
  {
    var combined := Combinator(entries);
    if combined.Some? then
      if combined.value.Arr? then PathsOfItems(w, lim, combined.value.items, context, prefix, depth + 1, seen)
      else if !Iterable(combined.value) || (depth < lim.maxDepth && YieldsText(combined.value)) then NoPaths
      else Paths([])
    else if IsObjectSchema(entries) then
      var properties := Get(entries, "properties", EMPTY_OBJECT);
      if properties.Obj? then PathsOfProperties(w, lim, properties.entries, context, prefix, depth, seen) else NoPaths
    else if IsArraySchema(entries) then
      PathsIn(w, lim, Get(entries, "items", EMPTY_OBJECT), context, prefix, depth + 1, seen)
    else Paths([])
  }

  function PathsOfItems(
    w: World, lim: Limits, items: seq<Json>, context: Context, prefix: seq<string>, depth: nat,
    seen: set<string>): PathList
    decreases Left(lim, depth), 3, |items|
  {
    if items == [] then Paths([])
    else
      var n := |items| - 1;
      PlusPaths(PathsOfItems(w, lim, items[..n], context, prefix, depth, seen),
                PathsIn(w, lim, items[n], context, prefix, depth, seen))
  }

  function PathsOfProperty(
    w: World, lim: Limits, e: Entry, context: Context, prefix: seq<string>, depth: nat, seen: set<string>): PathList
    requires depth <= lim.maxDepth
    decreases Left(lim, depth), 0, 0
  {
    var full := prefix + [e.key];
    if depth < lim.nestDepth then PlusPaths(Paths([full]), PathsIn(w, lim, e.value, context, full, depth + 1, seen))
    else Paths([full])
  }

  function PathsOfProperties(
    w: World, lim: Limits, entries: seq<Entry>, context: Context, prefix: seq<string>, depth: nat,
    seen: set<string>): PathList
    requires depth <= lim.maxDepth
    decreases Left(lim, depth), 0, |entries| + 1
  {
    if entries == [] then Paths([])
    else
      var n := |entries| - 1;
      PlusPaths(PathsOfProperties(w, lim, entries[..n], context, prefix, depth, seen),
                PathsOfProperty(w, lim, entries[n], context, prefix, depth, seen))
  }

  lemma {:induction false} NamesConcat(a: seq<seq<string>>, b: seq<seq<string>>)
    ensures NamesOf(a + b) == NamesOf(a) + NamesOf(b)
  {
    if b == [] {
      assert a + b == a;
    } else {
      NamesConcat(a, b[..|b| - 1]);
      assert (a + b)[..|a + b| - 1] == a + b[..|b| - 1];
    }
  }

  lemma NamedPlus(a: PathList, b: PathList)
    ensures Named(PlusPaths(a, b)) == Plus(Named(a), Named(b))
  {
    if a.Paths? && b.Paths? {
      NamesConcat(a.paths, b.paths);
    }
  }

  lemma NamedOne(prefix: seq<string>, key: string)
    ensures Named(Paths([prefix + [key]])) == Names([Dotted(NameOf(prefix), key)])
  {
    assert (prefix + [key])[..|prefix|] == prefix;
    var one := [prefix + [key]];
    assert one[..|one| - 1] == [];
    assert NamesOf(one) == NamesOf([]) + [NameOf(one[0])];
  }

  /** The dotted names are exactly the component sequences, joined. */
  lemma {:induction false} FieldsArePaths(
    w: World, lim: Limits, schema: Json, context: Context, prefix: seq<string>, depth: nat, seen: set<string>)
    ensures Fields(w, lim, schema, context, NameOf(prefix), depth, seen)
         == Named(PathsIn(w, lim, schema, context, prefix, depth, seen))
    decreases Left(lim, depth), 2, 0
  {
    if depth <= lim.maxDepth && schema.Obj? && Truthy(schema) {
      var ref := Lookup(schema.entries, "$ref");
      if ref.None? {
        FieldsOfArePaths(w, lim, schema.entries, context, prefix, depth, seen);
      } else {
        var r := Resolve(w, ref.value, context, seen);
        if r.Resolved? && r.node.Obj? {
          FieldsOfArePaths(w, lim, r.node.entries, r.context, prefix, depth, r.seen);
        }
      }
    }
  }

  lemma {:induction false} FieldsOfArePaths(
    w: World, lim: Limits, entries: seq<Entry>, context: Context, prefix: seq<string>, depth: nat, seen: set<string>)
    requires depth <= lim.maxDepth
    ensures FieldsOf(w, lim, entries, context, NameOf(prefix), depth, seen)
         == Named(PathsOf(w, lim, entries, context, prefix, depth, seen))
    decreases Left(lim, depth), 1, 0
  {
    var combined := Combinator(entries);
    if combined.Some? {
      if combined.value.Arr? {
        ItemsArePaths(w, lim, combined.value.items, context, prefix, depth + 1, seen);
      }
    } else if IsObjectSchema(entries) {
      var properties := Get(entries, "properties", EMPTY_OBJECT);
      if properties.Obj? {
        PropertiesArePaths(w, lim, properties.entries, context, prefix, depth, seen);
      }
    } else if IsArraySchema(entries) {
      FieldsArePaths(w, lim, Get(entries, "items", EMPTY_OBJECT), context, prefix, depth + 1, seen);
    }
  }

  lemma {:induction false} ItemsArePaths(
    w: World, lim: Limits, items: seq<Json>, context: Context, prefix: seq<string>, depth: nat, seen: set<string>)
    ensures FieldsOfItems(w, lim, items, context, NameOf(prefix), depth, seen)
         == Named(PathsOfItems(w, lim, items, context, prefix, depth, seen))
    decreases Left(lim, depth), 3, |items|
  {
    if items != [] {
      var n := |items| - 1;
      ItemsArePaths(w, lim, items[..n], context, prefix, depth, seen);
      FieldsArePaths(w, lim, items[n], context, prefix, depth, seen);
      NamedPlus(PathsOfItems(w, lim, items[..n], context, prefix, depth, seen),
                PathsIn(w, lim, items[n], context, prefix, depth, seen));
    }
  }

  lemma {:induction false} PropertyIsPath(
    w: World, lim: Limits, e: Entry, context: Context, prefix: seq<string>, depth: nat, seen: set<string>)
    requires depth <= lim.maxDepth
    ensures FieldsOfProperty(w, lim, e, context, NameOf(prefix), depth, seen)
         == Named(PathsOfProperty(w, lim, e, context, prefix, depth, seen))
    decreases Left(lim, depth), 0, 0
  {
    var full := prefix + [e.key];
    NamedOne(prefix, e.key);
    assert NameOf(full) == Dotted(NameOf(prefix), e.key) by {
      assert full[..|prefix|] == prefix;
    }
    if depth < lim.nestDepth {
      FieldsArePaths(w, lim, e.value, context, full, depth + 1, seen);
      NamedPlus(Paths([full]), PathsIn(w, lim, e.value, context, full, depth + 1, seen));
    }
  }

  lemma {:induction false} PropertiesArePaths(
    w: World, lim: Limits, entries: seq<Entry>, context: Context, prefix: seq<string>, depth: nat, seen: set<string>)
    requires depth <= lim.maxDepth
    ensures FieldsOfProperties(w, lim, entries, context, NameOf(prefix), depth, seen)
         == Named(PathsOfProperties(w, lim, entries, context, prefix, depth, seen))
    decreases Left(lim, depth), 0, |entries| + 1
  {
    if entries != [] {
      var n := |entries| - 1;
      PropertiesArePaths(w, lim, entries[..n], context, prefix, depth, seen);
      PropertyIsPath(w, lim, entries[n], context, prefix, depth, seen);
      NamedPlus(PathsOfProperties(w, lim, entries[..n], context, prefix, depth, seen),
                PathsOfProperty(w, lim, entries[n], context, prefix, depth, seen));
    }
  }

  // ---------------------------------------------------------------- a shallow forest

  /** How many components a call at `depth` can add. */
  function Reach(lim: Limits, depth: nat): nat {
    if depth < lim.nestDepth then lim.nestDepth + 1 - depth else 1
  }

  ghost predicate IsPrefix(a: seq<string>, b: seq<string>) {
    |a| <= |b| && b[..|a|] == a
  }

  /** `paths[i]` extends `prefix` by at most `reach` components and its parent, unless that is `prefix`
      itself, stands before it. */
  ghost predicate PlacedAt(paths: seq<seq<string>>, prefix: seq<string>, reach: nat, i: nat)
    requires i < |paths|
  {
    var p := paths[i];
    && IsPrefix(prefix, p) && |prefix| < |p| <= |prefix| + reach
    && (|p| > |prefix| + 1 ==> exists j :: 0 <= j < i && paths[j] == p[..|p| - 1])
  }

  ghost predicate Forest(paths: seq<seq<string>>, prefix: seq<string>, reach: nat) {
    forall i: nat :: i < |paths| ==> PlacedAt(paths, prefix, reach, i)
  }

  lemma ForestConcat(a: seq<seq<string>>, b: seq<seq<string>>, prefix: seq<string>, reach: nat)
    requires Forest(a, prefix, reach) && Forest(b, prefix, reach)
    ensures Forest(a + b, prefix, reach)
  {
    forall i: nat | i < |a + b| ensures PlacedAt(a + b, prefix, reach, i) {
      var p := (a + b)[i];
      if i < |a| {
        assert PlacedAt(a, prefix, reach, i);
        if |p| > |prefix| + 1 {
          var j :| 0 <= j < i && a[j] == p[..|p| - 1];
          assert (a + b)[j] == p[..|p| - 1];
        }
      } else {
        assert PlacedAt(b, prefix, reach, i - |a|);
        if |p| > |prefix| + 1 {
          var j :| 0 <= j < i - |a| && b[j] == p[..|p| - 1];
          assert (a + b)[|a| + j] == p[..|p| - 1];
        }
      }
    }
  }

  lemma ForestWider(paths: seq<seq<string>>, prefix: seq<string>, reach: nat, wider: nat)
    requires Forest(paths, prefix, reach) && reach <= wider
    ensures Forest(paths, prefix, wider)
  {
    forall i: nat | i < |paths| ensures PlacedAt(paths, prefix, wider, i) {
      assert PlacedAt(paths, prefix, reach, i);
    }
  }

  /** A property followed by the forest below it. */
  lemma ForestUnder(prefix: seq<string>, key: string, below: seq<seq<string>>, reach: nat)
    requires Forest(below, prefix + [key], reach)
    ensures Forest([prefix + [key]] + below, prefix, reach + 1)
  {
    var full := prefix + [key];
    var all, wider := [full] + below, reach + 1;
    forall i: nat | i < |all| ensures PlacedAt(all, prefix, wider, i) {
      if i > 0 {
        var p := below[i - 1];
        assert PlacedAt(below, full, reach, i - 1);
        assert p[..|prefix|] == p[..|full|][..|prefix|];
        if |p| > |full| + 1 {
          var j :| 0 <= j < i - 1 && below[j] == p[..|p| - 1];
          assert all[1 + j] == p[..|p| - 1];
        } else {
          assert all[0] == p[..|p| - 1];
        }
      }
    }
  }

  /** For any documents, references, combinators and arrays: every name comes after its parent, and a call
      at depth `d` adds at most `Reach(d)` components. */
  lemma {:induction false} PathsFormForest(
    w: World, lim: Limits, schema: Json, context: Context, prefix: seq<string>, depth: nat, seen: set<string>)
    ensures var r := PathsIn(w, lim, schema, context, prefix, depth, seen);
      r.Paths? ==> Forest(r.paths, prefix, Reach(lim, depth))
    decreases Left(lim, depth), 2, 0
  {
    if depth <= lim.maxDepth && schema.Obj? && Truthy(schema) {
      var ref := Lookup(schema.entries, "$ref");
      if ref.None? {
        EntriesFormForest(w, lim, schema.entries, context, prefix, depth, seen);
      } else {
        var r := Resolve(w, ref.value, context, seen);
        if r.Resolved? && r.node.Obj? {
          EntriesFormForest(w, lim, r.node.entries, r.context, prefix, depth, r.seen);
        }
      }
    }
  }

  lemma {:induction false} EntriesFormForest(
    w: World, lim: Limits, entries: seq<Entry>, context: Context, prefix: seq<string>, depth: nat, seen: set<string>)
    requires depth <= lim.maxDepth
    ensures var r := PathsOf(w, lim, entries, context, prefix, depth, seen);
      r.Paths? ==> Forest(r.paths, prefix, Reach(lim, depth))
    decreases Left(lim, depth), 1, 0
  {
    var combined := Combinator(entries);
    var r := PathsOf(w, lim, entries, context, prefix, depth, seen);
    if combined.Some? {
      if combined.value.Arr? {
        ItemsFormForest(w, lim, combined.value.items, context, prefix, depth + 1, seen);
        if r.Paths? {
          ForestWider(r.paths, prefix, Reach(lim, depth + 1), Reach(lim, depth));
        }
      }
    } else if IsObjectSchema(entries) {
      var properties := Get(entries, "properties", EMPTY_OBJECT);
      if properties.Obj? {
        PropertiesFormForest(w, lim, properties.entries, context, prefix, depth, seen);
      }
    } else if IsArraySchema(entries) {
      PathsFormForest(w, lim, Get(entries, "items", EMPTY_OBJECT), context, prefix, depth + 1, seen);
      if r.Paths? {
        ForestWider(r.paths, prefix, Reach(lim, depth + 1), Reach(lim, depth));
      }
    }
  }

  lemma {:induction false} ItemsFormForest(
    w: World, lim: Limits, items: seq<Json>, context: Context, prefix: seq<string>, depth: nat, seen: set<string>)
    ensures var r := PathsOfItems(w, lim, items, context, prefix, depth, seen);
      r.Paths? ==> Forest(r.paths, prefix, Reach(lim, depth))
    decreases Left(lim, depth), 3, |items|
  {
    if items != [] {
      var n := |items| - 1;
      ItemsFormForest(w, lim, items[..n], context, prefix, depth, seen);
      PathsFormForest(w, lim, items[n], context, prefix, depth, seen);
      var a := PathsOfItems(w, lim, items[..n], context, prefix, depth, seen);
      var b := PathsIn(w, lim, items[n], context, prefix, depth, seen);
      if a.Paths? && b.Paths? {
        ForestConcat(a.paths, b.paths, prefix, Reach(lim, depth));
      }
    }
  }

  lemma {:induction false} PropertyFormsTree(
    w: World, lim: Limits, e: Entry, context: Context, prefix: seq<string>, depth: nat, seen: set<string>)
    requires depth <= lim.maxDepth
    ensures var r := PathsOfProperty(w, lim, e, context, prefix, depth, seen);
      r.Paths? ==> Forest(r.paths, prefix, Reach(lim, depth))
    decreases Left(lim, depth), 0, 0
  {
    var full := prefix + [e.key];
    if depth < lim.nestDepth {
      PathsFormForest(w, lim, e.value, context, full, depth + 1, seen);
      var below := PathsIn(w, lim, e.value, context, full, depth + 1, seen);
      if below.Paths? {
        ForestUnder(prefix, e.key, below.paths, Reach(lim, depth + 1));
      }
    } else {
      ForestUnder(prefix, e.key, [], 0);
      assert [full] + [] == [full];
    }
  }

  lemma {:induction false} PropertiesFormForest(
    w: World, lim: Limits, entries: seq<Entry>, context: Context, prefix: seq<string>, depth: nat, seen: set<string>)
    requires depth <= lim.maxDepth
    ensures var r := PathsOfProperties(w, lim, entries, context, prefix, depth, seen);
      r.Paths? ==> Forest(r.paths, prefix, Reach(lim, depth))
    decreases Left(lim, depth), 0, |entries| + 1
  {
    if entries != [] {
      var n := |entries| - 1;
      PropertiesFormForest(w, lim, entries[..n], context, prefix, depth, seen);
      PropertyFormsTree(w, lim, entries[n], context, prefix, depth, seen);
      var a := PathsOfProperties(w, lim, entries[..n], context, prefix, depth, seen);
      var b := PathsOfProperty(w, lim, entries[n], context, prefix, depth, seen);
      if a.Paths? && b.Paths? {
        ForestConcat(a.paths, b.paths, prefix, Reach(lim, depth));
      }
    }
  }

  /** With the source's limits a top-level call lists names of at most three components, parents first. */
  lemma TopLevelForest(w: World, schema: Json, context: Context)
    ensures var r := PathsIn(w, SOURCE_LIMITS, schema, context, [], 0, {});
      && Fields(w, SOURCE_LIMITS, schema, context, "", 0, {}) == Named(r)
      && (r.Paths? ==> Forest(r.paths, [], 3))
  {
    FieldsArePaths(w, SOURCE_LIMITS, schema, context, [], 0, {});
    PathsFormForest(w, SOURCE_LIMITS, schema, context, [], 0, {});
  }
}
