/** References that lead to further references, where ordinary inlining can change the field list
    (bank_api_parser/parsers/base_parser.py). */
module RefChains {
  import opened Common
  import opened Text
  import opened Json
  import opened Refs
  import opened FieldWalk
  import opened Inlining
  import opened PlainInlining

  // ---------------------------------------------------------------- schemas that list nothing

  /** Through combinator members and array items no property is reached within the limit, and nothing raises. */
  ghost predicate Silent(w: World, lim: Limits, schema: Json, context: Context, depth: nat, seen: set<string>)
    decreases Left(lim, depth), 2, 0
  {
    depth > lim.maxDepth || !Truthy(schema)
    || (schema.Obj?
        && match Lookup(schema.entries, "$ref")
           case None => SilentOf(w, lim, schema.entries, context, depth, seen)
           case Some(ref) =>
             match Resolve(w, ref, context, seen)
             case Crash => false
             case Resolved(node, target, followed) =>
               node.Obj? && Truthy(node) ==> SilentOf(w, lim, node.entries, target, depth, followed))
  }

  ghost predicate SilentOf(w: World, lim: Limits, entries: seq<Entry>, context: Context, depth: nat, seen: set<string>)
    requires depth <= lim.maxDepth
    decreases Left(lim, depth), 1, 0
  {
    match Combinator(entries)
    case Some(Arr(items)) => AllSilent(w, lim, items, context, depth + 1, seen)
    case Some(value) => Iterable(value) && (depth < lim.maxDepth ==> !YieldsText(value))
    case None =>
      if IsObjectSchema(entries) then Get(entries, "properties", EMPTY_OBJECT) == EMPTY_OBJECT
      else IsArraySchema(entries) ==> Silent(w, lim, Get(entries, "items", EMPTY_OBJECT), context, depth + 1, seen)
  }

  ghost predicate AllSilent(w: World, lim: Limits, items: seq<Json>, context: Context, depth: nat, seen: set<string>)
    decreases Left(lim, depth), 3, |items|
  {
    items == []
    || (AllSilent(w, lim, items[..|items| - 1], context, depth, seen)
        && Silent(w, lim, items[|items| - 1], context, depth, seen))
  }

  lemma PropertiesSpeak(
    w: World, lim: Limits, entries: seq<Entry>, context: Context, prefix: string, depth: nat, seen: set<string>)
    requires depth <= lim.maxDepth
    ensures FieldsOfProperties(w, lim, entries, context, prefix, depth, seen) == Names([]) <==> entries == []
  {
    if entries != [] {
      var e := entries[|entries| - 1];
      var own := FieldsOfProperty(w, lim, e, context, prefix, depth, seen);
      assert own.Names? ==> own.names[0] == Dotted(prefix, e.key);
    }
  }

  /** A schema lists nothing exactly when no property is reached from it and nothing raises. */
  lemma {:induction false} NothingListedIff(
    w: World, lim: Limits, schema: Json, context: Context, prefix: string, depth: nat, seen: set<string>)
    ensures Fields(w, lim, schema, context, prefix, depth, seen) == Names([])
       <==> Silent(w, lim, schema, context, depth, seen)
    decreases Left(lim, depth), 2, 0
  {
    hide Resolve, FieldsOf, SilentOf;
    if depth <= lim.maxDepth && schema.Obj? && Truthy(schema) {
      var ref := Lookup(schema.entries, "$ref");
      if ref.None? {
        NothingListedOfIff(w, lim, schema.entries, context, prefix, depth, seen);
      } else {
        var r := Resolve(w, ref.value, context, seen);
        if r.Resolved? && r.node.Obj? && Truthy(r.node) {
          NothingListedOfIff(w, lim, r.node.entries, r.context, prefix, depth, r.seen);
        }
      }
    }
  }

  lemma {:induction false} NothingListedOfIff(
    w: World, lim: Limits, entries: seq<Entry>, context: Context, prefix: string, depth: nat, seen: set<string>)
    requires depth <= lim.maxDepth
    ensures FieldsOf(w, lim, entries, context, prefix, depth, seen) == Names([])
       <==> SilentOf(w, lim, entries, context, depth, seen)
    decreases Left(lim, depth), 1, 0
  {
    hide Fields, FieldsOfItems, FieldsOfProperties, Silent, AllSilent, Lookup;
    var combined, properties := Combinator(entries), Get(entries, "properties", EMPTY_OBJECT);
    if combined.Some? {
      if combined.value.Arr? {
        NothingListedByItemsIff(w, lim, combined.value.items, context, prefix, depth + 1, seen);
      }
    } else if IsObjectSchema(entries) {
      if properties.Obj? {
        PropertiesSpeak(w, lim, properties.entries, context, prefix, depth, seen);
      }
    } else if IsArraySchema(entries) {
      NothingListedIff(w, lim, Get(entries, "items", EMPTY_OBJECT), context, prefix, depth + 1, seen);
    }
  }

  lemma {:induction false} NothingListedByItemsIff(
    w: World, lim: Limits, items: seq<Json>, context: Context, prefix: string, depth: nat, seen: set<string>)
    ensures FieldsOfItems(w, lim, items, context, prefix, depth, seen) == Names([])
       <==> AllSilent(w, lim, items, context, depth, seen)
    decreases Left(lim, depth), 3, |items|
  {
    hide Fields, Silent;
    if items != [] {
      var n := |items| - 1;
      NothingListedByItemsIff(w, lim, items[..n], context, prefix, depth, seen);
      NothingListedIff(w, lim, items[n], context, prefix, depth, seen);
    }
  }

  // ---------------------------------------------------------------- a reference to a reference

  /** The schema at the end of `hops` references that carry one another; whatever else stands beside a
      reference on the way does not matter to full replacement. */
  ghost predicate LeadsTo(s: string, spec: Json, hops: nat, node: seq<Entry>)
    decreases hops
  {
    StartsWithHashSlash(s)
    && var target := Target(s, spec);
       if hops == 0 then target == node && node != [] && !Has(node, "$ref")
       else
         match Lookup(target, "$ref")
         case Some(Str(next)) => LeadsTo(next, spec, hops - 1, node)
         case _ => false
  }

  predicate RefersTo(schema: seq<Entry>, s: string) {
    s != "" && Lookup(schema, "$ref") == Some(Str(s))
  }

  /** The code treats the target of a reference as if it carried no reference of its own. */
  lemma TargetRefIgnored(
    w: World, lim: Limits, schema: seq<Entry>, s: string, context: Context, prefix: string, depth: nat,
    seen: set<string>)
    requires RefersTo(schema, s) && StartsWithHashSlash(s) && s !in seen && depth <= lim.maxDepth
    ensures Fields(w, lim, Obj(schema), context, prefix, depth, seen)
         == FieldsOf(w, lim, Replacement(s, context.spec), context, prefix, depth, seen + {s})
  {
    hide FieldsOf, Pointed, DropRef;
    assert schema != [];
    var target := Target(s, context.spec);
    FieldsIgnoreRef(w, lim, target, context, prefix, depth, seen + {s});
    if target == [] {
      EmptyListsNothing(w, lim, context, prefix, depth, seen + {s});
    }
  }

  lemma EmptyListsNothing(w: World, lim: Limits, context: Context, prefix: string, depth: nat, seen: set<string>)
    requires depth <= lim.maxDepth
    ensures FieldsOf(w, lim, [], context, prefix, depth, seen) == Names([])
  {
  }

  /** A link whose other keys list nothing; a bare reference is one. */
  ghost predicate SilentLink(w: World, lim: Limits, s: string, context: Context, depth: nat, seen: set<string>) {
    depth <= lim.maxDepth ==> SilentOf(w, lim, Replacement(s, context.spec), context, depth, seen + {s})
  }

  /** At any place of a walk: let a reference lead to a schema through further references, and let the other
      keys beside the first of them, or that schema, list nothing. Then putting the schema in the place of the
      reference keeps the field list exactly when both list nothing: no property is reached, nothing raises. */
  lemma RefChainIff(
    w: World, lim: Limits, schema: seq<Entry>, s: string, hops: nat, node: seq<Entry>, context: Context,
    prefix: string, depth: nat, seen: set<string>)
    requires RefersTo(schema, s) && s !in seen && hops > 0 && LeadsTo(s, context.spec, hops, node)
    requires SilentLink(w, lim, s, context, depth, seen) || Silent(w, lim, Obj(node), context, depth, seen)
    ensures Fields(w, lim, Obj(schema), context, prefix, depth, seen)
         == Fields(w, lim, Obj(node), context, prefix, depth, seen)
       <==> SilentLink(w, lim, s, context, depth, seen) && Silent(w, lim, Obj(node), context, depth, seen)
  {
    NothingListedIff(w, lim, Obj(node), context, prefix, depth, seen);
    if depth <= lim.maxDepth {
      var target := Replacement(s, context.spec);
      TargetRefIgnored(w, lim, schema, s, context, prefix, depth, seen);
      NothingListedOfIff(w, lim, target, context, prefix, depth, seen + {s});
    }
    hide FieldsOf, SilentOf, LeadsTo, Target;
  }

  // ---------------------------------------------------------------- a document with two links

  function RefWith(s: string, others: seq<Entry>): seq<Entry> {
    [Entry("$ref", Str(s))] + others
  }

  const LEAF: seq<Entry> := [Entry("properties", Obj([Entry("x", EMPTY_OBJECT)]))]

  /** "a" refers to "b", with a description beside the reference or without. */
  function TwoLinks(described: bool): Json {
    Obj([Entry("a", Obj(RefWith("#/b", if described then [Entry("description", Str("d"))] else []))),
         Entry("b", Obj(LEAF))])
  }

  lemma KeyResolves(spec: seq<Entry>, key: string, node: Json)
    requires key in {"a", "b"} && Lookup(spec, key) == Some(node) && node.Obj?
    ensures Pointed("#/" + key, Obj(spec)) == node
  {
    assert ("#/" + key)[2..] == key;
    SplitPiece(key, '/');
    assert Unescape(key) == key;
    assert [key][0] == key && [key][1..] == [];
    assert Walk(Obj(spec), [key]) == Walk(node, []);
  }

  lemma TwoLinksLead(described: bool)
    ensures LeadsTo("#/a", TwoLinks(described), 1, LEAF)
  {
    hide Pointed;
    var es := TwoLinks(described).entries;
    assert es[1..][0] == es[1];
    KeyResolves(es, "a", es[0].value);
    KeyResolves(es, "b", es[1].value);
    assert "#/" + "a" == "#/a" && "#/" + "b" == "#/b";
    assert LeadsTo("#/b", TwoLinks(described), 0, LEAF);
  }

  lemma TwoLinksSilent(w: World, described: bool, url: string)
    ensures SilentLink(w, SOURCE_LIMITS, "#/a", Context(TwoLinks(described), url), 0, {})
  {
    hide Pointed;
    var es := TwoLinks(described).entries;
    KeyResolves(es, "a", es[0].value);
    assert "#/" + "a" == "#/a";
    var others := if described then [Entry("description", Str("d"))] else [];
    var target := RefWith("#/b", others);
    assert target[1..] == others && (described ==> others[1..] == []);
    assert DropRef(others) == others && DropRef(target) == DropRef(target[1..]);
  }

  lemma LeafSpeaks(w: World, context: Context)
    ensures Fields(w, SOURCE_LIMITS, Obj(LEAF), context, "", 0, {}) == Names(["x"])
  {
    var es := LEAF;
    assert es[1..] == [];
    assert Combinator(es) == None;
    var properties := [Entry("x", EMPTY_OBJECT)];
    assert Lookup(es, "properties") == Some(Obj(properties));
    assert properties[..0] == [];
    assert FieldsOfProperty(w, SOURCE_LIMITS, properties[0], context, "", 0, {}) == Names(["x"]);
    assert FieldsOfProperties(w, SOURCE_LIMITS, properties, context, "", 0, {}) == Names(["x"]);
  }

  /** Documents where the code lists nothing and full replacement lists a field. */
  lemma TwoLinksDiffer(w: World, described: bool, url: string)
    ensures LeadsTo("#/a", TwoLinks(described), 1, LEAF)
    ensures Fields(w, SOURCE_LIMITS, Obj(RefWith("#/a", [])), Context(TwoLinks(described), url), "", 0, {}) == Names([])
    ensures Fields(w, SOURCE_LIMITS, Obj(LEAF), Context(TwoLinks(described), url), "", 0, {}) == Names(["x"])
  {
    hide Fields, LeadsTo, SilentOf, FieldsOf;
    var schema, context := RefWith("#/a", []), Context(TwoLinks(described), url);
    TwoLinksLead(described);
    TwoLinksSilent(w, described, url);
    LeafSpeaks(w, context);
    TargetRefIgnored(w, SOURCE_LIMITS, schema, "#/a", context, "", 0, {});
    NothingListedOfIff(w, SOURCE_LIMITS, Replacement("#/a", context.spec), context, "", 0, {} + {"#/a"});
  }
}
