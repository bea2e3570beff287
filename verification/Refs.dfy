/** Resolving `$ref`s within and across documents (bank_api_parser/parsers/base_parser.py). */
module Refs {
  import opened Text
  import opened Json

  /** A `$ref` file part seen from the document it stands in. */
  datatype Link = Link(base: string, file: string)

  /** The reachable documents. `docs` holds what can be downloaded and parsed; `targets` where a file part
      leads when its address is on the host of the referring document. */
  datatype World = World(docs: map<string, Json>, targets: map<Link, string>)

  /** The document a schema stands in and its address, "" when unknown. */
  datatype Context = Context(spec: Json, url: string)

  datatype Resolution = Crash | Resolved(node: Json, context: Context, seen: set<string>)

  /** A file that cannot be had, or is not an object, counts as {}. */
  function Document(w: World, url: string): Json {
    if url in w.docs && w.docs[url].Obj? then w.docs[url] else EMPTY_OBJECT
  }

  predicate StartsWithHashSlash(s: string) {
    |s| >= 2 && s[0] == '#' && s[1] == '/'
  }

  /** The text before the first `#`, all of it when there is none. */
  function BeforeHash(s: string): string {
    if s == "" || s[0] == '#' then "" else [s[0]] + BeforeHash(s[1..])
  }

  /** The text after the first `#`, nothing when there is none. */
  function AfterHash(s: string): string {
    if s == "" then "" else if s[0] == '#' then s[1..] else AfterHash(s[1..])
  }

  /** Resolve a reference; `seen` are those followed on this branch. A reference that is neither text nor
      empty makes the source raise. */
  function Resolve(w: World, ref: Json, context: Context, seen: set<string>): Resolution {
    if !Truthy(ref) then Resolved(EMPTY_OBJECT, context, seen)
    else if !ref.Str? then Crash
    else if ref.s in seen then Resolved(EMPTY_OBJECT, context, seen)
    else ResolveNew(w, ref.s, context, seen + {ref.s})
  }

  function ResolveNew(w: World, ref: string, context: Context, seen: set<string>): Resolution {
    var nothing := Resolved(EMPTY_OBJECT, context, seen);
    if StartsWithHashSlash(ref) then Resolved(Pointed(ref, context.spec), context, seen)
    else if BeforeHash(ref) == "" || context.url == "" then nothing
    else if Link(context.url, BeforeHash(ref)) !in w.targets then nothing
    else
      var url := w.targets[Link(context.url, BeforeHash(ref))];
      var spec := Document(w, url);
      if !Truthy(spec) then nothing
      else if AfterHash(ref) == "" then Resolved(spec, Context(spec, url), seen)
      else Resolved(Pointed("#" + AfterHash(ref), spec), Context(spec, url), seen)
  }

  // ---------------------------------------------------------------- the reference strings of a document

  function RefsIn(j: Json): set<string> {
    match j
    case Arr(items) => RefsInItems(items)
    case Obj(entries) => RefsInEntries(entries)
    case _ => {}
  }

  function RefsInItems(items: seq<Json>): set<string> {
    if items == [] then {} else RefsIn(items[0]) + RefsInItems(items[1..])
  }

  function RefsInEntries(entries: seq<Entry>): set<string> {
    if entries == [] then {}
    else
      var e := entries[0];
      (if e.key == "$ref" && e.value.Str? then {e.value.s} else {}) + RefsIn(e.value) + RefsInEntries(entries[1..])
  }

  function Max(a: nat, b: nat): nat {
    if a < b then b else a
  }

  function Height(j: Json): nat {
    match j
    case Arr(items) => 1 + HeightOfItems(items)
    case Obj(entries) => 1 + HeightOfEntries(entries)
    case _ => 0
  }

  function HeightOfItems(items: seq<Json>): nat {
    if items == [] then 0 else Max(Height(items[0]), HeightOfItems(items[1..]))
  }

  function HeightOfEntries(entries: seq<Entry>): nat {
    if entries == [] then 0 else Max(Height(entries[0].value), HeightOfEntries(entries[1..]))
  }

  /** Everything reachable uses references from `refs` only and is at most `height` deep. */
  ghost predicate Bounded(j: Json, refs: set<string>, height: nat) {
    RefsIn(j) <= refs && Height(j) <= height
  }

  ghost predicate BoundedWorld(w: World, refs: set<string>, height: nat) {
    forall u :: u in w.docs ==> Bounded(w.docs[u], refs, height)
  }

  lemma {:induction false} LookupBounded(entries: seq<Entry>, key: string, refs: set<string>, height: nat)
    requires Lookup(entries, key).Some?
    requires RefsInEntries(entries) <= refs && HeightOfEntries(entries) <= height
    ensures Bounded(Lookup(entries, key).value, refs, height)
    ensures key == "$ref" && Lookup(entries, key).value.Str? ==> Lookup(entries, key).value.s in refs
  {
    if entries[0].key != key {
      LookupBounded(entries[1..], key, refs, height);
    }
  }

  lemma {:induction false} WalkBounded(node: Json, parts: seq<string>, refs: set<string>, height: nat)
    requires Bounded(node, refs, height)
    ensures Walk(node, parts).Obj?
    ensures height > 0 ==> Bounded(Walk(node, parts), refs, height)
    ensures Walk(node, parts) == EMPTY_OBJECT || Bounded(Walk(node, parts), refs, height)
    decreases parts
  {
    if node.Obj? && parts != [] {
      var key := Unescape(parts[0]);
      if Has(node.entries, key) {
        LookupBounded(node.entries, key, refs, Height(node) - 1);
        WalkBounded(Lookup(node.entries, key).value, parts[1..], refs, height);
      } else {
        WalkBounded(EMPTY_OBJECT, parts[1..], refs, height);
      }
    }
  }

  /** Following a reference stays within the known references and heights. */
  lemma ResolveBounded(w: World, ref: Json, context: Context, seen: set<string>, refs: set<string>, height: nat)
    requires height > 0 && BoundedWorld(w, refs, height) && Bounded(context.spec, refs, height)
    ensures var r := Resolve(w, ref, context, seen);
      r.Resolved? ==> r.node.Obj? && Bounded(r.node, refs, height) && Bounded(r.context.spec, refs, height)
  {
    if Truthy(ref) && ref.Str? && ref.s !in seen {
      var s := ref.s;
      if StartsWithHashSlash(s) {
        WalkBounded(context.spec, Split(s[2..], '/'), refs, height);
      } else if Link(context.url, BeforeHash(s)) in w.targets {
        var spec := Document(w, w.targets[Link(context.url, BeforeHash(s))]);
        var fragment := "#" + AfterHash(s);
        WalkBounded(spec, Split(if |fragment| < 2 then "" else fragment[2..], '/'), refs, height);
      }
    }
  }

  /** A reference that is actually followed was new on this branch. */
  lemma ResolveGrows(w: World, ref: Json, context: Context, seen: set<string>)
    ensures var r := Resolve(w, ref, context, seen);
      r.Resolved? && Truthy(r.node) ==> ref.Str? && ref.s !in seen && r.seen == seen + {ref.s}
  {
  }

  lemma BoundedWider(j: Json, refs: set<string>, height: nat, moreRefs: set<string>, moreHeight: nat)
    requires Bounded(j, refs, height) && refs <= moreRefs && height <= moreHeight
    ensures Bounded(j, moreRefs, moreHeight)
  {
  }

  /** Some finite bounds hold of any documents and any schema. */
  lemma {:induction false} EveryWorldIsBounded(
    w: World, schema: Json, spec: Json) returns (refs: set<string>, height: nat)
    ensures height > 0 && BoundedWorld(w, refs, height) && Bounded(schema, refs, height) && Bounded(spec, refs, height)
    decreases |w.docs|
  {
    if w.docs == map[] {
      refs, height := RefsIn(schema) + RefsIn(spec), 1 + Height(schema) + Height(spec);
    } else {
      var u :| u in w.docs;
      var rest := w.(docs := w.docs - {u});
      assert rest.docs.Keys == w.docs.Keys - {u};
      refs, height := EveryWorldIsBounded(rest, schema, spec);
      var moreRefs, moreHeight := refs + RefsIn(w.docs[u]), height + Height(w.docs[u]);
      forall v | v in w.docs ensures Bounded(w.docs[v], moreRefs, moreHeight) {
        if v != u {
          assert v in rest.docs;
          BoundedWider(w.docs[v], refs, height, moreRefs, moreHeight);
        }
      }
      BoundedWider(schema, refs, height, moreRefs, moreHeight);
      BoundedWider(spec, refs, height, moreRefs, moreHeight);
      refs, height := moreRefs, moreHeight;
    }
  }
}
