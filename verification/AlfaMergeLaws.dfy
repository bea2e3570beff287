/** What the Alfa deduplication and merge guarantee (bank_api_parser/parsers/alfabank_parser.py). */
module AlfaMergeLaws {
  import opened Snapshot
  import opened AlfaTree
  import opened AlfaMerge

  // ---------------------------------------------------------------- what the merge does to each service

  lemma {:induction false} LookupSnoc(d: seq<ServiceEntry>, e: ServiceEntry, service: string)
    ensures HasName(d + [e], service) <==> HasName(d, service) || e.name == service
    ensures Lookup(d + [e], service)
         == if HasName(d, service) then Lookup(d, service) else if e.name == service then e.methods else []
  {
    var all := d + [e];
    if d == [] {
      assert all[1..] == [];
    } else {
      assert all[1..] == d[1..] + [e];
      LookupSnoc(d[1..], e, service);
    }
  }

  lemma {:induction false} DictSnoc(d: seq<ServiceEntry>, e: ServiceEntry)
    requires IsDict(d + [e])
    ensures IsDict(d) && !HasName(d, e.name)
  {
    var all := d + [e];
    if d != [] {
      assert all[1..] == d[1..] + [e];
      DictSnoc(d[1..], e);
      LookupSnoc(d[1..], e, d[0].name);
    }
  }

  lemma {:induction false} NotNamed(d: seq<ServiceEntry>, service: string)
    requires !HasName(d, service)
    ensures Lookup(d, service) == []
  {
    if d != [] {
      NotNamed(d[1..], service);
    }
  }

  lemma {:induction false} MergeIntoLookup(
    articles: seq<ServiceEntry>, notes: seq<ServiceEntry>, seen: set<string>, service: string)
    requires IsDict(notes)
    ensures Lookup(MergeInto(articles, notes, seen), service)
         == Lookup(articles, service) + NewMethods(Lookup(notes, service), seen)
  {
    hide Lookup, Append, HasName, IsDict, NewMethods;
    NothingNew(service, seen);
    if notes != [] {
      var init, last := notes[..|notes| - 1], notes[|notes| - 1];
      assert notes == init + [last];
      DictSnoc(init, last);
      LookupSnoc(init, last, service);
      MergeIntoLookup(articles, init, seen, service);
      NotNamedOr(init, service);
      AppendLookup(MergeInto(articles, init, seen), last.name, NewMethods(last.methods, seen), service);
    }
  }

  lemma NotNamedOr(d: seq<ServiceEntry>, service: string)
    ensures HasName(d, service) || Lookup(d, service) == []
  {
    if !HasName(d, service) {
      NotNamed(d, service);
    }
  }

  lemma NothingNew(service: string, seen: set<string>)
    ensures NewMethods([], seen) == [] && Lookup([], service) == []
  {
  }

  // ---------------------------------------------------------------- counting through the merge

  /** The `_method_key` of whatever has this identity. */
  function IdKey(id: Id): string {
    match id
    case Stored(verb, path) => MethodKey(verb, path)
    case Keyed(key) => key
  }

  lemma HasItsKey(m: ApiMethod, id: Id)
    ensures Has(m, id) ==> KeyOf(m) == IdKey(id)
  {
  }

  lemma {:induction false} NewCopies(ms: seq<ApiMethod>, seen: set<string>, id: Id)
    ensures Copies(NewMethods(ms, seen), id) == if IdKey(id) in seen then 0 else Copies(ms, id)
  {
    hide Has, KeyOf, IdKey;
    if ms != [] {
      var n := |ms| - 1;
      NewCopies(ms[..n], seen, id);
      HasItsKey(ms[n], id);
      var kept := NewMethods(ms[..n], seen) + [ms[n]];
      assert kept[..|kept| - 1] == NewMethods(ms[..n], seen);
    }
  }

  lemma {:induction false} CopiesSnoc(d: seq<ServiceEntry>, e: ServiceEntry, id: Id)
    ensures CopiesIn(d + [e], id) == CopiesIn(d, id) + Copies(e.methods, id)
  {
    hide Copies;
    var all := d + [e];
    if d == [] {
      assert all[1..] == [];
    } else {
      assert all[1..] == d[1..] + [e];
      CopiesSnoc(d[1..], e, id);
    }
  }

  lemma {:induction false} MergeIntoCopies(
    articles: seq<ServiceEntry>, notes: seq<ServiceEntry>, seen: set<string>, id: Id)
    ensures CopiesIn(MergeInto(articles, notes, seen), id)
         == CopiesIn(articles, id) + if IdKey(id) in seen then 0 else CopiesIn(notes, id)
  {
    hide Append, NewMethods, Copies, CopiesIn, IdKey;
    if notes == [] {
      NoCopies(id);
    } else {
      var init, last := notes[..|notes| - 1], notes[|notes| - 1];
      assert notes == init + [last];
      MergeIntoCopies(articles, init, seen, id);
      CopiesSnoc(init, last, id);
      NewCopies(last.methods, seen, id);
      NoCopiesOfNone(id);
      AppendCopies(MergeInto(articles, init, seen), last.name, NewMethods(last.methods, seen), id);
    }
  }

  lemma NoCopiesOfNone(id: Id)
    ensures Copies([], id) == 0
  {
  }

  lemma {:induction false} KeysAreCounted(ms: seq<ApiMethod>, key: string)
    ensures key in KeysOf(ms) <==> Copies(ms, Keyed(key)) > 0
  {
    hide KeyOf;
    if ms != [] {
      KeysAreCounted(ms[..|ms| - 1], key);
    }
  }

  lemma {:induction false} SeenIsCounted(d: seq<ServiceEntry>, key: string)
    ensures key in SeenKeys(d) <==> CopiesIn(d, Keyed(key)) > 0
  {
    hide KeysOf, Copies, CopiesIn;
    if d == [] {
      NoCopies(Keyed(key));
    } else {
      var init, last := d[..|d| - 1], d[|d| - 1];
      SeenIsCounted(init, key);
      KeysAreCounted(last.methods, key);
      CopiesSnoc(init, last, Keyed(key));
      assert d == init + [last];
    }
  }

  lemma {:induction false} MoreByKey(ms: seq<ApiMethod>, id: Id)
    ensures Copies(ms, id) <= Copies(ms, Keyed(IdKey(id)))
  {
    hide MethodKey;
    if ms != [] {
      MoreByKey(ms[..|ms| - 1], id);
    }
  }

  lemma {:induction false} MoreByKeyIn(d: seq<ServiceEntry>, id: Id)
    ensures CopiesIn(d, id) <= CopiesIn(d, Keyed(IdKey(id)))
  {
    hide Copies, IdKey;
    if d != [] {
      MoreByKey(d[0].methods, id);
      MoreByKeyIn(d[1..], id);
    }
  }

  // ---------------------------------------------------------------- how scanned methods are keyed

  function ArticleServices(leaves: seq<Leaf>, endpoints: seq<seq<Endpoint>>): seq<ServiceEntry> {
    Grouped(Firsts(AllDeclared(leaves, endpoints)))
  }

  function NotesServices(updates: seq<Update>): seq<ServiceEntry> {
    Grouped(Firsts(Mentioned(updates)))
  }

  lemma {:induction false} DeclaredInKeys(leaf: Leaf, eps: seq<Endpoint>, verb: string, path: string)
    ensures Under(DeclaredIn(leaf, eps), Stored(verb, path), verb + ":" + path)
  {
    if eps != [] {
      DeclaredInKeys(leaf, eps[..|eps| - 1], verb, path);
    }
  }

  /** An article's method is deduplicated by its verb and the very path it stores. */
  lemma {:induction false} DeclaredKeys(
    leaves: seq<Leaf>, endpoints: seq<seq<Endpoint>>, n: nat, verb: string, path: string)
    requires n <= |leaves| && n <= |endpoints|
    ensures Under(Declared(leaves, endpoints, n), Stored(verb, path), verb + ":" + path)
  {
    hide DeclaredIn;
    if n > 0 {
      DeclaredKeys(leaves, endpoints, n - 1, verb, path);
      DeclaredInKeys(leaves[n - 1], endpoints[n - 1], verb, path);
    }
  }

  lemma {:induction false} MentionedInKeys(u: Update, xs: seq<Mention>)
    ensures OwnKeys(MentionedIn(u, xs))
  {
    if xs != [] {
      MentionedInKeys(u, xs[..|xs| - 1]);
    }
  }

  /** A release-notes method is deduplicated by its own `_method_key`. */
  lemma {:induction false} MentionedKeys(updates: seq<Update>)
    ensures OwnKeys(Mentioned(updates))
  {
    hide MentionedIn;
    if updates != [] {
      var u := updates[|updates| - 1];
      MentionedKeys(updates[..|updates| - 1]);
      MentionedInKeys(u, u.mentions);
    }
  }

  // ---------------------------------------------------------------- main results

  /** Article methods are kept unchanged and in front; what follows is what only the release notes have. */
  lemma ArticlesAreKept(leaves: seq<Leaf>, endpoints: seq<seq<Endpoint>>, updates: seq<Update>, service: string)
    ensures Lookup(Pipeline(leaves, endpoints, updates), service)
         == Lookup(ArticleServices(leaves, endpoints), service)
            + NewMethods(Lookup(NotesServices(updates), service), SeenKeys(ArticleServices(leaves, endpoints)))
  {
    hide MergeInto, Lookup, NewMethods, Grouped, IsDict;
    GroupedLookup(Firsts(Mentioned(updates)), service);
    MergeIntoLookup(ArticleServices(leaves, endpoints), NotesServices(updates),
                    SeenKeys(ArticleServices(leaves, endpoints)), service);
  }

  lemma MergeCopies(articles: seq<ServiceEntry>, notes: seq<ServiceEntry>, id: Id)
    ensures CopiesIn(Merge(articles, notes), id)
         == CopiesIn(articles, id) + if CopiesIn(articles, Keyed(IdKey(id))) > 0 then 0 else CopiesIn(notes, id)
  {
    hide CopiesIn, MergeInto, SeenKeys;
    MergeIntoCopies(articles, notes, SeenKeys(articles), id);
    SeenIsCounted(articles, IdKey(id));
  }

  /** After the article scan and the merge no two methods share verb and stored path. */
  lemma StoredOnce(leaves: seq<Leaf>, endpoints: seq<seq<Endpoint>>, updates: seq<Update>, verb: string, path: string)
    ensures CopiesIn(Pipeline(leaves, endpoints, updates), Stored(verb, path)) <= 1
  {
    hide CopiesIn, Merge, Grouped, Firsts, Declared, Mentioned, FoundCopies, KeyIn, MethodKey;
    var id := Stored(verb, path);
    var found, noted := AllDeclared(leaves, endpoints), Mentioned(updates);
    DeclaredKeys(leaves, endpoints, Zipped(leaves, endpoints), verb, path);
    KeptAtMostOnce(found, id, verb + ":" + path);
    GroupedCopies(Firsts(found), id);
    MentionedKeys(updates);
    KeptAtMostOnce(noted, id, IdKey(id));
    GroupedCopies(Firsts(noted), id);
    MoreByKeyIn(Grouped(Firsts(found)), id);
    MergeCopies(Grouped(Firsts(found)), Grouped(Firsts(noted)), id);
  }

  /** How many merged methods have a given `_method_key`: those of the articles, else exactly one when the
      release notes mention it. So every release-notes method has a merged method with its key. */
  lemma MergedKeyCount(leaves: seq<Leaf>, endpoints: seq<seq<Endpoint>>, updates: seq<Update>, key: string)
    ensures CopiesIn(Pipeline(leaves, endpoints, updates), Keyed(key))
         == if CopiesIn(ArticleServices(leaves, endpoints), Keyed(key)) > 0
            then CopiesIn(ArticleServices(leaves, endpoints), Keyed(key))
            else if KeyIn(Mentioned(updates), key) then 1 else 0
  {
    hide CopiesIn, Merge, Grouped, Firsts, Declared, Mentioned, FoundCopies, KeyIn;
    var noted := Mentioned(updates);
    MentionedKeys(updates);
    KeptExactlyOnce(noted, key);
    GroupedCopies(Firsts(noted), Keyed(key));
    MergeCopies(ArticleServices(leaves, endpoints), NotesServices(updates), Keyed(key));
  }

  /** `m` comes from the first item with its key, and is listed for that item's service. */
  ghost predicate FirstSays(found: seq<Found>, service: string, m: ApiMethod) {
    exists i :: 0 <= i < |found| && FirstAt(found, i) && found[i].service == service && found[i].m == m
  }

  lemma GroupedFirsts(found: seq<Found>, service: string, m: ApiMethod)
    ensures m in Lookup(Grouped(Firsts(found)), service) <==> FirstSays(found, service, m)
  {
    hide Lookup, Grouped, Firsts, MethodsFor, FirstAt;
    GroupedLookup(Firsts(found), service);
    MethodsForMembers(Firsts(found), service, m);
    if ListedFor(Firsts(found), service, m) {
      var f :| f in Firsts(found) && f.service == service && f.m == m;
      FirstsAreFirst(found, f);
    }
    if FirstSays(found, service, m) {
      var i :| 0 <= i < |found| && FirstAt(found, i) && found[i].service == service && found[i].m == m;
      FirstsAreFirst(found, found[i]);
    }
  }

  lemma {:induction false} NewMembers(ms: seq<ApiMethod>, seen: set<string>, m: ApiMethod)
    ensures m in NewMethods(ms, seen) <==> m in ms && KeyOf(m) !in seen
  {
    hide KeyOf;
    if ms != [] {
      var n := |ms| - 1;
      NewMembers(ms[..n], seen, m);
      assert ms == ms[..n] + [ms[n]];
    }
  }

  /** What the merged snapshot lists for a service: the methods that a leaf of this service was the first to
      declare, and those that a release note of this service was the first to mention and no article has. */
  lemma MergedContents(
    leaves: seq<Leaf>, endpoints: seq<seq<Endpoint>>, updates: seq<Update>, service: string, m: ApiMethod)
    ensures m in Lookup(Pipeline(leaves, endpoints, updates), service)
       <==> FirstSays(AllDeclared(leaves, endpoints), service, m)
            || (FirstSays(Mentioned(updates), service, m)
                && CopiesIn(ArticleServices(leaves, endpoints), Keyed(KeyOf(m))) == 0)
  {
    hide Lookup, Pipeline, Grouped, Firsts, NewMethods, FirstSays, SeenKeys, CopiesIn, KeyOf;
    var articles := ArticleServices(leaves, endpoints);
    ArticlesAreKept(leaves, endpoints, updates, service);
    GroupedFirsts(AllDeclared(leaves, endpoints), service, m);
    GroupedFirsts(Mentioned(updates), service, m);
    NewMembers(Lookup(NotesServices(updates), service), SeenKeys(articles), m);
    SeenIsCounted(articles, KeyOf(m));
  }

  // ---------------------------------------------------------------- when `_method_key` is unique too

  /** Declarations whose stored paths have one `_method_key` were deduplicated under one key. */
  ghost predicate KeysAgree(found: seq<Found>, key: string) {
    forall i, j :: 0 <= i < |found| && 0 <= j < |found| && KeyOf(found[i].m) == key && KeyOf(found[j].m) == key ==>
      found[i].key == found[j].key
  }

  ghost predicate KeyDetermines(found: seq<Found>) {
    forall i, j :: 0 <= i < |found| && 0 <= j < |found| && found[i].key == found[j].key ==>
      KeyOf(found[i].m) == KeyOf(found[j].m)
  }

  ghost predicate KeyStored(found: seq<Found>, key: string) {
    exists i :: 0 <= i < |found| && KeyOf(found[i].m) == key
  }

  lemma StoredSnoc(found: seq<Found>, last: Found, key: string)
    ensures KeyStored(found + [last], key) <==> KeyStored(found, key) || KeyOf(last.m) == key
  {
    hide KeyOf;
    var all := found + [last];
    if KeyStored(found, key) {
      var i :| 0 <= i < |found| && KeyOf(found[i].m) == key;
      assert all[i] == found[i];
    }
    assert all[|found|] == last;
  }

  lemma AgreeSnoc(found: seq<Found>, last: Found, key: string)
    requires KeyDetermines(found + [last])
    ensures KeyDetermines(found)
    ensures KeysAgree(found + [last], key) <==>
              KeysAgree(found, key) && (KeyOf(last.m) == key && !KeyIn(found, last.key) ==> !KeyStored(found, key))
  {
    hide KeyOf, KeyIn;
    var all := found + [last];
    KeyInMeaning(found, last.key);
    assert all[|found|] == last;
    forall i | 0 <= i < |found| ensures all[i] == found[i] {
    }
  }

  lemma {:induction false} FirstsStored(found: seq<Found>, key: string)
    requires KeyDetermines(found)
    ensures FoundCopies(Firsts(found), Keyed(key)) > 0 <==> KeyStored(found, key)
    ensures FoundCopies(Firsts(found), Keyed(key)) <= 1 <==> KeysAgree(found, key)
  {
    hide KeyOf, KeyIn, KeyStored, KeysAgree, KeyDetermines;
    if found == [] {
      NothingStored(key);
    } else {
      var init, last := found[..|found| - 1], found[|found| - 1];
      assert found == init + [last];
      AgreeSnoc(init, last, key);
      FirstsStored(init, key);
      StoredSnoc(init, last, key);
      KnownIsStored(init, last, key);
      var kept := Firsts(init) + [last];
      assert kept[..|kept| - 1] == Firsts(init);
    }
  }

  lemma NothingStored(key: string)
    ensures !KeyStored([], key) && KeysAgree([], key)
  {
  }

  /** An item dropped as a duplicate has the `_method_key` of an earlier one. */
  lemma KnownIsStored(found: seq<Found>, last: Found, key: string)
    requires KeyDetermines(found + [last])
    ensures KeyIn(found, last.key) && KeyOf(last.m) == key ==> KeyStored(found, key)
  {
    hide KeyOf, KeyIn;
    var all := found + [last];
    KeyInMeaning(found, last.key);
    if KeyIn(found, last.key) {
      var i :| 0 <= i < |found| && found[i].key == last.key;
      assert all[i] == found[i] && all[|found|] == last;
    }
  }

  /** An item keyed by a verb without a colon and the path it stores. */
  predicate PlainKey(f: Found) {
    ':' !in f.m.httpMethod && f.m.path.Some? && f.key == f.m.httpMethod + ":" + f.m.path.value
  }

  predicate PlainKeys(found: seq<Found>) {
    forall i :: 0 <= i < |found| ==> PlainKey(found[i])
  }

  predicate PlainVerbs(eps: seq<Endpoint>) {
    forall k :: 0 <= k < |eps| ==> ':' !in eps[k].httpMethod
  }

  /** HTTP verbs, as the endpoint extraction yields them. */
  predicate AllPlainVerbs(endpoints: seq<seq<Endpoint>>) {
    forall i :: 0 <= i < |endpoints| ==> PlainVerbs(endpoints[i])
  }

  lemma {:induction false} DeclaredInPlain(leaf: Leaf, eps: seq<Endpoint>)
    requires PlainVerbs(eps)
    ensures PlainKeys(DeclaredIn(leaf, eps))
  {
    if eps != [] {
      DeclaredInPlain(leaf, eps[..|eps| - 1]);
    }
  }

  lemma {:induction false} DeclaredPlain(leaves: seq<Leaf>, endpoints: seq<seq<Endpoint>>, n: nat)
    requires n <= |leaves| && n <= |endpoints| && AllPlainVerbs(endpoints)
    ensures PlainKeys(Declared(leaves, endpoints, n))
  {
    hide DeclaredIn, PlainKey, PlainVerbs;
    if n > 0 {
      DeclaredPlain(leaves, endpoints, n - 1);
      DeclaredInPlain(leaves[n - 1], endpoints[n - 1]);
    }
  }

  lemma {:induction false} ColonSplits(v: string, p: string, w: string, q: string)
    requires ':' !in v && ':' !in w && v + ":" + p == w + ":" + q
    ensures v == w && p == q
  {
    var left, right := v + ":" + p, w + ":" + q;
    assert left[|v|] == ':' && right[|w|] == ':';
    assert |v| == |w|;
    assert v == left[..|v|] == right[..|w|] == w;
    assert p == left[|v| + 1..] == right[|w| + 1..] == q;
  }

  lemma PlainPair(f: Found, g: Found)
    requires PlainKey(f) && PlainKey(g)
    ensures f.key == g.key <==> f.m.httpMethod == g.m.httpMethod && f.m.path == g.m.path
    ensures KeyOf(f.m) == KeyOf(g.m) <==>
              f.m.httpMethod == g.m.httpMethod && NormPath(f.m.path.value) == NormPath(g.m.path.value)
  {
    hide NormPath;
    if f.key == g.key {
      ColonSplits(f.m.httpMethod, f.m.path.value, g.m.httpMethod, g.m.path.value);
    }
    if KeyOf(f.m) == KeyOf(g.m) {
      ColonSplits(f.m.httpMethod, NormPath(f.m.path.value), g.m.httpMethod, NormPath(g.m.path.value));
    }
  }

  /** One declaration stores "/api" in front of what the other stores, for the same verb. */
  predicate PrefixPair(f: Found, g: Found) {
    f.m.httpMethod == g.m.httpMethod && f.m.path.Some? && g.m.path.Some? && Prefixes(f.m.path.value, g.m.path.value)
  }

  predicate NoPrefixPair(found: seq<Found>) {
    forall i, j :: 0 <= i < |found| && 0 <= j < |found| ==> !PrefixPair(found[i], found[j])
  }

  lemma PlainPairClash(f: Found, g: Found)
    requires PlainKey(f) && PlainKey(g)
    ensures f.key == g.key ==> KeyOf(f.m) == KeyOf(g.m)
    ensures KeyOf(f.m) == KeyOf(g.m) && f.key != g.key <==> PrefixPair(f, g) || PrefixPair(g, f)
  {
    hide NormPath, KeyOf, PlainKey;
    PlainPair(f, g);
    assert f.m.path.Some? && g.m.path.Some? by { PlainHasPath(f); PlainHasPath(g); }
    SameNormalForm(f.m.path.value, g.m.path.value);
  }

  lemma PlainHasPath(f: Found)
    requires PlainKey(f)
    ensures f.m.path.Some?
  {
  }

  ghost predicate AllAgree(found: seq<Found>) {
    forall key :: KeysAgree(found, key)
  }

  lemma AgreeIffNoPrefixPair(found: seq<Found>)
    requires PlainKeys(found)
    ensures KeyDetermines(found)
    ensures AllAgree(found) <==> NoPrefixPair(found)
  {
    hide PlainKey, KeyOf, PrefixPair;
    forall i, j | 0 <= i < |found| && 0 <= j < |found|
      ensures found[i].key == found[j].key ==> KeyOf(found[i].m) == KeyOf(found[j].m)
      ensures KeyOf(found[i].m) == KeyOf(found[j].m) && found[i].key != found[j].key
         <==> PrefixPair(found[i], found[j]) || PrefixPair(found[j], found[i])
    {
      PlainPairClash(found[i], found[j]);
    }
    if AllAgree(found) {
      forall i, j | 0 <= i < |found| && 0 <= j < |found| ensures !PrefixPair(found[i], found[j]) {
        assert KeysAgree(found, KeyOf(found[i].m));
      }
    }
  }

  ghost predicate KeyUnique(d: seq<ServiceEntry>) {
    forall key :: CopiesIn(d, Keyed(key)) <= 1
  }

  /** Stripping one "/api" is not idempotent, so a merged `_method_key` may still be shared: that happens
      exactly when two articles store paths for one verb of which one is "/api" before the other. */
  lemma KeysUniqueIff(leaves: seq<Leaf>, endpoints: seq<seq<Endpoint>>, updates: seq<Update>)
    requires AllPlainVerbs(endpoints)
    ensures KeyUnique(Pipeline(leaves, endpoints, updates)) <==> NoPrefixPair(AllDeclared(leaves, endpoints))
  {
    hide Pipeline, CopiesIn, Grouped, Firsts, FoundCopies, Declared, Mentioned, KeysAgree, KeyDetermines,
        NoPrefixPair, PlainKeys, KeyIn;
    var found := AllDeclared(leaves, endpoints);
    DeclaredPlain(leaves, endpoints, Zipped(leaves, endpoints));
    AgreeIffNoPrefixPair(found);
    forall key ensures CopiesIn(Pipeline(leaves, endpoints, updates), Keyed(key)) <= 1 <==> KeysAgree(found, key) {
      MergedKeyCount(leaves, endpoints, updates, key);
      GroupedCopies(Firsts(found), Keyed(key));
      FirstsStored(found, key);
    }
  }

  lemma TwoDeclared(leaf: Leaf, a: Endpoint, b: Endpoint)
    ensures AllDeclared([leaf], [[a, b]]) == [FromArticle(leaf, a), FromArticle(leaf, b)]
  {
    hide FromArticle;
    var eps := [a, b];
    assert eps[..1] == [a] && eps[..1][..0] == [];
    assert DeclaredIn(leaf, eps[..1]) == [FromArticle(leaf, a)];
    assert DeclaredIn(leaf, eps) == [FromArticle(leaf, a), FromArticle(leaf, b)];
    assert Declared([leaf], [eps], 0) == [];
  }

  lemma DoublePrefixStored(leaf: Leaf)
    ensures PrefixPair(FromArticle(leaf, Endpoint("GET", "/api/api/x", [])),
                       FromArticle(leaf, Endpoint("GET", "/x", [])))
  {
    hide HiddenReason;
    assert "/api/api/x"[..5] == "/api/" && "/api/api/x"[4..] == "/api/x" == "/api" + "/x";
    assert "/x"[..1] == "/";
  }

  /** Such a pair: "/api/api/x" is stored as "/api/x" beside "/x". */
  lemma DoublePrefixClash(leaf: Leaf)
    ensures !KeyUnique(Pipeline([leaf], [[Endpoint("GET", "/api/api/x", []), Endpoint("GET", "/x", [])]], []))
  {
    hide Pipeline, KeyUnique, FromArticle, AllDeclared, PrefixPair;
    var a, b := Endpoint("GET", "/api/api/x", []), Endpoint("GET", "/x", []);
    KeysUniqueIff([leaf], [[a, b]], []);
    TwoDeclared(leaf, a, b);
    DoublePrefixStored(leaf);
    var found := AllDeclared([leaf], [[a, b]]);
    assert PrefixPair(found[0], found[1]);
  }
}
