/** The Alfa portal's methods: article scan, release notes, and their merge
    (bank_api_parser/parsers/alfabank_parser.py). */
module AlfaMerge {
  import opened Common
  import opened Text
  import opened Snapshot
  import opened AlfaTree

  const PORTAL_BASE := "https://developers.alfabank.ru"
  const DOCUMENTATION := "/products/alfa-api/documentation/"

  /** One operation of an article. */
  datatype Endpoint = Endpoint(httpMethod: string, path: string, fields: seq<string>)

  /** One line of the release notes that names a method. */
  datatype Mention = Mention(verb: string, path: string, description: string)

  /** One release-notes block. `folded` is its service name in lower case, `mentions` what its text names. */
  datatype Update = Update(tags: seq<string>, folded: string, portalUrl: string, mentions: seq<Mention>)

  const IGNORED_ARTICLES: set<string> := {
    "как выбрать выписку", "как получить файл выписки", "получение файла выписки", "как это работает",
    "введение", "introduction", "overview", "обзор"}

  function JoinTags(tags: seq<string>): string {
    if tags == [] then ""
    else if |tags| == 1 then tags[0]
    else tags[0] + ", " + JoinTags(tags[1..])
  }

  function ServiceOf(u: Update): string {
    if u.tags != [] then JoinTags(u.tags) else "API"
  }

  predicate Ignored(u: Update) {
    exists name :: name in IGNORED_ARTICLES && Occurs(name, u.folded)
  }

  /** A method as met during a scan, with the key it is deduplicated by. */
  datatype Found = Found(key: string, service: string, m: ApiMethod)

  // ---------------------------------------------------------------- paths and keys

  /** Drops one leading "/api" that a "/" follows. */
  function NormPath(path: string): string {
    if StartsWith(path, "/api/") then path[4..] else path
  }

  function MethodKey(verb: string, path: string): string {
    verb + ":" + NormPath(path)
  }

  function KeyOf(m: ApiMethod): string {
    MethodKey(m.httpMethod, if m.path.Some? then m.path.value else "")
  }

  /** `p` is `q` with "/api" before it, and that "/api" is the only one to strip. */
  predicate Prefixes(p: string, q: string) {
    p == "/api" + q && StartsWith(q, "/") && !StartsWith(q, "/api/")
  }

  lemma PrefixIsStripped(q: string)
    requires StartsWith(q, "/")
    ensures NormPath("/api" + q) == q
  {
    var p := "/api" + q;
    assert p[..5] == "/api/" by { assert q[0] == '/'; }
    assert p[4..] == q;
  }

  lemma StrippedRest(p: string)
    requires StartsWith(p, "/api/")
    ensures p == "/api" + NormPath(p) && StartsWith(NormPath(p), "/")
  {
    assert p[..4] == p[..5][..4] == "/api";
    assert p[4] == p[..5][4] == '/';
    assert p == p[..4] + p[4..];
  }

  lemma PrefixOfRest(q: string, prefix: string)
    ensures StartsWith("/api" + q, "/api" + prefix) <==> StartsWith(q, prefix)
  {
    var n := |prefix|;
    if |q| >= n {
      assert ("/api" + q)[..4 + n] == "/api" + q[..n];
      assert ("/api" + q[..n])[4..] == q[..n] && ("/api" + prefix)[4..] == prefix;
    }
  }

  lemma ShorterPrefix(p: string)
    ensures StartsWith(p, "/api/api/") ==> StartsWith(p, "/api/")
  {
    if StartsWith(p, "/api/api/") {
      assert p[..5] == p[..9][..5] == "/api/";
    }
  }

  /** Stripping a second time changes nothing exactly when the path does not start with "/api/api/". */
  lemma StripTwice(p: string)
    ensures NormPath(NormPath(p)) == NormPath(p) <==> !StartsWith(p, "/api/api/")
  {
    assert "/api/api/" == "/api" + "/api/";
    if StartsWith(p, "/api/") {
      StrippedRest(p);
      PrefixOfRest(NormPath(p), "/api/");
    } else {
      ShorterPrefix(p);
    }
  }

  /** Two paths have the same normal form exactly when they are equal or one is the other after "/api". */
  lemma SameNormalForm(p: string, q: string)
    ensures NormPath(p) == NormPath(q) <==> p == q || Prefixes(p, q) || Prefixes(q, p)
  {
    if StartsWith(p, "/api/") {
      StrippedRest(p);
    }
    if StartsWith(q, "/api/") {
      StrippedRest(q);
    }
    if Prefixes(p, q) {
      PrefixIsStripped(q);
    }
    if Prefixes(q, p) {
      PrefixIsStripped(p);
    }
  }

  // ---------------------------------------------------------------- a dictionary of lists

  /** Methods listed under a service. */
  function Lookup(d: seq<ServiceEntry>, service: string): seq<ApiMethod> {
    if d == [] then []
    else if d[0].name == service then d[0].methods
    else Lookup(d[1..], service)
  }

  /** The dictionary with `ms` after what the service already has; a new service goes last. */
  function Append(d: seq<ServiceEntry>, service: string, ms: seq<ApiMethod>): seq<ServiceEntry> {
    if d == [] then [ServiceEntry(service, ms)]
    else if d[0].name == service then [ServiceEntry(service, d[0].methods + ms)] + d[1..]
    else [d[0]] + Append(d[1..], service, ms)
  }

  lemma {:induction false} AppendLookup(d: seq<ServiceEntry>, service: string, ms: seq<ApiMethod>, other: string)
    ensures Lookup(Append(d, service, ms), other) == Lookup(d, other) + if other == service then ms else []
  {
    if d != [] && d[0].name != service {
      AppendLookup(d[1..], service, ms, other);
    }
  }

  predicate HasName(d: seq<ServiceEntry>, service: string) {
    d != [] && (d[0].name == service || HasName(d[1..], service))
  }

  /** No service occurs twice. */
  predicate IsDict(d: seq<ServiceEntry>) {
    d == [] || (!HasName(d[1..], d[0].name) && IsDict(d[1..]))
  }

  lemma {:induction false} AppendNames(d: seq<ServiceEntry>, service: string, ms: seq<ApiMethod>, other: string)
    ensures HasName(Append(d, service, ms), other) <==> HasName(d, other) || other == service
  {
    if d != [] && d[0].name != service {
      AppendNames(d[1..], service, ms, other);
    }
  }

  lemma {:induction false} AppendIsDict(d: seq<ServiceEntry>, service: string, ms: seq<ApiMethod>)
    requires IsDict(d)
    ensures IsDict(Append(d, service, ms))
  {
    if d != [] && d[0].name != service {
      AppendIsDict(d[1..], service, ms);
      AppendNames(d[1..], service, ms, d[0].name);
    }
  }

  // ---------------------------------------------------------------- counting

  /** A way to tell methods apart: by verb and stored path, or by `_method_key`. */
  datatype Id = Stored(verb: string, path: string) | Keyed(key: string)

  predicate Has(m: ApiMethod, id: Id) {
    match id
    case Stored(verb, path) => m.httpMethod == verb && m.path == Some(path)
    case Keyed(key) => KeyOf(m) == key
  }

  function Copies(ms: seq<ApiMethod>, id: Id): nat {
    if ms == [] then 0
    else Copies(ms[..|ms| - 1], id) + if Has(ms[|ms| - 1], id) then 1 else 0
  }

  /** How many methods of the whole dictionary have `id`. */
  function CopiesIn(d: seq<ServiceEntry>, id: Id): nat {
    if d == [] then 0 else Copies(d[0].methods, id) + CopiesIn(d[1..], id)
  }

  lemma {:induction false} CopiesConcat(a: seq<ApiMethod>, b: seq<ApiMethod>, id: Id)
    ensures Copies(a + b, id) == Copies(a, id) + Copies(b, id)
  {
    hide Has;
    if b == [] {
      assert a + b == a;
    } else {
      CopiesConcat(a, b[..|b| - 1], id);
      assert (a + b)[..|a + b| - 1] == a + b[..|b| - 1];
    }
  }

  lemma {:induction false} AppendCopies(d: seq<ServiceEntry>, service: string, ms: seq<ApiMethod>, id: Id)
    ensures CopiesIn(Append(d, service, ms), id) == CopiesIn(d, id) + Copies(ms, id)
  {
    hide Has, Copies;
    if d == [] {
      assert [ServiceEntry(service, ms)][1..] == [];
    } else if d[0].name == service {
      CopiesConcat(d[0].methods, ms, id);
    } else {
      AppendCopies(d[1..], service, ms, id);
    }
  }

  // ---------------------------------------------------------------- first of each key

  predicate KeyIn(found: seq<Found>, key: string) {
    found != [] && (found[|found| - 1].key == key || KeyIn(found[..|found| - 1], key))
  }

  /** What deduplication keeps. */
  function Firsts(found: seq<Found>): seq<Found> {
    if found == [] then []
    else
      var n := |found| - 1;
      if KeyIn(found[..n], found[n].key) then Firsts(found[..n]) else Firsts(found[..n]) + [found[n]]
  }

  /** Listed by service, services in the order they first occur. */
  function Grouped(found: seq<Found>): seq<ServiceEntry> {
    if found == [] then []
    else
      var last := found[|found| - 1];
      Append(Grouped(found[..|found| - 1]), last.service, [last.m])
  }

  /** Element `i` is the first with its key. */
  ghost predicate FirstAt(found: seq<Found>, i: int) {
    0 <= i < |found| && forall j :: 0 <= j < i ==> found[j].key != found[i].key
  }

  lemma {:induction false} KeyInMeaning(found: seq<Found>, key: string)
    ensures KeyIn(found, key) <==> exists i :: 0 <= i < |found| && found[i].key == key
  {
    if found != [] {
      var init := found[..|found| - 1];
      KeyInMeaning(init, key);
      if i :| 0 <= i < |init| && init[i].key == key {
        assert found[i].key == key;
      }
      forall i | 0 <= i < |init| ensures init[i] == found[i] {
      }
    }
  }

  ghost predicate KeptFirst(found: seq<Found>, f: Found) {
    exists i :: 0 <= i < |found| && FirstAt(found, i) && found[i] == f
  }

  lemma FirstAtSnoc(found: seq<Found>, last: Found, i: nat)
    requires i < |found|
    ensures FirstAt(found + [last], i) <==> FirstAt(found, i)
  {
    var all := found + [last];
    assert all[i] == found[i];
    forall j | 0 <= j < i ensures all[j] == found[j] {
    }
  }

  lemma LastIsFirst(found: seq<Found>, last: Found)
    ensures FirstAt(found + [last], |found|) <==> !KeyIn(found, last.key)
  {
    hide KeyIn;
    KeyInMeaning(found, last.key);
    var all := found + [last];
    if FirstAt(all, |found|) {
      forall j | 0 <= j < |found| ensures found[j].key != last.key {
        assert all[j] == found[j];
      }
    }
  }

  lemma KeptFirstSnoc(found: seq<Found>, last: Found, f: Found)
    ensures KeptFirst(found + [last], f) <==> KeptFirst(found, f) || (f == last && !KeyIn(found, last.key))
  {
    hide FirstAt, KeyIn;
    var all := found + [last];
    LastIsFirst(found, last);
    if KeptFirst(found, f) {
      var i :| 0 <= i < |found| && FirstAt(found, i) && found[i] == f;
      FirstAtSnoc(found, last, i);
      assert all[i] == f;
    }
    if KeptFirst(all, f) {
      var i :| 0 <= i < |all| && FirstAt(all, i) && all[i] == f;
      if i < |found| {
        FirstAtSnoc(found, last, i);
        assert found[i] == f;
      }
    }
    assert all[|found|] == last;
  }

  /** Each key belongs to its first occurrence. */
  lemma {:induction false} FirstsAreFirst(found: seq<Found>, f: Found)
    ensures f in Firsts(found) <==> KeptFirst(found, f)
  {
    hide FirstAt, KeptFirst, KeyIn;
    if found == [] {
      NothingKept(f);
    } else {
      var n := |found| - 1;
      FirstsAreFirst(found[..n], f);
      KeptFirstSnoc(found[..n], found[n], f);
      assert found == found[..n] + [found[n]];
    }
  }

  lemma NothingKept(f: Found)
    ensures !KeptFirst([], f)
  {
  }

  function MethodsFor(found: seq<Found>, service: string): seq<ApiMethod> {
    if found == [] then []
    else
      var n := |found| - 1;
      if found[n].service == service then MethodsFor(found[..n], service) + [found[n].m]
      else MethodsFor(found[..n], service)
  }

  lemma {:induction false} GroupedLookup(found: seq<Found>, service: string)
    ensures IsDict(Grouped(found))
    ensures Lookup(Grouped(found), service) == MethodsFor(found, service)
  {
    hide Append, Lookup;
    if found == [] {
      LookupNone(service);
    } else {
      var init, last := found[..|found| - 1], found[|found| - 1];
      GroupedLookup(init, service);
      AppendLookup(Grouped(init), last.service, [last.m], service);
      AppendIsDict(Grouped(init), last.service, [last.m]);
    }
  }

  lemma LookupNone(service: string)
    ensures Lookup([], service) == []
  {
  }

  ghost predicate ListedFor(found: seq<Found>, service: string, m: ApiMethod) {
    exists f :: f in found && f.service == service && f.m == m
  }

  lemma {:induction false} MethodsForMembers(found: seq<Found>, service: string, m: ApiMethod)
    ensures m in MethodsFor(found, service) <==> ListedFor(found, service, m)
  {
    if found != [] {
      var n := |found| - 1;
      MethodsForMembers(found[..n], service, m);
      assert found == found[..n] + [found[n]];
    }
  }

  // ---------------------------------------------------------------- how often an identity is kept

  /** Whatever has identity `id` was deduplicated under `key`. */
  ghost predicate Under(found: seq<Found>, id: Id, key: string) {
    forall i :: 0 <= i < |found| && Has(found[i].m, id) ==> found[i].key == key
  }

  function FoundCopies(found: seq<Found>, id: Id): nat {
    if found == [] then 0
    else FoundCopies(found[..|found| - 1], id) + if Has(found[|found| - 1].m, id) then 1 else 0
  }

  lemma {:induction false} GroupedCopies(found: seq<Found>, id: Id)
    ensures CopiesIn(Grouped(found), id) == FoundCopies(found, id)
  {
    hide Has, Append, CopiesIn, Copies;
    if found == [] {
      NoCopies(id);
    } else {
      var init, last := found[..|found| - 1], found[|found| - 1];
      GroupedCopies(init, id);
      AppendCopies(Grouped(init), last.service, [last.m], id);
      OneCopy(last.m, id);
    }
  }

  lemma NoCopies(id: Id)
    ensures CopiesIn([], id) == 0
  {
  }

  lemma OneCopy(m: ApiMethod, id: Id)
    ensures Copies([m], id) == if Has(m, id) then 1 else 0
  {
    assert [m][..0] == [];
  }

  lemma {:induction false} KeptAtMostOnce(found: seq<Found>, id: Id, key: string)
    requires Under(found, id, key)
    ensures FoundCopies(Firsts(found), id) <= if KeyIn(found, key) then 1 else 0
  {
    hide Has;
    if found != [] {
      var n := |found| - 1;
      assert Under(found[..n], id, key);
      KeptAtMostOnce(found[..n], id, key);
      var kept := Firsts(found[..n]) + [found[n]];
      assert kept[..|kept| - 1] == Firsts(found[..n]);
    }
  }

  /** Each item's key is the `_method_key` of the method it stores. */
  ghost predicate OwnKeys(found: seq<Found>) {
    forall i :: 0 <= i < |found| ==> found[i].key == KeyOf(found[i].m)
  }

  /** Then a key that occurs is kept exactly once. */
  lemma {:induction false} KeptExactlyOnce(found: seq<Found>, key: string)
    requires OwnKeys(found)
    ensures FoundCopies(Firsts(found), Keyed(key)) == if KeyIn(found, key) then 1 else 0
  {
    hide KeyOf;
    if found != [] {
      var n := |found| - 1;
      assert OwnKeys(found[..n]);
      KeptExactlyOnce(found[..n], key);
      var kept := Firsts(found[..n]) + [found[n]];
      assert kept[..|kept| - 1] == Firsts(found[..n]);
    }
  }

  // ---------------------------------------------------------------- the article scan

  /** Why the methods of a leaf article stay off the public dashboard; private wins over superseded. */
  function HiddenReason(leaf: Leaf): Option<string> {
    if leaf.isPrivate then Some("private") else if !leaf.visible then Some("superseded") else None
  }

  function FromArticle(leaf: Leaf, ep: Endpoint): Found {
    var reason := HiddenReason(leaf);
    Found(MethodKey(ep.httpMethod, ep.path), leaf.service,
          ApiMethod(ep.httpMethod, Some(NormPath(ep.path)), leaf.title, PORTAL_BASE + DOCUMENTATION + leaf.path,
                    Some(ep.fields), reason.Some?, reason))
  }

  function DeclaredIn(leaf: Leaf, eps: seq<Endpoint>): seq<Found> {
    if eps == [] then []
    else DeclaredIn(leaf, eps[..|eps| - 1]) + [FromArticle(leaf, eps[|eps| - 1])]
  }

  /** Everything the first `n` leaves declare, in order. */
  function Declared(leaves: seq<Leaf>, endpoints: seq<seq<Endpoint>>, n: nat): seq<Found>
    requires n <= |leaves| && n <= |endpoints|
  {
    if n == 0 then [] else Declared(leaves, endpoints, n - 1) + DeclaredIn(leaves[n - 1], endpoints[n - 1])
  }

  /** `zip` stops at the shorter list. */
  function Zipped(leaves: seq<Leaf>, endpoints: seq<seq<Endpoint>>): (n: nat)
    ensures n <= |leaves| && n <= |endpoints| && (n == |leaves| || n == |endpoints|)
  {
    if |leaves| < |endpoints| then |leaves| else |endpoints|
  }

  function AllDeclared(leaves: seq<Leaf>, endpoints: seq<seq<Endpoint>>): seq<Found> {
    Declared(leaves, endpoints, Zipped(leaves, endpoints))
  }

  /** The two shared accumulators after `found` has been scanned. */
  ghost predicate Scanned(services: seq<ServiceEntry>, seen: set<string>, found: seq<Found>) {
    services == Grouped(Firsts(found)) && forall k :: k in seen <==> KeyIn(found, k)
  }

  lemma ScanOne(services: seq<ServiceEntry>, seen: set<string>, found: seq<Found>, f: Found)
    requires Scanned(services, seen, found)
    ensures f.key in seen ==> Scanned(services, seen, found + [f])
    ensures f.key !in seen ==> Scanned(Append(services, f.service, [f.m]), seen + {f.key}, found + [f])
  {
    hide Append;
    var all := found + [f];
    assert all[..|all| - 1] == found;
    if f.key !in seen {
      var kept := Firsts(found) + [f];
      assert kept[..|kept| - 1] == Firsts(found);
      assert Firsts(all) == kept;
    }
  }

  method MethodsFromEndpoints(leaves: seq<Leaf>, endpoints: seq<seq<Endpoint>>) returns (services: seq<ServiceEntry>)
    ensures services == Grouped(Firsts(AllDeclared(leaves, endpoints)))
  {
    hide Grouped, Firsts, KeyIn, Scanned, Append;
    services := [];
    var seen: set<string> := {};
    ScanNothing();
    var n := Zipped(leaves, endpoints);
    for i := 0 to n
      invariant Scanned(services, seen, Declared(leaves, endpoints, i))
    {
      var leaf, eps := leaves[i], endpoints[i];
      ghost var before := Declared(leaves, endpoints, i);
      assert before + DeclaredIn(leaf, eps[..0]) == before;
      for k := 0 to |eps|
        invariant Scanned(services, seen, before + DeclaredIn(leaf, eps[..k]))
      {
        var f := FromArticle(leaf, eps[k]);
        ScanOne(services, seen, before + DeclaredIn(leaf, eps[..k]), f);
        assert eps[..k + 1][..k] == eps[..k];
        assert before + DeclaredIn(leaf, eps[..k + 1]) == before + DeclaredIn(leaf, eps[..k]) + [f];
        if f.key !in seen {
          seen := seen + {f.key};
          services := Append(services, f.service, [f.m]);
        }
      }
      assert eps[..|eps|] == eps;
    }
    ScanResult(services, seen, AllDeclared(leaves, endpoints));
  }

  lemma ScanNothing()
    ensures Scanned([], {}, [])
  {
  }

  lemma ScanResult(services: seq<ServiceEntry>, seen: set<string>, found: seq<Found>)
    requires Scanned(services, seen, found)
    ensures services == Grouped(Firsts(found))
  {
  }

  // ---------------------------------------------------------------- the release notes

  /** The path is stripped once to be stored and once more inside the key. */
  function FromNotes(update: Update, x: Mention): Found {
    var path := NormPath(x.path);
    Found(MethodKey(x.verb, path), ServiceOf(update),
          ApiMethod(x.verb, Some(path), if x.description != "" then x.description else x.verb + " " + path,
                    update.portalUrl, Some([]), true, Some("ghost")))
  }

  function MentionedIn(update: Update, xs: seq<Mention>): seq<Found> {
    if xs == [] then [] else MentionedIn(update, xs[..|xs| - 1]) + [FromNotes(update, xs[|xs| - 1])]
  }

  /** Everything the release notes mention, in order. */
  function Mentioned(updates: seq<Update>): seq<Found> {
    if updates == [] then []
    else
      var u := updates[|updates| - 1];
      var before := Mentioned(updates[..|updates| - 1]);
      if Ignored(u) then before else before + MentionedIn(u, u.mentions)
  }

  /** One block, on the accumulators shared by all of them. */
  method CollectUpdate(u: Update, before: seq<ServiceEntry>, known: set<string>, ghost past: seq<Found>)
    returns (services: seq<ServiceEntry>, seen: set<string>)
    requires Scanned(before, known, past)
    ensures Scanned(services, seen, if Ignored(u) then past else past + MentionedIn(u, u.mentions))
  {
    hide Grouped, Firsts, KeyIn, Scanned, Append;
    services, seen := before, known;
    if Ignored(u) {
      return;
    }
    assert past + MentionedIn(u, u.mentions[..0]) == past;
    for k := 0 to |u.mentions|
      invariant Scanned(services, seen, past + MentionedIn(u, u.mentions[..k]))
    {
      var f := FromNotes(u, u.mentions[k]);
      ScanOne(services, seen, past + MentionedIn(u, u.mentions[..k]), f);
      assert u.mentions[..k + 1][..k] == u.mentions[..k];
      assert past + MentionedIn(u, u.mentions[..k + 1]) == past + MentionedIn(u, u.mentions[..k]) + [f];
      if f.key !in seen {
        seen := seen + {f.key};
        services := Append(services, f.service, [f.m]);
      }
    }
    assert u.mentions[..|u.mentions|] == u.mentions;
  }

  method CollectReleaseNotes(updates: seq<Update>) returns (services: seq<ServiceEntry>)
    ensures services == Grouped(Firsts(Mentioned(updates)))
  {
    hide Grouped, Firsts, KeyIn, Scanned, Append;
    services := [];
    var seen: set<string> := {};
    ScanNothing();
    for n := 0 to |updates|
      invariant Scanned(services, seen, Mentioned(updates[..n]))
    {
      assert updates[..n + 1][..n] == updates[..n];
      services, seen := CollectUpdate(updates[n], services, seen, Mentioned(updates[..n]));
    }
    assert updates[..|updates|] == updates;
    ScanResult(services, seen, Mentioned(updates));
  }

  // ---------------------------------------------------------------- the merge

  function KeysOf(ms: seq<ApiMethod>): set<string> {
    if ms == [] then {} else KeysOf(ms[..|ms| - 1]) + {KeyOf(ms[|ms| - 1])}
  }

  /** The keys of all stored article methods; computed once, before anything is merged. */
  function SeenKeys(d: seq<ServiceEntry>): set<string> {
    if d == [] then {} else SeenKeys(d[..|d| - 1]) + KeysOf(d[|d| - 1].methods)
  }

  function NewMethods(ms: seq<ApiMethod>, seen: set<string>): seq<ApiMethod> {
    if ms == [] then []
    else
      var n := |ms| - 1;
      if KeyOf(ms[n]) in seen then NewMethods(ms[..n], seen) else NewMethods(ms[..n], seen) + [ms[n]]
  }

  function MergeInto(articles: seq<ServiceEntry>, notes: seq<ServiceEntry>, seen: set<string>): seq<ServiceEntry> {
    if notes == [] then articles
    else
      var last := notes[|notes| - 1];
      var merged := MergeInto(articles, notes[..|notes| - 1], seen);
      var added := NewMethods(last.methods, seen);
      if added == [] then merged else Append(merged, last.name, added)
  }

  function Merge(articles: seq<ServiceEntry>, notes: seq<ServiceEntry>): seq<ServiceEntry> {
    MergeInto(articles, notes, SeenKeys(articles))
  }

  method MergeReleaseNotes(articles: seq<ServiceEntry>, notes: seq<ServiceEntry>) returns (merged: seq<ServiceEntry>)
    ensures merged == Merge(articles, notes)
  {
    hide Append, KeyOf;
    var seen: set<string> := {};
    for n := 0 to |articles|
      invariant seen == SeenKeys(articles[..n])
    {
      assert articles[..n + 1][..n] == articles[..n];
      var ms := articles[n].methods;
      ghost var before := seen;
      for k := 0 to |ms|
        invariant seen == before + KeysOf(ms[..k])
      {
        assert ms[..k + 1][..k] == ms[..k];
        seen := seen + {KeyOf(ms[k])};
      }
      assert ms[..|ms|] == ms;
    }
    assert articles[..|articles|] == articles;
    merged := articles;
    for n := 0 to |notes|
      invariant merged == MergeInto(articles, notes[..n], seen)
    {
      assert notes[..n + 1][..n] == notes[..n];
      var methods := notes[n].methods;
      var added: seq<ApiMethod> := [];
      for k := 0 to |methods|
        invariant added == NewMethods(methods[..k], seen)
      {
        assert methods[..k + 1][..k] == methods[..k];
        if KeyOf(methods[k]) !in seen {
          added := added + [methods[k]];
        }
      }
      assert methods[..|methods|] == methods;
      if added != [] {
        merged := Append(merged, notes[n].name, added);
      }
    }
    assert notes[..|notes|] == notes;
  }

  /** Articles first, then what only the release notes have. */
  function Pipeline(leaves: seq<Leaf>, endpoints: seq<seq<Endpoint>>, updates: seq<Update>): seq<ServiceEntry> {
    Merge(Grouped(Firsts(AllDeclared(leaves, endpoints))), Grouped(Firsts(Mentioned(updates))))
  }
}
