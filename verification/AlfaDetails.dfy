/** What the merged methods of the Alfa portal say, and which of them are hidden
    (bank_api_parser/parsers/alfabank_parser.py). */
module AlfaDetails {
  import opened Common
  import opened Text
  import opened Snapshot
  import opened AlfaTree
  import opened AlfaMerge
  import opened AlfaMergeLaws

  // ---------------------------------------------------------------- declarations and mentions

  /** The method an article's endpoint is stored as: hidden for a private article, else for one that is not
      visible, and for that reason. */
  ghost predicate FromLeaf(f: Found, leaf: Leaf, ep: Endpoint) {
    && f.service == leaf.service && f.key == ep.httpMethod + ":" + NormPath(ep.path)
    && f.m.httpMethod == ep.httpMethod && f.m.path == Some(NormPath(ep.path)) && f.m.summary == leaf.title
    && f.m.fields == Some(ep.fields)
    && f.m.url == PORTAL_BASE + DOCUMENTATION + leaf.path
    && (f.m.hidden <==> leaf.isPrivate || !leaf.visible)
    && f.m.hiddenReason
       == if leaf.isPrivate then Some("private") else if !leaf.visible then Some("superseded") else None
  }

  /** The endpoints of a leaf are declared in order. */
  lemma {:induction false} EndpointsInOrder(leaf: Leaf, eps: seq<Endpoint>)
    ensures |DeclaredIn(leaf, eps)| == |eps|
    ensures forall k :: 0 <= k < |eps| ==> FromLeaf(DeclaredIn(leaf, eps)[k], leaf, eps[k])
  {
    hide FromLeaf, FromArticle;
    if eps != [] {
      EndpointsInOrder(leaf, eps[..|eps| - 1]);
      ArticleSays(leaf, eps[|eps| - 1]);
    }
  }

  lemma ArticleSays(leaf: Leaf, ep: Endpoint)
    ensures FromLeaf(FromArticle(leaf, ep), leaf, ep)
  {
    hide NormPath, PORTAL_BASE, DOCUMENTATION;
  }

  /** Some endpoint of one of the first `n` leaves is this item. */
  ghost predicate DeclaredBy(leaves: seq<Leaf>, endpoints: seq<seq<Endpoint>>, n: nat, f: Found)
    requires n <= |leaves| && n <= |endpoints|
  {
    exists i, k :: 0 <= i < n && 0 <= k < |endpoints[i]| && FromLeaf(f, leaves[i], endpoints[i][k])
  }

  lemma {:induction false} DeclarationsAre(leaves: seq<Leaf>, endpoints: seq<seq<Endpoint>>, n: nat, f: Found)
    requires n <= |leaves| && n <= |endpoints| && f in Declared(leaves, endpoints, n)
    ensures DeclaredBy(leaves, endpoints, n, f)
  {
    hide FromLeaf, DeclaredIn;
    if f in Declared(leaves, endpoints, n - 1) {
      DeclarationsAre(leaves, endpoints, n - 1, f);
      var i, k :| 0 <= i < n - 1 && 0 <= k < |endpoints[i]| && FromLeaf(f, leaves[i], endpoints[i][k]);
    } else {
      EndpointsInOrder(leaves[n - 1], endpoints[n - 1]);
      var k :| 0 <= k < |endpoints[n - 1]| && DeclaredIn(leaves[n - 1], endpoints[n - 1])[k] == f;
      assert FromLeaf(f, leaves[n - 1], endpoints[n - 1][k]);
    }
  }

  /** The method a line of the release notes is stored as: hidden as a ghost. */
  ghost predicate FromLine(f: Found, u: Update, x: Mention) {
    && f.service == ServiceOf(u) && f.key == x.verb + ":" + NormPath(NormPath(x.path))
    && f.m.httpMethod == x.verb && f.m.path == Some(NormPath(x.path)) && f.m.fields == Some([])
    && f.m.summary == (if x.description == "" then x.verb + " " + NormPath(x.path) else x.description)
    && f.m.hidden && f.m.hiddenReason == Some("ghost") && f.m.url == u.portalUrl
  }

  lemma {:induction false} LinesInOrder(u: Update, xs: seq<Mention>)
    ensures |MentionedIn(u, xs)| == |xs|
    ensures forall k :: 0 <= k < |xs| ==> FromLine(MentionedIn(u, xs)[k], u, xs[k])
  {
    hide NormPath, ServiceOf;
    if xs != [] {
      LinesInOrder(u, xs[..|xs| - 1]);
    }
  }

  /** Some line of a block whose service is not ignored is this item. */
  ghost predicate MentionedBy(updates: seq<Update>, f: Found) {
    exists i, k :: 0 <= i < |updates| && 0 <= k < |updates[i].mentions|
      && !Ignored(updates[i]) && FromLine(f, updates[i], updates[i].mentions[k])
  }

  lemma {:induction false} MentionsAre(updates: seq<Update>, f: Found)
    requires f in Mentioned(updates)
    ensures MentionedBy(updates, f)
  {
    hide FromLine, MentionedIn, Ignored;
    var n := |updates| - 1;
    var u := updates[n];
    if f in Mentioned(updates[..n]) {
      MentionsAre(updates[..n], f);
      var i, k :| 0 <= i < n && 0 <= k < |updates[..n][i].mentions| && !Ignored(updates[..n][i])
        && FromLine(f, updates[..n][i], updates[..n][i].mentions[k]);
      assert updates[i] == updates[..n][i];
    } else {
      LinesInOrder(u, u.mentions);
      var k :| 0 <= k < |u.mentions| && MentionedIn(u, u.mentions)[k] == f;
      assert FromLine(f, updates[n], updates[n].mentions[k]);
    }
  }

  /** What the first leaves declare comes first. */
  lemma {:induction false} LeavesInOrder(leaves: seq<Leaf>, endpoints: seq<seq<Endpoint>>, m: nat, n: nat)
    requires m <= n <= |leaves| && n <= |endpoints|
    ensures |Declared(leaves, endpoints, m)| <= |Declared(leaves, endpoints, n)|
    ensures Declared(leaves, endpoints, n)[..|Declared(leaves, endpoints, m)|] == Declared(leaves, endpoints, m)
  {
    hide DeclaredIn;
    if m < n {
      LeavesInOrder(leaves, endpoints, m, n - 1);
    }
  }

  /** Every endpoint of a scanned leaf is declared. */
  lemma EveryEndpointDeclared(leaves: seq<Leaf>, endpoints: seq<seq<Endpoint>>, n: nat, i: nat, k: nat)
    requires i < n <= |leaves| && n <= |endpoints| && k < |endpoints[i]|
    ensures exists f :: f in Declared(leaves, endpoints, n) && FromLeaf(f, leaves[i], endpoints[i][k])
  {
    hide DeclaredIn, FromLeaf;
    EndpointsInOrder(leaves[i], endpoints[i]);
    LeavesInOrder(leaves, endpoints, i + 1, n);
    var f := DeclaredIn(leaves[i], endpoints[i])[k];
    var upTo := Declared(leaves, endpoints, i + 1);
    assert upTo == Declared(leaves, endpoints, i) + DeclaredIn(leaves[i], endpoints[i]) && f in upTo;
    var at :| 0 <= at < |upTo| && upTo[at] == f;
    assert Declared(leaves, endpoints, n)[..|upTo|][at] == f;
  }

  /** Every line of a block whose service is not ignored is mentioned. */
  lemma {:induction false} EveryLineMentioned(updates: seq<Update>, i: nat, k: nat)
    requires i < |updates| && k < |updates[i].mentions| && !Ignored(updates[i])
    ensures exists f :: f in Mentioned(updates) && FromLine(f, updates[i], updates[i].mentions[k])
  {
    hide MentionedIn, FromLine, Ignored;
    var n := |updates| - 1;
    if i < n {
      EveryLineMentioned(updates[..n], i, k);
      var f :| f in Mentioned(updates[..n]) && FromLine(f, updates[..n][i], updates[..n][i].mentions[k]);
      assert f in Mentioned(updates);
    } else {
      LinesInOrder(updates[i], updates[i].mentions);
      var f := MentionedIn(updates[i], updates[i].mentions)[k];
      assert f in Mentioned(updates);
    }
  }

  // ---------------------------------------------------------------- the merged methods

  ghost predicate SaidBy(
    leaves: seq<Leaf>, endpoints: seq<seq<Endpoint>>, updates: seq<Update>, service: string, m: ApiMethod, f: Found)
  {
    && f.service == service && f.m == m
    && (DeclaredBy(leaves, endpoints, Zipped(leaves, endpoints), f) || MentionedBy(updates, f))
  }

  /** Every merged method is an article's, visible exactly when the article is public and visible, or stands only
      in the release notes and is hidden as a ghost. */
  lemma MergedSays(
    leaves: seq<Leaf>, endpoints: seq<seq<Endpoint>>, updates: seq<Update>, service: string, m: ApiMethod)
    requires m in Lookup(Pipeline(leaves, endpoints, updates), service)
    ensures exists f :: SaidBy(leaves, endpoints, updates, service, m, f)
  {
    hide Lookup, Pipeline, Declared, Mentioned, DeclaredBy, MentionedBy, CopiesIn, KeyOf;
    MergedContents(leaves, endpoints, updates, service, m);
    var n := Zipped(leaves, endpoints);
    var declared, mentioned := AllDeclared(leaves, endpoints), Mentioned(updates);
    if FirstSays(declared, service, m) {
      var i :| 0 <= i < |declared| && FirstAt(declared, i) && declared[i].service == service && declared[i].m == m;
      DeclarationsAre(leaves, endpoints, n, declared[i]);
      assert SaidBy(leaves, endpoints, updates, service, m, declared[i]);
    } else {
      var i :| 0 <= i < |mentioned| && FirstAt(mentioned, i) && mentioned[i].service == service && mentioned[i].m == m;
      MentionsAre(updates, mentioned[i]);
      assert SaidBy(leaves, endpoints, updates, service, m, mentioned[i]);
    }
  }

  /** So the tables take every merged method: whatever is hidden names a reason they know. */
  lemma MergedIsStorable(
    leaves: seq<Leaf>, endpoints: seq<seq<Endpoint>>, updates: seq<Update>, service: string, m: ApiMethod)
    requires m in Lookup(Pipeline(leaves, endpoints, updates), service)
    ensures Storable(m)
  {
    hide Lookup, Pipeline, NormPath, ServiceOf, Ignored;
    MergedSays(leaves, endpoints, updates, service, m);
  }

  // ---------------------------------------------------------------- texts

  /** ".md" is taken out wherever it stands, from the front on. */
  lemma {:induction false} StripMdFirst(a: string, b: string)
    requires !Occurs(".md", a)
    ensures StripMd(a + ".md" + b) == a + StripMd(b)
  {
    var s := a + ".md" + b;
    if a == "" {
      assert s[..3] == ".md" && s[3..] == b;
    } else {
      NotAtFront(a, b);
      RestHasNone(a);
      StripMdFirst(a[1..], b);
      assert s[1..] == a[1..] + ".md" + b && s[0] == a[0];
      assert [a[0]] + (a[1..] + StripMd(b)) == a + StripMd(b);
    }
  }

  lemma {:induction false} StripMdNone(s: string)
    requires !Occurs(".md", s)
    ensures StripMd(s) == s
  {
    if |s| >= 3 {
      RestHasNone(s);
      StripMdNone(s[1..]);
      assert s[0..] == s && !StartsWith(s[0..], ".md");
      assert [s[0]] + s[1..] == s;
    }
  }

  lemma RestHasNone(a: string)
    requires a != "" && !Occurs(".md", a)
    ensures !Occurs(".md", a[1..])
  {
    forall i | 0 <= i <= |a| - 1 ensures !StartsWith(a[1..][i..], ".md") {
      assert a[1..][i..] == a[i + 1..];
    }
  }

  /** A new occurrence cannot begin in `a`: the three characters do not overlap themselves. */
  lemma NotAtFront(a: string, b: string)
    requires a != "" && !Occurs(".md", a)
    ensures (a + ".md" + b)[..3] != ".md"
  {
    var s := a + ".md" + b;
    if |a| >= 3 {
      assert s[..3] == a[..3] && a[0..] == a;
      assert !StartsWith(a[0..], ".md");
    } else if |a| == 2 {
      assert s[..3][2] == '.' && ".md"[2] == 'd';
    } else {
      assert s[..3][1] == '.' && ".md"[1] == 'm';
    }
  }

  function Blanked(tags: seq<string>): seq<string> {
    if tags == [] then [] else [" " + tags[0]] + Blanked(tags[1..])
  }

  lemma BlankFirst(text: string)
    ensures Split(" " + text, ',') == [" " + Split(text, ',')[0]] + Split(text, ',')[1..]
  {
    assert (" " + text)[1..] == text && (" " + text)[0] == ' ';
  }

  /** A service name taken apart at its commas gives back the tags, the later ones after a blank. */
  lemma {:induction false} TagsReadBack(tags: seq<string>)
    requires tags != [] && forall i :: 0 <= i < |tags| ==> ',' !in tags[i]
    ensures Split(JoinTags(tags), ',') == [tags[0]] + Blanked(tags[1..])
  {
    hide Split;
    if |tags| == 1 {
      SplitPiece(tags[0], ',');
    } else {
      var rest := JoinTags(tags[1..]);
      TagsReadBack(tags[1..]);
      assert tags[0] + ", " + rest == tags[0] + [','] + (" " + rest);
      SplitFirst(tags[0], " " + rest, ',');
      BlankFirst(rest);
      var parts := Split(rest, ',');
      assert parts[0] == tags[1] && parts[1..] == Blanked(tags[1..][1..]);
    }
  }
}
