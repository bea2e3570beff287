/** Leaf articles of the Alfa portal's tree, `_collect_leaf_articles` (bank_api_parser/parsers/alfabank_parser.py). */
module AlfaTree {
  import opened Common

  /** One node of the article tree; `path` still carries its ".md". */
  datatype Article = Article(title: string, path: string, tags: seq<string>, visible: bool, children: seq<Article>)

  datatype Leaf = Leaf(service: string, title: string, path: string, isPrivate: bool, visible: bool)

  /** `path.replace(".md", "")`. */
  function StripMd(s: string): string {
    if |s| < 3 then s
    else if s[..3] == ".md" then StripMd(s[3..])
    else [s[0]] + StripMd(s[1..])
  }

  /** Python's `a or b or c` on names; None and "" are both skipped. */
  function FirstNamed(a: Option<string>, b: string, c: string): string {
    if a.Some? && a.value != "" then a.value else if b != "" then b else c
  }

  function ServiceFor(item: Article, service: Option<string>): Option<string> {
    if "service" in item.tags then Some(item.title) else service
  }

  function LeafOf(item: Article, service: Option<string>, parentTitle: string, isPrivate: bool): Leaf {
    Leaf(FirstNamed(ServiceFor(item, service), parentTitle, item.title), item.title, StripMd(item.path),
         isPrivate || "private" in item.tags, item.visible)
  }

  /** The walk, with what is inherited from above. */
  function Collect(items: seq<Article>, service: Option<string>, parentTitle: string, isPrivate: bool): seq<Leaf>
    decreases items
  {
    if items == [] then []
    else
      var n := |items| - 1;
      Collect(items[..n], service, parentTitle, isPrivate) + CollectItem(items[n], service, parentTitle, isPrivate)
  }

  function CollectItem(item: Article, service: Option<string>, parentTitle: string, isPrivate: bool): seq<Leaf>
    decreases item
  {
    if item.children != [] then
      Collect(item.children, ServiceFor(item, service), item.title, isPrivate || "private" in item.tags)
    else if StripMd(item.path) != "" then [LeafOf(item, service, parentTitle, isPrivate)]
    else []
  }

  method CollectLeafArticles(items: seq<Article>, service: Option<string>, parentTitle: string, isPrivate: bool)
    returns (leaves: seq<Leaf>)
    ensures leaves == Collect(items, service, parentTitle, isPrivate)
    decreases items
  {
    leaves := [];
    for n := 0 to |items|
      invariant leaves == Collect(items[..n], service, parentTitle, isPrivate)
    {
      assert items[..n + 1][..n] == items[..n];
      var item := items[n];
      var path := StripMd(item.path);
      var itemPrivate := isPrivate || "private" in item.tags;
      var svc := if "service" in item.tags then Some(item.title) else service;
      if item.children != [] {
        var below := CollectLeafArticles(item.children, svc, item.title, itemPrivate);
        leaves := leaves + below;
      } else if path != "" {
        leaves := leaves + [Leaf(FirstNamed(svc, parentTitle, item.title), item.title, path, itemPrivate,
                                 item.visible)];
      }
    }
    assert items[..|items|] == items;
  }

  // ---------------------------------------------------------------- the same, by root paths

  /** Every path from `above` down to a childless node with a path, in document order. */
  function LeafPaths(items: seq<Article>, above: seq<Article>): seq<seq<Article>>
    decreases items
  {
    if items == [] then []
    else
      var n := |items| - 1;
      LeafPaths(items[..n], above) + LeafPathsOf(items[n], above)
  }

  function LeafPathsOf(item: Article, above: seq<Article>): seq<seq<Article>>
    decreases item
  {
    if item.children != [] then LeafPaths(item.children, above + [item])
    else if StripMd(item.path) != "" then [above + [item]]
    else []
  }

  /** Title of the nearest node, from the end, that is tagged as a service. */
  function NearestService(path: seq<Article>): Option<string> {
    if path == [] then None
    else if "service" in path[|path| - 1].tags then Some(path[|path| - 1].title)
    else NearestService(path[..|path| - 1])
  }

  predicate AnyPrivate(path: seq<Article>) {
    path != [] && ("private" in path[|path| - 1].tags || AnyPrivate(path[..|path| - 1]))
  }

  function ParentTitle(path: seq<Article>): string {
    if |path| < 2 then "" else path[|path| - 2].title
  }

  /** The leaf at the end of a root path, read off the path alone. */
  function LeafAt(path: seq<Article>): Leaf
    requires path != []
  {
    var item := path[|path| - 1];
    Leaf(FirstNamed(NearestService(path), ParentTitle(path), item.title),
         item.title, StripMd(item.path), AnyPrivate(path), item.visible)
  }

  function LeavesAt(paths: seq<seq<Article>>): seq<Leaf> {
    if paths == [] then []
    else
      var last := paths[|paths| - 1];
      if last == [] then LeavesAt(paths[..|paths| - 1]) else LeavesAt(paths[..|paths| - 1]) + [LeafAt(last)]
  }

  ghost predicate TitledPath(path: seq<Article>) {
    forall i :: 0 <= i < |path| ==> path[i].title != ""
  }

  lemma {:induction false} LeavesConcat(a: seq<seq<Article>>, b: seq<seq<Article>>)
    ensures LeavesAt(a + b) == LeavesAt(a) + LeavesAt(b)
  {
    hide LeafAt, NearestService, AnyPrivate;
    if b == [] {
      assert a + b == a;
    } else {
      LeavesConcat(a, b[..|b| - 1]);
      LeavesConcatSnoc(a, b[..|b| - 1], b[|b| - 1]);
      assert b == b[..|b| - 1] + [b[|b| - 1]];
    }
  }

  lemma LeavesConcatSnoc(a: seq<seq<Article>>, b: seq<seq<Article>>, last: seq<Article>)
    requires LeavesAt(a + b) == LeavesAt(a) + LeavesAt(b)
    ensures LeavesAt(a + (b + [last])) == LeavesAt(a) + LeavesAt(b + [last])
  {
    hide LeafAt, LeavesAt, NearestService, AnyPrivate;
    LeavesSnoc(a + b, last);
    LeavesSnoc(b, last);
    assert a + (b + [last]) == (a + b) + [last];
  }

  lemma LeavesSnoc(paths: seq<seq<Article>>, last: seq<Article>)
    ensures LeavesAt(paths + [last]) == LeavesAt(paths) + if last == [] then [] else [LeafAt(last)]
  {
    hide LeafAt, NearestService, AnyPrivate;
    var all := paths + [last];
    assert all[..|all| - 1] == paths;
  }

  lemma OneStep(above: seq<Article>, item: Article)
    ensures (above + [item])[..|above|] == above
    ensures NearestService(above + [item]) == ServiceFor(item, NearestService(above))
    ensures AnyPrivate(above + [item]) == (AnyPrivate(above) || "private" in item.tags)
  {
    assert (above + [item])[..|above|] == above;
  }

  function TitleAbove(above: seq<Article>): string {
    if above == [] then "" else above[|above| - 1].title
  }

  /** What the walk inherits at any node is what the path above the node says. */
  lemma {:induction false} CollectByPaths(items: seq<Article>, above: seq<Article>)
    ensures Collect(items, NearestService(above), TitleAbove(above), AnyPrivate(above))
         == LeavesAt(LeafPaths(items, above))
    decreases items
  {
    if items != [] {
      var n := |items| - 1;
      CollectByPaths(items[..n], above);
      ItemByPaths(items[n], above);
      LeavesConcat(LeafPaths(items[..n], above), LeafPathsOf(items[n], above));
    }
  }

  lemma {:induction false} ItemByPaths(item: Article, above: seq<Article>)
    ensures CollectItem(item, NearestService(above), TitleAbove(above), AnyPrivate(above))
         == LeavesAt(LeafPathsOf(item, above))
    decreases item
  {
    hide NearestService, AnyPrivate, StripMd;
    var path := above + [item];
    OneStep(above, item);
    if item.children != [] {
      CollectByPaths(item.children, path);
    } else if StripMd(item.path) != "" {
      LeafOnItsOwn(path);
    }
  }

  lemma LeafOnItsOwn(path: seq<Article>)
    requires path != []
    ensures LeavesAt([path]) == [LeafAt(path)]
  {
    var one := [path];
    assert one[..|one| - 1] == [];
    assert LeavesAt(one) == LeavesAt([]) + [LeafAt(path)];
  }

  /** For any tree the result is, in document order, the leaves at the ends of the root paths. */
  lemma LeavesArePathLeaves(items: seq<Article>)
    ensures Collect(items, None, "", false) == LeavesAt(LeafPaths(items, []))
  {
    CollectByPaths(items, []);
  }

  /** `path[i]` is the last node tagged as a service. */
  predicate NearestAt(path: seq<Article>, i: int) {
    0 <= i < |path| && "service" in path[i].tags
    && forall k :: i < k < |path| ==> "service" !in path[k].tags
  }

  predicate NoService(path: seq<Article>) {
    forall i :: 0 <= i < |path| ==> "service" !in path[i].tags
  }

  predicate SomePrivate(path: seq<Article>) {
    exists i :: 0 <= i < |path| && "private" in path[i].tags
  }

  /** Where all titles on the root path are non-empty, a leaf is named after the nearest node tagged
      "service", itself included; else after its parent; else after itself. */
  lemma ServiceOfLeaf(path: seq<Article>)
    requires path != [] && TitledPath(path)
    ensures forall i :: NearestAt(path, i) ==> LeafAt(path).service == path[i].title
    ensures NoService(path) ==> LeafAt(path).service == path[if |path| >= 2 then |path| - 2 else 0].title
  {
    hide NearestService, AnyPrivate;
    forall i | NearestAt(path, i) ensures NearestService(path) == Some(path[i].title) {
      NearestIsLast(path, i);
    }
    if NoService(path) {
      NoneNearest(path);
    }
  }

  lemma {:induction false} NearestIsLast(path: seq<Article>, i: nat)
    requires NearestAt(path, i)
    ensures NearestService(path) == Some(path[i].title)
  {
    if i < |path| - 1 {
      NearestIsLast(path[..|path| - 1], i);
    }
  }

  lemma {:induction false} NoneNearest(path: seq<Article>)
    requires NoService(path)
    ensures NearestService(path) == None
  {
    if path != [] {
      NoneNearest(path[..|path| - 1]);
    }
  }

  /** A leaf is private exactly when some node on its root path is tagged private. */
  lemma {:induction false} PrivateOfLeaf(path: seq<Article>)
    ensures AnyPrivate(path) <==> SomePrivate(path)
    ensures path != [] ==> (LeafAt(path).isPrivate <==> SomePrivate(path))
  {
    hide NearestService;
    if path != [] {
      var init := path[..|path| - 1];
      PrivateOfLeaf(init);
      if SomePrivate(init) {
        var i :| 0 <= i < |init| && "private" in init[i].tags;
        assert path[i] == init[i];
      }
      if SomePrivate(path) {
        var i :| 0 <= i < |path| && "private" in path[i].tags;
        assert i < |init| ==> init[i] == path[i];
      }
    }
  }

  // ---------------------------------------------------------------- the listed paths are all there are

  /** `path` runs from one of `items` down to a childless node with a path. */
  ghost predicate IsLeafPath(path: seq<Article>, items: seq<Article>)
    decreases |path|
  {
    path != [] && path[0] in items
    && if |path| == 1 then path[0].children == [] && StripMd(path[0].path) != ""
       else IsLeafPath(path[1..], path[0].children)
  }

  lemma {:induction false} LeafPathsComplete(items: seq<Article>, above: seq<Article>, path: seq<Article>)
    ensures above + path in LeafPaths(items, above) <==> IsLeafPath(path, items)
    decreases items
  {
    if items != [] {
      var n := |items| - 1;
      LeafPathsComplete(items[..n], above, path);
      LeafPathsOfComplete(items[n], above, path);
      assert items == items[..n] + [items[n]];
      SameBelow(path, items, items[..n], items[n]);
    }
  }

  /** Being a leaf path only depends on which first node it starts from. */
  lemma SameBelow(path: seq<Article>, items: seq<Article>, init: seq<Article>, last: Article)
    requires items == init + [last]
    ensures IsLeafPath(path, items) <==> IsLeafPath(path, init) || IsLeafPath(path, [last])
  {
  }

  lemma {:induction false} LeafPathsOfComplete(item: Article, above: seq<Article>, path: seq<Article>)
    ensures above + path in LeafPathsOf(item, above) <==> IsLeafPath(path, [item])
    decreases item
  {
    if item.children != [] {
      if path != [] && path[0] == item {
        LeafPathsComplete(item.children, above + [item], path[1..]);
        assert above + path == above + [item] + path[1..];
        EndsBelow(path[1..], item.children);
      } else {
        StartsElsewhere(item.children, above + [item], above + path);
      }
    } else if StripMd(item.path) != "" {
      if above + path == above + [item] {
        assert path == (above + path)[|above|..] == [item];
      }
    }
  }

  lemma EndsBelow(path: seq<Article>, items: seq<Article>)
    ensures path == [] ==> !IsLeafPath(path, items)
  {
  }

  /** Every listed path continues the one above it. */
  lemma {:induction false} StartsElsewhere(items: seq<Article>, above: seq<Article>, path: seq<Article>)
    ensures path in LeafPaths(items, above) ==> |above| < |path| && path[..|above|] == above
    decreases items
  {
    if items != [] {
      var n := |items| - 1;
      StartsElsewhere(items[..n], above, path);
      ContinuesAbove(items[n], above, path);
    }
  }

  lemma {:induction false} ContinuesAbove(item: Article, above: seq<Article>, path: seq<Article>)
    ensures path in LeafPathsOf(item, above) ==> |above| < |path| && path[..|above|] == above
    decreases item
  {
    if item.children != [] {
      StartsElsewhere(item.children, above + [item], path);
      if path in LeafPathsOf(item, above) {
        assert path[..|above|] == path[..|above| + 1][..|above|];
      }
    }
  }
}
