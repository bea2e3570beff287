/** What tells methods apart in the comparison, and what a change says of its method (app/diff.py). */
module DiffKeys {
  import opened Common
  import opened Ordering
  import opened Text
  import opened Diff

  // ---------------------------------------------------------------- identity

  lemma SpaceSplits(v: string, p: string, w: string, q: string)
    requires ' ' !in v && ' ' !in w && v + " " + p == w + " " + q
    ensures v == w && p == q
  {
    var left, right := v + " " + p, w + " " + q;
    assert left[|v|] == ' ' && right[|w|] == ' ';
    assert |v| == |w|;
    assert v == left[..|v|] == right[..|w|] == w;
    assert p == left[|v| + 1..] == right[|w| + 1..] == q;
  }

  /** Methods with a path, their verbs being one word, have one key exactly when verb and path agree; neither the
      service nor the visibility matters. */
  lemma PathKeyIff(a: MethodRecord, b: MethodRecord)
    requires a.path != "" && b.path != "" && ' ' !in a.httpMethod && ' ' !in b.httpMethod
    ensures MethodKey(a) == MethodKey(b) <==> a.httpMethod == b.httpMethod && a.path == b.path
  {
    if MethodKey(a) == MethodKey(b) {
      SpaceSplits(a.httpMethod, a.path, b.httpMethod, b.path);
    }
  }

  lemma SlashSplits(s: string, x: string, t: string, y: string)
    requires !Occurs(" / ", s + " /") && !Occurs(" / ", t + " /") && s + " / " + x == t + " / " + y
    ensures s == t && x == y
  {
    if |s| < |t| {
      ShorterOccurs(s, x, t, y);
    } else if |t| < |s| {
      ShorterOccurs(t, y, s, x);
    } else {
      assert s == (s + " / " + x)[..|s|] == t;
      assert x == (s + " / " + x)[|s| + 3..] == y;
    }
  }

  lemma ShorterOccurs(s: string, x: string, t: string, y: string)
    requires |s| < |t| && s + " / " + x == t + " / " + y
    ensures Occurs(" / ", t + " /")
  {
    var whole, part := t + " / " + y, t + " /";
    assert whole[..|part|] == part;
    assert whole[|s|..|s| + 3] == " / ";
    assert part[|s|..][..3] == whole[|s|..|s| + 3];
    assert StartsWith(part[|s|..], " / ");
  }

  /** Methods without a path have one key exactly when service, verb and name agree, as long as no service has a
      slash between blanks and verbs are one word. */
  lemma NameKeyIff(a: MethodRecord, b: MethodRecord)
    requires a.path == "" && b.path == "" && ' ' !in a.httpMethod && ' ' !in b.httpMethod
    requires !Occurs(" / ", a.service + " /") && !Occurs(" / ", b.service + " /")
    ensures MethodKey(a) == MethodKey(b)
       <==> a.service == b.service && a.httpMethod == b.httpMethod && a.name == b.name
  {
    var restA, restB := a.httpMethod + " " + a.name, b.httpMethod + " " + b.name;
    assert MethodKey(a) == a.service + " / " + restA;
    assert MethodKey(b) == b.service + " / " + restB;
    if MethodKey(a) == MethodKey(b) {
      SlashSplits(a.service, restA, b.service, restB);
      SpaceSplits(a.httpMethod, a.name, b.httpMethod, b.name);
    }
  }

  /** A method with a path and one without never have one key, where verb and path are one word each. */
  lemma KindsApart(a: MethodRecord, b: MethodRecord)
    requires a.path != "" && b.path == "" && ' ' !in a.httpMethod && ' ' !in a.path
    ensures MethodKey(a) != MethodKey(b)
  {
    var left, right := MethodKey(a), MethodKey(b);
    var s := b.service;
    assert right == s + " / " + (b.httpMethod + " " + b.name);
    assert right[|s|] == ' ' && right[|s| + 2] == ' ';
    forall i | 0 <= i < |left| && left[i] == ' ' ensures i == |a.httpMethod| {
      assert left == a.httpMethod + " " + a.path;
    }
  }

  // ---------------------------------------------------------------- what a change says

  /** `entity_path.split(" / ", 1)[0]`, the service the digest files a change under; "" without a separator. */
  function ServiceOf(path: string): string {
    if !Occurs(" / ", path) then "" else BeforeSlash(path)
  }

  function BeforeSlash(s: string): string {
    if s == "" || StartsWith(s, " / ") then "" else [s[0]] + BeforeSlash(s[1..])
  }

  lemma {:induction false} BeforeFirst(s: string, x: string)
    ensures BeforeSlash(s + " / " + x) == s <==> !Occurs(" / ", s + " /")
    ensures |BeforeSlash(s + " / " + x)| <= |s|
  {
    var whole, part := s + " / " + x, s + " /";
    if s == "" {
      assert whole[..3] == " / ";
      EmptyNeverOccurs();
    } else {
      BeforeFirst(s[1..], x);
      assert whole[1..] == s[1..] + " / " + x && part[1..] == s[1..] + " /";
      OccursAt(part);
      assert whole[..3] == part[..3];
      assert [s[0]] + s[1..] == s;
      if StartsWith(whole, " / ") {
        assert StartsWith(part[0..], " / ");
      }
    }
  }

  lemma EmptyNeverOccurs()
    ensures !Occurs(" / ", "" + " /")
  {
  }

  /** A separator occurs at the front or further on. */
  lemma OccursAt(s: string)
    requires s != ""
    ensures Occurs(" / ", s) <==> StartsWith(s, " / ") || Occurs(" / ", s[1..])
  {
    if Occurs(" / ", s) {
      var i :| 0 <= i <= |s| && StartsWith(s[i..], " / ");
      if i > 0 {
        assert s[1..][i - 1..] == s[i..];
      } else {
        assert s[0..] == s;
      }
    }
    if StartsWith(s, " / ") {
      assert s[0..] == s;
    }
    if Occurs(" / ", s[1..]) {
      var i :| 0 <= i <= |s[1..]| && StartsWith(s[1..][i..], " / ");
      assert s[i + 1..] == s[1..][i..];
    }
  }

  /** A method change carries the method's key and URL and no texts. */
  lemma ChangeSays(action: Action, m: MethodRecord, hidden: bool)
    ensures var c := MethodChange(action, m, hidden);
      && c.kind == OfMethod && c.action == action && c.hidden == hidden && c.url == m.url
      && c.entityName == MethodKey(m) && c.oldValue == "" && c.newValue == ""
      && exists rest :: c.entityPath == m.service + " / " + rest
  {
    var key := MethodKey(m);
    var from := m.service + " / ";
    if StartsWith(key, from) {
      assert key == from + key[|from|..];
    } else {
      assert MethodChange(action, m, hidden).entityPath == from + key;
    }
  }

  /** The digest files a change under the method's own service exactly when that has no slash between blanks, the
      separator's own included. */
  lemma ServiceReadBackIff(action: Action, m: MethodRecord, hidden: bool)
    ensures ServiceOf(MethodChange(action, m, hidden).entityPath) == m.service <==> !Occurs(" / ", m.service + " /")
  {
    hide MethodChange, BeforeSlash;
    ChangeSays(action, m, hidden);
    var path := MethodChange(action, m, hidden).entityPath;
    var rest :| path == m.service + " / " + rest;
    BeforeFirst(m.service, rest);
    var after := " / " + rest;
    assert path == m.service + after && path[|m.service|..] == after && after[..3] == " / ";
    assert StartsWith(path[|m.service|..], " / ");
  }

  /** With a path, the dashboard's own name for a method is its service before its key. */
  lemma EntityPathOfPath(action: Action, m: MethodRecord, hidden: bool)
    requires m.path != "" && !StartsWith(MethodKey(m), m.service + " / ")
    ensures MethodChange(action, m, hidden).entityPath == m.service + " / " + m.httpMethod + " " + m.path
  {
    var a := m.service + " / ";
    assert a + (m.httpMethod + " " + m.path) == a + m.httpMethod + " " + m.path;
  }

  /** Without one it is the key, which already begins with the service. */
  lemma EntityPathOfName(action: Action, m: MethodRecord, hidden: bool)
    requires m.path == ""
    ensures MethodChange(action, m, hidden).entityPath == MethodKey(m)
         == m.service + " / " + m.httpMethod + " " + m.name
  {
    var from := m.service + " / ";
    assert (from + m.httpMethod + " " + m.name)[..|from|] == from;
  }

  /** A service change carries the name twice and the URL. */
  lemma ServiceChangeSays(action: Action, name: string, url: string, hidden: bool)
    ensures ServiceChange(action, name, url, hidden) == Change(OfService, action, name, name, url, "", "", hidden)
  {
  }

  /** A field change is filed like a method change of the new method, and is hidden when that is. */
  lemma FieldChangeSays(was: MethodRecord, now: MethodRecord)
    requires FieldChange(was, now).Some?
    ensures var c, m := FieldChange(was, now).value, MethodChange(Modified, now, now.hidden);
      && c.kind == OfField && c.action == Modified && c.hidden == now.hidden && c.url == now.url
      && c.entityName == MethodKey(now) && c.entityPath == m.entityPath
  {
    hide Sorted, Marked;
  }
}
