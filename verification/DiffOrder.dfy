/** The order of the reported changes (app/diff.py). */
module DiffOrder {
  import opened Common
  import opened Ordering
  import opened Diff
  import opened DiffLaws

  /** Services that came, services that went, then methods that came, methods that went, methods that became
      visible or hidden, and edited fields. */
  function Rank(was: map<string, MethodRecord>, now: map<string, MethodRecord>, c: Change): nat {
    if c.kind == OfService then (if c.action == Added then 0 else 1)
    else if c.kind == OfField then 5
    else if c.entityName !in was then 2
    else if c.entityName !in now then 3
    else 4
  }

  /** Earlier rank first, and within a rank the smaller name. */
  ghost predicate InOrder(was: map<string, MethodRecord>, now: map<string, MethodRecord>, cs: seq<Change>) {
    forall i, j :: 0 <= i < j < |cs| ==>
      Rank(was, now, cs[i]) < Rank(was, now, cs[j])
      || (Rank(was, now, cs[i]) == Rank(was, now, cs[j]) && Leq(cs[i].entityName, cs[j].entityName))
  }

  /** All changes of a list have one rank. */
  ghost predicate OfRank(was: map<string, MethodRecord>, now: map<string, MethodRecord>, cs: seq<Change>, rank: nat) {
    forall c :: c in cs ==> Rank(was, now, c) == rank
  }

  ghost predicate Upward(keys: seq<string>) {
    forall i, j :: 0 <= i < j < |keys| ==> Leq(keys[i], keys[j])
  }

  ghost predicate NamesUpward(cs: seq<Change>) {
    forall i, j :: 0 <= i < j < |cs| ==> Leq(cs[i].entityName, cs[j].entityName)
  }

  /** The changes are about some of the keys. */
  ghost predicate About(cs: seq<Change>, keys: seq<string>) {
    forall c :: c in cs ==> c.entityName in keys
  }

  lemma UpwardInit(keys: seq<string>)
    requires keys != [] && Upward(keys)
    ensures Upward(keys[..|keys| - 1])
    ensures var init, last := keys[..|keys| - 1], keys[|keys| - 1]; forall k :: k in init ==> Leq(k, last)
  {
  }

  lemma OneMore(cs: seq<Change>, c: Change, keys: seq<string>, k: string)
    requires NamesUpward(cs) && About(cs, keys) && c.entityName == k && forall x :: x in keys ==> Leq(x, k)
    ensures NamesUpward(cs + [c]) && About(cs + [c], keys + [k])
  {
    forall i | 0 <= i < |cs| ensures Leq(cs[i].entityName, c.entityName) {
      assert cs[i] in cs;
    }
  }

  lemma NoMore(cs: seq<Change>, keys: seq<string>, k: string)
    requires About(cs, keys)
    ensures About(cs, keys + [k])
  {
  }

  lemma {:induction false} MethodListUpward(action: Action, keys: seq<string>, index: map<string, MethodRecord>)
    requires Keyed(index) && Upward(keys)
    ensures NamesUpward(MethodList(action, keys, index)) && About(MethodList(action, keys, index), keys)
  {
    hide Upward, NamesUpward, About, MethodKey;
    if keys == [] {
      NothingUpward();
    } else {
      var init, k := keys[..|keys| - 1], keys[|keys| - 1];
      UpwardInit(keys);
      MethodListUpward(action, init, index);
      var rest := MethodList(action, init, index);
      assert keys == init + [k];
      NoMore(rest, init, k);
      if k in index {
        OneMore(rest, MethodChange(action, index[k], index[k].hidden), init, k);
      }
    }
  }

  lemma NothingUpward()
    ensures NamesUpward([]) && About([], []) && Upward([])
  {
  }

  lemma {:induction false} ServiceListUpward(
    action: Action, names: seq<string>, services: map<string, string>, hidden: set<string>)
    requires Upward(names)
    ensures NamesUpward(ServiceList(action, names, services, hidden))
        && About(ServiceList(action, names, services, hidden), names)
  {
    hide Upward, NamesUpward, About;
    if names == [] {
      NothingUpward();
    } else {
      var init, n := names[..|names| - 1], names[|names| - 1];
      UpwardInit(names);
      ServiceListUpward(action, init, services, hidden);
      var rest := ServiceList(action, init, services, hidden);
      assert names == init + [n];
      NoMore(rest, init, n);
      if n in services {
        OneMore(rest, ServiceChange(action, n, services[n], n in hidden), init, n);
      }
    }
  }

  lemma {:induction false} FlipsUpward(
    keys: seq<string>, was: map<string, MethodRecord>, now: map<string, MethodRecord>)
    requires Keyed(was) && Keyed(now) && Upward(keys)
    ensures NamesUpward(Flips(keys, was, now)) && About(Flips(keys, was, now), keys)
  {
    hide Upward, NamesUpward, About, MethodKey;
    if keys == [] {
      NothingUpward();
    } else {
      var init, k := keys[..|keys| - 1], keys[|keys| - 1];
      UpwardInit(keys);
      FlipsUpward(init, was, now);
      var rest := Flips(init, was, now);
      assert keys == init + [k];
      NoMore(rest, init, k);
      if k in was && k in now && FlipChange(was[k], now[k]).Some? {
        OneMore(rest, FlipChange(was[k], now[k]).value, init, k);
      }
    }
  }

  lemma {:induction false} EditsUpward(
    keys: seq<string>, was: map<string, MethodRecord>, now: map<string, MethodRecord>)
    requires Keyed(was) && Keyed(now) && Upward(keys)
    ensures NamesUpward(FieldEdits(keys, was, now)) && About(FieldEdits(keys, was, now), keys)
  {
    hide Upward, NamesUpward, About, MethodKey, FieldChange;
    if keys == [] {
      NothingUpward();
    } else {
      var init, k := keys[..|keys| - 1], keys[|keys| - 1];
      UpwardInit(keys);
      EditsUpward(init, was, now);
      var rest := FieldEdits(init, was, now);
      assert keys == init + [k];
      NoMore(rest, init, k);
      if k in was && k in now && was[k].hidden == now[k].hidden {
        FieldChangeIffFieldsDiffer(was[k], now[k]);
        if FieldChange(was[k], now[k]).Some? {
          OneMore(rest, FieldChange(was[k], now[k]).value, init, k);
        }
      }
    }
  }

  /** Lists of one rank each, in rising order, joined. */
  lemma Joined(
    was: map<string, MethodRecord>, now: map<string, MethodRecord>, a: seq<Change>, b: seq<Change>, rank: nat)
    requires InOrder(was, now, a) && (forall c :: c in a ==> Rank(was, now, c) < rank)
    requires NamesUpward(b) && OfRank(was, now, b, rank)
    ensures InOrder(was, now, a + b) && forall c :: c in a + b ==> Rank(was, now, c) < rank + 1
  {
    hide Rank;
    var all := a + b;
    forall i, j | 0 <= i < j < |all|
      ensures Rank(was, now, all[i]) < Rank(was, now, all[j])
        || (Rank(was, now, all[i]) == Rank(was, now, all[j]) && Leq(all[i].entityName, all[j].entityName))
    {
      if j >= |a| {
        assert all[j] == b[j - |a|] && all[j] in b;
        if i < |a| {
          assert all[i] == a[i] && all[i] in a;
        } else {
          assert all[i] == b[i - |a|] && all[i] in b;
        }
      } else {
        assert all[i] == a[i] && all[j] == a[j];
      }
    }
  }

  lemma SortedUpward(s: set<string>)
    ensures Upward(Sorted(s))
  {
    SortedIsAscending(s);
  }

  lemma {:induction false} ServiceListRank(
    action: Action, names: seq<string>, services: map<string, string>, hidden: set<string>,
    was: map<string, MethodRecord>, now: map<string, MethodRecord>)
    requires action == Added || action == Removed
    ensures OfRank(was, now, ServiceList(action, names, services, hidden), if action == Added then 0 else 1)
  {
    if names != [] {
      ServiceListRank(action, names[..|names| - 1], services, hidden, was, now);
    }
  }

  lemma ListRank(s: KeySplit, was: map<string, MethodRecord>, now: map<string, MethodRecord>)
    requires Keyed(was) && Keyed(now) && s.Splits(was, now)
    ensures OfRank(was, now, MethodList(Added, s.added, now), 2)
    ensures OfRank(was, now, MethodList(Removed, s.removed, was), 3)
  {
    hide MethodList, Keyed;
    ListMembers(Added, s.added, now);
    ListMembers(Removed, s.removed, was);
  }

  lemma CommonRank(s: KeySplit, was: map<string, MethodRecord>, now: map<string, MethodRecord>)
    requires Keyed(was) && Keyed(now) && s.Splits(was, now)
    ensures OfRank(was, now, Flips(s.common, was, now), 4)
    ensures OfRank(was, now, FieldEdits(s.common, was, now), 5)
  {
    hide Flips, FieldEdits, Keyed;
    FlipMembers(s.common, was, now);
    EditMembers(s.common, was, now);
  }

  lemma NothingInOrder(was: map<string, MethodRecord>, now: map<string, MethodRecord>)
    ensures InOrder(was, now, [])
  {
  }

  /** The changes come in six groups, one after the other, each in the order of the names. */
  lemma ChangesInOrder(a: SnapshotState, b: SnapshotState)
    ensures InOrder(IndexOf(a.methods), IndexOf(b.methods), Changes(Some(a), b))
  {
    hide InOrder, OfRank, Upward, NamesUpward, About, Rank, Keyed, ServiceList, MethodList, Flips, FieldEdits, Sorted,
         IndexOf, HiddenServices;
    var was, now := IndexOf(a.methods), IndexOf(b.methods);
    IndexIsKeyed(a.methods);
    IndexIsKeyed(b.methods);
    var s := SplitKeys(was, now);
    SplitKeysSplits(was, now);
    var hiddenOld, hiddenNew := HiddenServices(a.methods), HiddenServices(b.methods);
    var came, went := Sorted(b.services.Keys - a.services.Keys), Sorted(a.services.Keys - b.services.Keys);
    SortedUpward(b.services.Keys - a.services.Keys);
    SortedUpward(a.services.Keys - b.services.Keys);
    SortedUpward(now.Keys - was.Keys);
    SortedUpward(was.Keys - now.Keys);
    SortedUpward(now.Keys * was.Keys);
    ServiceListUpward(Added, came, b.services, hiddenNew);
    ServiceListUpward(Removed, went, a.services, hiddenOld);
    ServiceListRank(Added, came, b.services, hiddenNew, was, now);
    ServiceListRank(Removed, went, a.services, hiddenOld, was, now);
    MethodListUpward(Added, s.added, now);
    MethodListUpward(Removed, s.removed, was);
    FlipsUpward(s.common, was, now);
    EditsUpward(s.common, was, now);
    ListRank(s, was, now);
    CommonRank(s, was, now);
    var g0, g1 := ServiceList(Added, came, b.services, hiddenNew), ServiceList(Removed, went, a.services, hiddenOld);
    var g2, g3 := MethodList(Added, s.added, now), MethodList(Removed, s.removed, was);
    var g4, g5 := Flips(s.common, was, now), FieldEdits(s.common, was, now);
    NothingInOrder(was, now);
    Joined(was, now, [], g0, 0);
    Joined(was, now, [] + g0, g1, 1);
    Joined(was, now, [] + g0 + g1, g2, 2);
    Joined(was, now, [] + g0 + g1 + g2, g3, 3);
    Joined(was, now, [] + g0 + g1 + g2 + g3, g4, 4);
    Joined(was, now, [] + g0 + g1 + g2 + g3 + g4, g5, 5);
    SixGroups(g0, g1, g2, g3, g4, g5);
  }

  lemma SixGroups(
    g0: seq<Change>, g1: seq<Change>, g2: seq<Change>, g3: seq<Change>, g4: seq<Change>, g5: seq<Change>)
    ensures g0 + g1 + (g2 + g3 + g4 + g5) == [] + g0 + g1 + g2 + g3 + g4 + g5
  {
  }
}
