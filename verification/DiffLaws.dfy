/** What the change list promises: exact, one change per key, reversible, replayable. */
module DiffLaws {
  import opened Common
  import opened Ordering
  import opened Diff

  /** Every method of the index is filed under its own key. */
  ghost predicate Keyed(index: map<string, MethodRecord>) {
    forall k :: k in index ==> MethodKey(index[k]) == k
  }

  lemma {:induction false} IndexIsKeyed(methods: seq<MethodRecord>)
    ensures Keyed(IndexOf(methods))
  {
    if methods != [] {
      IndexIsKeyed(methods[..|methods| - 1]);
    }
  }

  /** Among methods with one key the index keeps the first. */
  lemma {:induction false} FirstOccurrenceWins(methods: seq<MethodRecord>, i: nat)
    requires i < |methods|
    requires forall j :: 0 <= j < i ==> MethodKey(methods[j]) != MethodKey(methods[i])
    ensures MethodKey(methods[i]) in IndexOf(methods) && IndexOf(methods)[MethodKey(methods[i])] == methods[i]
  {
    var init := methods[..|methods| - 1];
    assert forall j :: 0 <= j < |init| ==> init[j] == methods[j];
    if i < |init| {
      FirstOccurrenceWins(init, i);
    } else {
      KeyOccurs(init, MethodKey(methods[i]));
      assert MethodKey(methods[i]) !in IndexOf(init);
    }
  }

  lemma {:induction false} KeyOccurs(methods: seq<MethodRecord>, key: string)
    ensures key in IndexOf(methods) <==> exists i :: 0 <= i < |methods| && MethodKey(methods[i]) == key
  {
    if methods != [] {
      var init := methods[..|methods| - 1];
      KeyOccurs(init, key);
      if key in IndexOf(init) {
        var i :| 0 <= i < |init| && MethodKey(init[i]) == key;
        assert MethodKey(methods[i]) == key;
      } else if exists i :: 0 <= i < |methods| && MethodKey(methods[i]) == key {
        var i :| 0 <= i < |methods| && MethodKey(methods[i]) == key;
        assert i < |init| ==> MethodKey(init[i]) == key;
      }
    }
  }

  // ---------------------------------------------------------------- members of the two common-key lists

  lemma {:induction false} FlipMembers(
    keys: seq<string>, was: map<string, MethodRecord>, now: map<string, MethodRecord>)
    requires Keyed(was) && Keyed(now)
    requires forall k :: k in keys ==> k in was && k in now
    ensures forall c :: c in Flips(keys, was, now) ==>
      var k := c.entityName;
      k in keys && was[k].hidden != now[k].hidden && c.kind == OfMethod && !c.hidden
      && c.action == if now[k].hidden then Removed else Added
    ensures forall k :: k in keys && was[k].hidden != now[k].hidden ==>
      exists c :: c in Flips(keys, was, now) && c.entityName == k
  {
    if keys != [] {
      var init, last := keys[..|keys| - 1], keys[|keys| - 1];
      assert keys == init + [last];
      FlipMembers(init, was, now);
      var tail := FlipChange(was[last], now[last]);
      assert Flips(keys, was, now) == Extend(Flips(init, was, now), tail);
      if was[last].hidden != now[last].hidden {
        assert tail.value in Flips(keys, was, now) && tail.value.entityName == last;
      }
      forall k | k in keys && was[k].hidden != now[k].hidden
        ensures exists c :: c in Flips(keys, was, now) && c.entityName == k
      {
        if k in init {
          var c :| c in Flips(init, was, now) && c.entityName == k;
          assert c in Flips(keys, was, now);
        }
      }
    }
  }

  lemma {:induction false} EditMembers(
    keys: seq<string>, was: map<string, MethodRecord>, now: map<string, MethodRecord>)
    requires Keyed(was) && Keyed(now)
    requires forall k :: k in keys ==> k in was && k in now
    ensures forall c :: c in FieldEdits(keys, was, now) ==>
      var k := c.entityName;
      k in keys && was[k].hidden == now[k].hidden && was[k].fields != now[k].fields && c.kind == OfField
    ensures forall k :: k in keys && was[k].hidden == now[k].hidden && was[k].fields != now[k].fields ==>
      exists c :: c in FieldEdits(keys, was, now) && c.entityName == k
  {
    if keys != [] {
      var init, last := keys[..|keys| - 1], keys[|keys| - 1];
      assert keys == init + [last];
      EditMembers(init, was, now);
      FieldChangeIffFieldsDiffer(was[last], now[last]);
      var tail := if was[last].hidden != now[last].hidden then None else FieldChange(was[last], now[last]);
      assert FieldEdits(keys, was, now) == Extend(FieldEdits(init, was, now), tail);
      if tail.Some? {
        assert tail.value in FieldEdits(keys, was, now) && tail.value.entityName == last;
      }
      forall k | k in keys && was[k].hidden == now[k].hidden && was[k].fields != now[k].fields
        ensures exists c :: c in FieldEdits(keys, was, now) && c.entityName == k
      {
        if k in init {
          var c :| c in FieldEdits(init, was, now) && c.entityName == k;
          assert c in FieldEdits(keys, was, now);
        }
      }
    }
  }

  lemma FieldChangeIffFieldsDiffer(was: MethodRecord, now: MethodRecord)
    ensures FieldChange(was, now).Some? <==> was.fields != now.fields
    ensures FieldChange(was, now).Some? ==>
      var c := FieldChange(was, now).value;
      c.kind == OfField && c.entityName == MethodKey(now) && c.hidden == now.hidden
  {
    var added, removed := now.fields - was.fields, was.fields - now.fields;
    SortedIsAscending(added);
    SortedIsAscending(removed);
  }

  lemma {:induction false} ListMembers(action: Action, keys: seq<string>, index: map<string, MethodRecord>)
    requires Keyed(index)
    requires forall k :: k in keys ==> k in index
    ensures forall c :: c in MethodList(action, keys, index) ==>
      var k := c.entityName;
      k in keys && c.kind == OfMethod && c.action == action && c.hidden == index[k].hidden
    ensures forall k :: k in keys ==> exists c :: c in MethodList(action, keys, index) && c.entityName == k
  {
    if keys != [] {
      var init, last := keys[..|keys| - 1], keys[|keys| - 1];
      assert keys == init + [last];
      ListMembers(action, init, index);
      var list, whole := MethodList(action, init, index), MethodList(action, keys, index);
      var tail := MethodChange(action, index[last], index[last].hidden);
      assert whole == list + [tail];
      assert tail in whole;
      forall k | k in keys ensures exists c :: c in whole && c.entityName == k {
        if k in init {
          var c :| c in list && c.entityName == k;
          assert c in whole;
        }
      }
    }
  }

  /** A change of the method part comes from one of its four lists, and each list has its own kind of key. */
  ghost predicate Explained(was: map<string, MethodRecord>, now: map<string, MethodRecord>, c: Change) {
    var k := c.entityName;
    if k in now && k !in was then c.kind == OfMethod && c.action == Added && c.hidden == now[k].hidden
    else if k in was && k !in now then c.kind == OfMethod && c.action == Removed && c.hidden == was[k].hidden
    else
      k in was && k in now
      && if was[k].hidden != now[k].hidden then
           c.kind == OfMethod && !c.hidden && c.action == if now[k].hidden then Removed else Added
         else c.kind == OfField && was[k].fields != now[k].fields
  }

  lemma EveryChangeExplained(s: KeySplit, was: map<string, MethodRecord>, now: map<string, MethodRecord>)
    requires Keyed(was) && Keyed(now) && s.Splits(was, now)
    ensures forall c :: c in KeyChanges(s, was, now) ==> Explained(was, now, c)
  {
    ListMembers(Added, s.added, now);
    ListMembers(Removed, s.removed, was);
    FlipMembers(s.common, was, now);
    EditMembers(s.common, was, now);
    forall c | c in KeyChanges(s, was, now) ensures Explained(was, now, c) {
      FromOneList(s, was, now, c);
    }
  }

  lemma FromOneList(s: KeySplit, was: map<string, MethodRecord>, now: map<string, MethodRecord>, c: Change)
    ensures c in KeyChanges(s, was, now) <==>
      c in MethodList(Added, s.added, now) || c in MethodList(Removed, s.removed, was)
      || c in Flips(s.common, was, now) || c in FieldEdits(s.common, was, now)
  {
  }

  /** The keys something happened to. */
  ghost predicate Changed(was: map<string, MethodRecord>, now: map<string, MethodRecord>, k: string) {
    if k in was && k in now then was[k].hidden != now[k].hidden || was[k].fields != now[k].fields
    else k in was || k in now
  }

  lemma EveryChangedKeyListed(s: KeySplit, was: map<string, MethodRecord>, now: map<string, MethodRecord>, k: string)
    requires Keyed(was) && Keyed(now) && s.Splits(was, now)
    requires Changed(was, now, k)
    ensures exists c :: c in KeyChanges(s, was, now) && c.entityName == k
  {
    var c: Change;
    if k in was && k in now {
      assert k in s.common;
      if was[k].hidden != now[k].hidden {
        FlipMembers(s.common, was, now);
        c :| c in Flips(s.common, was, now) && c.entityName == k;
      } else {
        EditMembers(s.common, was, now);
        c :| c in FieldEdits(s.common, was, now) && c.entityName == k;
      }
    } else if k in now {
      assert k in s.added;
      ListMembers(Added, s.added, now);
      c :| c in MethodList(Added, s.added, now) && c.entityName == k;
    } else {
      assert k in s.removed;
      ListMembers(Removed, s.removed, was);
      c :| c in MethodList(Removed, s.removed, was) && c.entityName == k;
    }
    FromOneList(s, was, now, c);
  }

  // ---------------------------------------------------------------- exactness

  /** Same service names, same keys, and for every key the same visibility and the same fields. */
  ghost predicate Agree(a: SnapshotState, b: SnapshotState) {
    a.services.Keys == b.services.Keys && Same(IndexOf(a.methods), IndexOf(b.methods))
  }

  ghost predicate Same(was: map<string, MethodRecord>, now: map<string, MethodRecord>) {
    && was.Keys == now.Keys
    && forall k :: k in was && k in now ==> was[k].hidden == now[k].hidden && was[k].fields == now[k].fields
  }

  lemma KeyChangesEmpty(s: KeySplit, was: map<string, MethodRecord>, now: map<string, MethodRecord>)
    requires Keyed(was) && Keyed(now) && s.Splits(was, now)
    ensures KeyChanges(s, was, now) == [] <==> forall k :: !Changed(was, now, k)
  {
    forall k | Changed(was, now, k) ensures KeyChanges(s, was, now) != [] {
      EveryChangedKeyListed(s, was, now, k);
    }
    if KeyChanges(s, was, now) != [] {
      EveryChangeExplained(s, was, now);
      var c := KeyChanges(s, was, now)[0];
      assert Explained(was, now, c);
      assert Changed(was, now, c.entityName);
    }
  }

  lemma {:induction false} ServiceListLength(
    action: Action, names: seq<string>, services: map<string, string>, hidden: set<string>)
    requires forall n :: n in names ==> n in services
    ensures |ServiceList(action, names, services, hidden)| == |names|
  {
    if names != [] {
      assert names == names[..|names| - 1] + [names[|names| - 1]];
      ServiceListLength(action, names[..|names| - 1], services, hidden);
    }
  }

  lemma {:induction false} ServiceListKind(
    action: Action, names: seq<string>, services: map<string, string>, hidden: set<string>)
    ensures forall c :: c in ServiceList(action, names, services, hidden) ==> c.kind == OfService
  {
    if names != [] {
      ServiceListKind(action, names[..|names| - 1], services, hidden);
    }
  }

  lemma ServiceChangesKind(
    prev: map<string, string>, next: map<string, string>, hiddenOld: set<string>, hiddenNew: set<string>)
    ensures forall c :: c in ServiceChanges(prev, next, hiddenOld, hiddenNew) ==> c.kind == OfService
  {
    ServiceListKind(Added, Sorted(next.Keys - prev.Keys), next, hiddenNew);
    ServiceListKind(Removed, Sorted(prev.Keys - next.Keys), prev, hiddenOld);
  }

  lemma ServiceChangesEmpty(
    prev: map<string, string>, next: map<string, string>, hiddenOld: set<string>, hiddenNew: set<string>)
    ensures ServiceChanges(prev, next, hiddenOld, hiddenNew) == [] <==> prev.Keys == next.Keys
  {
    var added, removed := next.Keys - prev.Keys, prev.Keys - next.Keys;
    SortedIsAscending(added);
    SortedIsAscending(removed);
    ServiceListLength(Added, Sorted(added), next, hiddenNew);
    ServiceListLength(Removed, Sorted(removed), prev, hiddenOld);
  }

  lemma UnchangedIffSame(was: map<string, MethodRecord>, now: map<string, MethodRecord>)
    ensures (forall k :: !Changed(was, now, k)) <==> Same(was, now)
  {
    if forall k :: !Changed(was, now, k) {
      forall k | k in was.Keys + now.Keys ensures k in was && k in now && was[k].hidden == now[k].hidden
          && was[k].fields == now[k].fields {
        assert !Changed(was, now, k);
      }
      assert was.Keys == now.Keys;
    }
    if Same(was, now) {
      forall k ensures !Changed(was, now, k) {
        assert k in was.Keys <==> k in now.Keys;
      }
    }
  }

  lemma NothingInEither(a: seq<Change>, b: seq<Change>)
    ensures a + b == [] <==> a == [] && b == []
  {
    assert |a + b| == |a| + |b|;
  }

  /** An empty change list means exactly that the two snapshots agree. */
  lemma NoChangesIffAgree(a: SnapshotState, b: SnapshotState)
    ensures Changes(Some(a), b) == [] <==> Agree(a, b)
  {
    var was, now := IndexOf(a.methods), IndexOf(b.methods);
    IndexIsKeyed(a.methods);
    IndexIsKeyed(b.methods);
    SplitKeysSplits(was, now);
    KeyChangesEmpty(SplitKeys(was, now), was, now);
    ServiceChangesEmpty(a.services, b.services, HiddenServices(a.methods), HiddenServices(b.methods));
    UnchangedIffSame(was, now);
    var services := ServiceChanges(a.services, b.services, HiddenServices(a.methods), HiddenServices(b.methods));
    NothingInEither(services, MethodChanges(was, now));
  }

  // ---------------------------------------------------------------- one change per key

  ghost predicate DistinctNames(cs: seq<Change>) {
    forall i, j :: 0 <= i < j < |cs| ==> cs[i].entityName != cs[j].entityName
  }

  lemma DistinctConcat(a: seq<Change>, b: seq<Change>)
    requires DistinctNames(a) && DistinctNames(b)
    requires forall x, y :: x in a && y in b ==> x.entityName != y.entityName
    ensures DistinctNames(a + b)
  {
    var ab := a + b;
    forall i, j | 0 <= i < j < |ab| ensures ab[i].entityName != ab[j].entityName {
      if i < |a| <= j {
        assert ab[i] in a && ab[j] in b;
      }
    }
  }

  lemma DistinctExtend(cs: seq<Change>, c: Option<Change>, key: string)
    requires DistinctNames(cs)
    requires forall x :: x in cs ==> x.entityName != key
    requires c.Some? ==> c.value.entityName == key
    ensures DistinctNames(Extend(cs, c))
  {
    if c.Some? {
      DistinctConcat(cs, [c.value]);
    }
  }

  lemma {:induction false} CommonListsDistinct(
    keys: seq<string>, was: map<string, MethodRecord>, now: map<string, MethodRecord>)
    requires Keyed(was) && Keyed(now)
    requires forall k :: k in keys ==> k in was && k in now
    requires forall i, j :: 0 <= i < j < |keys| ==> keys[i] != keys[j]
    ensures DistinctNames(Flips(keys, was, now)) && DistinctNames(FieldEdits(keys, was, now))
  {
    if keys != [] {
      var init, last := keys[..|keys| - 1], keys[|keys| - 1];
      assert keys == init + [last];
      CommonListsDistinct(init, was, now);
      FlipMembers(init, was, now);
      EditMembers(init, was, now);
      assert last !in init;
      FieldChangeIffFieldsDiffer(was[last], now[last]);
      DistinctExtend(Flips(init, was, now), FlipChange(was[last], now[last]), last);
      DistinctExtend(FieldEdits(init, was, now), FieldChange(was[last], now[last]), last);
    }
  }

  lemma {:induction false} MethodListDistinct(action: Action, keys: seq<string>, index: map<string, MethodRecord>)
    requires Keyed(index)
    requires forall k :: k in keys ==> k in index
    requires forall i, j :: 0 <= i < j < |keys| ==> keys[i] != keys[j]
    ensures DistinctNames(MethodList(action, keys, index))
  {
    if keys != [] {
      var init, last := keys[..|keys| - 1], keys[|keys| - 1];
      assert keys == init + [last];
      MethodListDistinct(action, init, index);
      ListMembers(action, init, index);
      assert last !in init;
      DistinctConcat(MethodList(action, init, index), [MethodChange(action, index[last], index[last].hidden)]);
    }
  }

  lemma KeyChangesDistinct(s: KeySplit, was: map<string, MethodRecord>, now: map<string, MethodRecord>)
    requires Keyed(was) && Keyed(now) && s.Splits(was, now)
    ensures DistinctNames(KeyChanges(s, was, now))
  {
    ListMembers(Added, s.added, now);
    ListMembers(Removed, s.removed, was);
    FlipMembers(s.common, was, now);
    EditMembers(s.common, was, now);
    CommonListsDistinct(s.common, was, now);
    MethodListDistinct(Added, s.added, now);
    MethodListDistinct(Removed, s.removed, was);
    var added, removed := MethodList(Added, s.added, now), MethodList(Removed, s.removed, was);
    var flips, edits := Flips(s.common, was, now), FieldEdits(s.common, was, now);
    DistinctConcat(added, removed);
    DistinctConcat(added + removed, flips);
    DistinctConcat(added + removed + flips, edits);
  }

  lemma TailOnly(head: seq<Change>, tail: seq<Change>, i: nat, j: nat)
    requires forall c :: c in head ==> c.kind == OfService
    requires DistinctNames(tail)
    requires i < j < |head + tail| && (head + tail)[i].kind != OfService
    ensures (head + tail)[i].entityName != (head + tail)[j].entityName
  {
    assert i >= |head|;
  }

  /** No two changes about methods concern the same key. */
  lemma OneChangePerKey(prev: Option<SnapshotState>, next: SnapshotState, i: nat, j: nat)
    requires i < j < |Changes(prev, next)|
    requires Changes(prev, next)[i].kind != OfService && Changes(prev, next)[j].kind != OfService
    ensures Changes(prev, next)[i].entityName != Changes(prev, next)[j].entityName
  {
    var a := prev.value;
    var services := ServiceChanges(a.services, next.services, HiddenServices(a.methods), HiddenServices(next.methods));
    var was, now := IndexOf(a.methods), IndexOf(next.methods);
    IndexIsKeyed(a.methods);
    IndexIsKeyed(next.methods);
    SplitKeysSplits(was, now);
    ServiceChangesKind(a.services, next.services, HiddenServices(a.methods), HiddenServices(next.methods));
    KeyChangesDistinct(SplitKeys(was, now), was, now);
    assert Changes(prev, next) == services + MethodChanges(was, now);
    TailOnly(services, MethodChanges(was, now), i, j);
  }

  // ---------------------------------------------------------------- replay of visible methods

  ghost predicate Public(c: Change, action: Action) {
    c.kind == OfMethod && !c.hidden && c.action == action
  }

  ghost function NamesOf(cs: seq<Change>, action: Action): set<string> {
    set c | c in cs && Public(c, action) :: c.entityName
  }

  /** The set of dashboard keys after one entry of the public change history. */
  ghost function Apply(keys: set<string>, c: Change): set<string> {
    if Public(c, Added) then keys + {c.entityName}
    else if Public(c, Removed) then keys - {c.entityName}
    else keys
  }

  ghost function Replay(keys: set<string>, cs: seq<Change>): set<string> {
    if cs == [] then keys else Apply(Replay(keys, cs[..|cs| - 1]), cs[|cs| - 1])
  }

  lemma {:induction false} ReplayConcat(keys: set<string>, a: seq<Change>, b: seq<Change>)
    ensures Replay(keys, a + b) == Replay(Replay(keys, a), b)
  {
    if b == [] {
      assert a + b == a;
    } else {
      ReplayConcat(keys, a, b[..|b| - 1]);
      assert (a + b)[..|a + b| - 1] == a + b[..|b| - 1];
    }
  }

  lemma {:induction false} ReplayOfDisjoint(keys: set<string>, cs: seq<Change>)
    requires NamesOf(cs, Added) !! NamesOf(cs, Removed)
    ensures Replay(keys, cs) == keys - NamesOf(cs, Removed) + NamesOf(cs, Added)
  {
    if cs != [] {
      var init, last := cs[..|cs| - 1], cs[|cs| - 1];
      assert cs == init + [last];
      NamesExtend(init, last, Added);
      NamesExtend(init, last, Removed);
      ReplayOfDisjoint(keys, init);
    }
  }

  lemma NamesExtend(cs: seq<Change>, c: Change, action: Action)
    ensures NamesOf(cs + [c], action) == NamesOf(cs, action) + if Public(c, action) then {c.entityName} else {}
  {
    assert forall x :: x in cs + [c] <==> x in cs || x == c;
  }

  lemma KeyDelta(s: KeySplit, was: map<string, MethodRecord>, now: map<string, MethodRecord>)
    requires Keyed(was) && Keyed(now) && s.Splits(was, now)
    ensures NamesOf(KeyChanges(s, was, now), Added) == VisibleIn(now) - VisibleIn(was)
    ensures NamesOf(KeyChanges(s, was, now), Removed) == VisibleIn(was) - VisibleIn(now)
  {
    var all := KeyChanges(s, was, now);
    EveryChangeExplained(s, was, now);
    forall k | k in VisibleIn(now) - VisibleIn(was) ensures k in NamesOf(all, Added) {
      EveryChangedKeyListed(s, was, now, k);
      var c :| c in all && c.entityName == k;
      assert Explained(was, now, c);
      assert Public(c, Added);
    }
    forall k | k in VisibleIn(was) - VisibleIn(now) ensures k in NamesOf(all, Removed) {
      EveryChangedKeyListed(s, was, now, k);
      var c :| c in all && c.entityName == k;
      assert Explained(was, now, c);
      assert Public(c, Removed);
    }
    forall c | c in all && Public(c, Added) ensures c.entityName in VisibleIn(now) - VisibleIn(was) {
      assert Explained(was, now, c);
    }
    forall c | c in all && Public(c, Removed) ensures c.entityName in VisibleIn(was) - VisibleIn(now) {
      assert Explained(was, now, c);
    }
  }

  lemma ServicesNameNothing(services: seq<Change>, rest: seq<Change>, action: Action)
    requires forall c :: c in services ==> c.kind == OfService
    ensures NamesOf(services + rest, action) == NamesOf(rest, action)
  {
    assert forall c :: c in services + rest <==> c in services || c in rest;
  }

  /** The public method changes are exactly the keys that entered and left the dashboard. */
  lemma PublicDelta(a: SnapshotState, b: SnapshotState)
    ensures NamesOf(Changes(Some(a), b), Added) == VisibleKeys(b) - VisibleKeys(a)
    ensures NamesOf(Changes(Some(a), b), Removed) == VisibleKeys(a) - VisibleKeys(b)
  {
    var was, now := IndexOf(a.methods), IndexOf(b.methods);
    var services := ServiceChanges(a.services, b.services, HiddenServices(a.methods), HiddenServices(b.methods));
    IndexIsKeyed(a.methods);
    IndexIsKeyed(b.methods);
    SplitKeysSplits(was, now);
    ServiceChangesKind(a.services, b.services, HiddenServices(a.methods), HiddenServices(b.methods));
    KeyDelta(SplitKeys(was, now), was, now);
    ServicesNameNothing(services, MethodChanges(was, now), Added);
    ServicesNameNothing(services, MethodChanges(was, now), Removed);
  }

  /** Applying one import's changes to the old dashboard keys gives the new ones. */
  lemma ReplayOneImport(a: SnapshotState, b: SnapshotState)
    ensures Replay(VisibleKeys(a), Changes(Some(a), b)) == VisibleKeys(b)
  {
    PublicDelta(a, b);
    ReplayOfDisjoint(VisibleKeys(a), Changes(Some(a), b));
  }

  // ---------------------------------------------------------------- reversal

  function Exchanged(c: Change): Change {
    c.(action := match c.action case Added => Removed case Removed => Added case Modified => Modified)
  }

  lemma ExchangedMethod(m: MethodRecord, hidden: bool)
    ensures Exchanged(MethodChange(Added, m, hidden)) == MethodChange(Removed, m, hidden)
    ensures Exchanged(MethodChange(Removed, m, hidden)) == MethodChange(Added, m, hidden)
  {
  }

  function Reverse(cs: seq<Change>): seq<Change> {
    if cs == [] then [] else Reverse(cs[..|cs| - 1]) + [Exchanged(cs[|cs| - 1])]
  }

  function WithoutFieldEdits(cs: seq<Change>): seq<Change> {
    if cs == [] then []
    else
      var rest, last := WithoutFieldEdits(cs[..|cs| - 1]), cs[|cs| - 1];
      if last.kind == OfField then rest else rest + [last]
  }

  lemma {:induction false} ReverseConcat(a: seq<Change>, b: seq<Change>)
    ensures Reverse(a + b) == Reverse(a) + Reverse(b)
  {
    if b == [] {
      assert a + b == a;
    } else {
      ReverseConcat(a, b[..|b| - 1]);
      assert (a + b)[..|a + b| - 1] == a + b[..|b| - 1];
    }
  }

  lemma {:induction false} EditsDropped(kept: seq<Change>, edits: seq<Change>)
    requires forall i :: 0 <= i < |kept| ==> kept[i].kind != OfField
    requires forall i :: 0 <= i < |edits| ==> edits[i].kind == OfField
    ensures WithoutFieldEdits(kept + edits) == kept
  {
    var all := kept + edits;
    if edits != [] {
      assert all[..|all| - 1] == kept + edits[..|edits| - 1];
      EditsDropped(kept, edits[..|edits| - 1]);
    } else if kept != [] {
      assert all == kept && kept[..|kept| - 1] + [] == kept[..|kept| - 1];
      EditsDropped(kept[..|kept| - 1], []);
    }
  }

  lemma ReverseOne(cs: seq<Change>, c: Change)
    ensures Reverse(cs + [c]) == Reverse(cs) + [Exchanged(c)]
  {
    assert (cs + [c])[..|cs|] == cs;
  }

  lemma FlipReversed(was: MethodRecord, now: MethodRecord)
    requires was.hidden != now.hidden
    ensures FlipChange(now, was) == Some(Exchanged(FlipChange(was, now).value))
  {
    ExchangedMethod(was, false);
    ExchangedMethod(now, false);
  }

  lemma {:induction false} FlipsReversed(
    keys: seq<string>, was: map<string, MethodRecord>, now: map<string, MethodRecord>)
    ensures Flips(keys, now, was) == Reverse(Flips(keys, was, now))
  {
    if keys != [] {
      var init, last := keys[..|keys| - 1], keys[|keys| - 1];
      FlipsReversed(init, was, now);
      if last in was && last in now {
        if was[last].hidden != now[last].hidden {
          FlipReversed(was[last], now[last]);
          ReverseOne(Flips(init, was, now), FlipChange(was[last], now[last]).value);
        }
      }
    }
  }

  lemma {:induction false} MethodListReversed(keys: seq<string>, index: map<string, MethodRecord>)
    ensures Reverse(MethodList(Added, keys, index)) == MethodList(Removed, keys, index)
    ensures Reverse(MethodList(Removed, keys, index)) == MethodList(Added, keys, index)
  {
    if keys != [] {
      var init, last := keys[..|keys| - 1], keys[|keys| - 1];
      MethodListReversed(init, index);
      if last in index {
        var m := index[last];
        ExchangedMethod(m, m.hidden);
        ReverseOne(MethodList(Added, init, index), MethodChange(Added, m, m.hidden));
        ReverseOne(MethodList(Removed, init, index), MethodChange(Removed, m, m.hidden));
      }
    }
  }

  lemma {:induction false} ServiceListReversed(names: seq<string>, services: map<string, string>, hidden: set<string>)
    ensures Reverse(ServiceList(Added, names, services, hidden)) == ServiceList(Removed, names, services, hidden)
    ensures Reverse(ServiceList(Removed, names, services, hidden)) == ServiceList(Added, names, services, hidden)
  {
    if names != [] {
      var init, last := names[..|names| - 1], names[|names| - 1];
      ServiceListReversed(init, services, hidden);
      if last in services {
        var url := services[last];
        ReverseOne(ServiceList(Added, init, services, hidden), ServiceChange(Added, last, url, last in hidden));
        ReverseOne(ServiceList(Removed, init, services, hidden), ServiceChange(Removed, last, url, last in hidden));
      }
    }
  }

  lemma ServicesReversed(
    prev: map<string, string>, next: map<string, string>, hiddenOld: set<string>, hiddenNew: set<string>)
    ensures multiset(ServiceChanges(next, prev, hiddenNew, hiddenOld))
         == multiset(Reverse(ServiceChanges(prev, next, hiddenOld, hiddenNew)))
  {
    var added, removed := Sorted(next.Keys - prev.Keys), Sorted(prev.Keys - next.Keys);
    ServiceListReversed(added, next, hiddenNew);
    ServiceListReversed(removed, prev, hiddenOld);
    ReverseConcat(ServiceList(Added, added, next, hiddenNew), ServiceList(Removed, removed, prev, hiddenOld));
  }

  /** The method part without field edits. */
  function ComingsAndGoings(s: KeySplit, was: map<string, MethodRecord>, now: map<string, MethodRecord>): seq<Change> {
    MethodList(Added, s.added, now) + MethodList(Removed, s.removed, was) + Flips(s.common, was, now)
  }

  lemma ComingsReversed(s: KeySplit, was: map<string, MethodRecord>, now: map<string, MethodRecord>)
    ensures var t := KeySplit(s.removed, s.added, s.common);
      multiset(ComingsAndGoings(t, now, was)) == multiset(Reverse(ComingsAndGoings(s, was, now)))
  {
    var added, removed := MethodList(Added, s.added, now), MethodList(Removed, s.removed, was);
    var flips := Flips(s.common, was, now);
    MethodListReversed(s.added, now);
    MethodListReversed(s.removed, was);
    FlipsReversed(s.common, was, now);
    ReverseConcat(added, removed);
    ReverseConcat(added + removed, flips);
  }

  lemma ComingsAreMethods(s: KeySplit, was: map<string, MethodRecord>, now: map<string, MethodRecord>)
    requires Keyed(was) && Keyed(now) && s.Splits(was, now)
    ensures forall c :: c in ComingsAndGoings(s, was, now) ==> c.kind == OfMethod
  {
    ListMembers(Added, s.added, now);
    ListMembers(Removed, s.removed, was);
    FlipMembers(s.common, was, now);
  }

  lemma KeptParts(services: seq<Change>, s: KeySplit, was: map<string, MethodRecord>, now: map<string, MethodRecord>)
    requires Keyed(was) && Keyed(now) && s.Splits(was, now)
    requires forall c :: c in services ==> c.kind == OfService
    ensures WithoutFieldEdits(services + KeyChanges(s, was, now)) == services + ComingsAndGoings(s, was, now)
  {
    var coming, edits := ComingsAndGoings(s, was, now), FieldEdits(s.common, was, now);
    ComingsAreMethods(s, was, now);
    EditMembers(s.common, was, now);
    hide MethodList, Flips, FieldEdits, Keyed, WithoutFieldEdits;
    assert KeyChanges(s, was, now) == coming + edits;
    DropAfter(services, coming, edits);
  }

  lemma DropAfter(services: seq<Change>, coming: seq<Change>, edits: seq<Change>)
    requires forall c :: c in services ==> c.kind == OfService
    requires forall c :: c in coming ==> c.kind == OfMethod
    requires forall c :: c in edits ==> c.kind == OfField
    ensures WithoutFieldEdits(services + (coming + edits)) == services + coming
  {
    hide WithoutFieldEdits;
    var kept := services + coming;
    forall i | 0 <= i < |kept| ensures kept[i].kind != OfField {
      assert kept[i] in kept;
    }
    assert services + (coming + edits) == kept + edits;
    EditsDropped(kept, edits);
  }

  lemma KeptChanges(a: SnapshotState, b: SnapshotState)
    ensures var was, now := IndexOf(a.methods), IndexOf(b.methods);
      WithoutFieldEdits(Changes(Some(a), b))
      == ServiceChanges(a.services, b.services, HiddenServices(a.methods), HiddenServices(b.methods))
         + ComingsAndGoings(SplitKeys(was, now), was, now)
  {
    var was, now := IndexOf(a.methods), IndexOf(b.methods);
    IndexIsKeyed(a.methods);
    IndexIsKeyed(b.methods);
    var services := ServiceChanges(a.services, b.services, HiddenServices(a.methods), HiddenServices(b.methods));
    SplitKeysSplits(was, now);
    ServiceChangesKind(a.services, b.services, HiddenServices(a.methods), HiddenServices(b.methods));
    KeptParts(services, SplitKeys(was, now), was, now);
  }

  /** Swapping the snapshots reports the same service and method changes with added and removed exchanged. */
  lemma SwappedSnapshots(a: SnapshotState, b: SnapshotState)
    ensures multiset(WithoutFieldEdits(Changes(Some(b), a)))
         == multiset(Reverse(WithoutFieldEdits(Changes(Some(a), b))))
  {
    KeptChanges(a, b);
    KeptChanges(b, a);
    var was, now := IndexOf(a.methods), IndexOf(b.methods);
    ServicesReversed(a.services, b.services, HiddenServices(a.methods), HiddenServices(b.methods));
    var s := SplitKeys(was, now);
    assert was.Keys * now.Keys == now.Keys * was.Keys;
    assert SplitKeys(now, was) == KeySplit(s.removed, s.added, s.common);
    ComingsReversed(s, was, now);
    ReverseConcat(ServiceChanges(a.services, b.services, HiddenServices(a.methods), HiddenServices(b.methods)),
                  ComingsAndGoings(s, was, now));
  }
}
