/** Exactly which changes a comparison reports (app/diff.py). */
module DiffExact {
  import opened Common
  import opened Ordering
  import opened Diff
  import opened DiffLaws

  /** A service only one snapshot has, with the URL and the hidden flag it has there. */
  ghost predicate ServiceComesOrGoes(a: SnapshotState, b: SnapshotState, c: Change) {
    var n := c.entityName;
    || (n in b.services && n !in a.services
      && c == ServiceChange(Added, n, b.services[n], n in HiddenServices(b.methods)))
    || (n in a.services && n !in b.services
      && c == ServiceChange(Removed, n, a.services[n], n in HiddenServices(a.methods)))
  }

  /** What is said about key `k`, given the methods the two indexes have for it. */
  function KeyReport(was: Option<MethodRecord>, now: Option<MethodRecord>): Option<Change> {
    match (was, now)
    case (None, None) => None
    case (None, Some(m)) => Some(MethodChange(Added, m, m.hidden))
    case (Some(m), None) => Some(MethodChange(Removed, m, m.hidden))
    case (Some(m), Some(n)) =>
      if m.hidden && !n.hidden then Some(MethodChange(Added, n, false))
      else if !m.hidden && n.hidden then Some(MethodChange(Removed, m, false))
      else FieldChange(m, n)
  }

  function At(index: map<string, MethodRecord>, k: string): Option<MethodRecord> {
    if k in index then Some(index[k]) else None
  }

  lemma {:induction false} ServiceListExact(
    action: Action, names: seq<string>, services: map<string, string>, hidden: set<string>, c: Change)
    ensures c in ServiceList(action, names, services, hidden)
       <==> c.entityName in names && c.entityName in services
            && c == ServiceChange(action, c.entityName, services[c.entityName], c.entityName in hidden)
  {
    if names != [] {
      var init, n := names[..|names| - 1], names[|names| - 1];
      ServiceListExact(action, init, services, hidden, c);
      assert names == init + [n];
    }
  }

  lemma ServicesExact(a: SnapshotState, b: SnapshotState, c: Change)
    ensures c in ServiceChanges(a.services, b.services, HiddenServices(a.methods), HiddenServices(b.methods))
       <==> ServiceComesOrGoes(a, b, c)
  {
    hide HiddenServices, ServiceList;
    ServiceListExact(Added, Sorted(b.services.Keys - a.services.Keys), b.services, HiddenServices(b.methods), c);
    ServiceListExact(Removed, Sorted(a.services.Keys - b.services.Keys), a.services, HiddenServices(a.methods), c);
    SortedMembers(b.services.Keys - a.services.Keys);
    SortedMembers(a.services.Keys - b.services.Keys);
  }

  lemma {:induction false} MethodListExact(
    action: Action, keys: seq<string>, index: map<string, MethodRecord>, c: Change)
    requires Keyed(index)
    ensures c in MethodList(action, keys, index)
       <==> c.entityName in keys && c.entityName in index
            && c == MethodChange(action, index[c.entityName], index[c.entityName].hidden)
  {
    hide MethodKey;
    if keys != [] {
      var init, k := keys[..|keys| - 1], keys[|keys| - 1];
      MethodListExact(action, init, index, c);
      assert keys == init + [k];
    }
  }

  lemma {:induction false} FlipsExact(
    keys: seq<string>, was: map<string, MethodRecord>, now: map<string, MethodRecord>, c: Change)
    requires Keyed(was) && Keyed(now)
    ensures c in Flips(keys, was, now)
       <==> c.entityName in keys && c.entityName in was && c.entityName in now
            && FlipChange(was[c.entityName], now[c.entityName]) == Some(c)
  {
    hide MethodKey;
    if keys != [] {
      var init, k := keys[..|keys| - 1], keys[|keys| - 1];
      FlipsExact(init, was, now, c);
      assert keys == init + [k];
    }
  }

  lemma FieldChangeKey(m: MethodRecord, n: MethodRecord)
    ensures FieldChange(m, n).Some? ==> FieldChange(m, n).value.entityName == MethodKey(n)
  {
  }

  lemma {:induction false} EditsExact(
    keys: seq<string>, was: map<string, MethodRecord>, now: map<string, MethodRecord>, c: Change)
    requires Keyed(was) && Keyed(now)
    ensures c in FieldEdits(keys, was, now)
       <==> c.entityName in keys && c.entityName in was && c.entityName in now
            && was[c.entityName].hidden == now[c.entityName].hidden
            && FieldChange(was[c.entityName], now[c.entityName]) == Some(c)
  {
    hide MethodKey, FieldChange;
    if keys != [] {
      var init, k := keys[..|keys| - 1], keys[|keys| - 1];
      EditsExact(init, was, now, c);
      assert keys == init + [k];
      if k in was && k in now {
        FieldChangeKey(was[k], now[k]);
      }
    }
  }

  lemma MethodsExact(was: map<string, MethodRecord>, now: map<string, MethodRecord>, c: Change)
    requires Keyed(was) && Keyed(now)
    ensures c in MethodChanges(was, now) <==> KeyReport(At(was, c.entityName), At(now, c.entityName)) == Some(c)
  {
    hide MethodList, Flips, FieldEdits, FieldChange, MethodChange, SplitKeys;
    var s := SplitKeys(was, now);
    SplitKeysSplits(was, now);
    FromOneList(s, was, now, c);
    MethodListExact(Added, s.added, now, c);
    MethodListExact(Removed, s.removed, was, c);
    FlipsExact(s.common, was, now, c);
    EditsExact(s.common, was, now, c);
  }

  /** A change is reported exactly when it is that of a service only one snapshot has, or says what became of
      its method key: added, removed, made visible or hidden, or edited, with all its contents. */
  lemma DiffIsExact(a: SnapshotState, b: SnapshotState, c: Change)
    ensures c in Changes(Some(a), b)
       <==> ServiceComesOrGoes(a, b, c)
            || KeyReport(At(IndexOf(a.methods), c.entityName), At(IndexOf(b.methods), c.entityName)) == Some(c)
  {
    hide ServiceComesOrGoes, KeyReport, At, ServiceChanges, MethodChanges, HiddenServices, IndexOf;
    IndexIsKeyed(a.methods);
    IndexIsKeyed(b.methods);
    ServicesExact(a, b, c);
    MethodsExact(IndexOf(a.methods), IndexOf(b.methods), c);
  }
}
