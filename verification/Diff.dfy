/** Comparison of two snapshots of one bank (app/diff.py). */
module Diff {
  import opened Common
  import opened Ordering
  import opened Text

  datatype MethodRecord = MethodRecord(
    service: string,
    httpMethod: string,
    path: string,
    name: string,
    url: string,
    fields: set<string>,
    hidden: bool,
    hiddenReason: Option<string>)

  datatype ChangeKind = OfService | OfMethod | OfField
  datatype Action = Added | Removed | Modified

  datatype Change = Change(
    kind: ChangeKind,
    action: Action,
    entityName: string,
    entityPath: string,
    url: string,
    oldValue: string,
    newValue: string,
    hidden: bool)

  /** `services` maps a service name to its URL; `methods` lists visible and hidden ones. */
  datatype SnapshotState = SnapshotState(services: map<string, string>, methods: seq<MethodRecord>)

  /** Identity of a method across snapshots; the hidden flag is no part of it. */
  function MethodKey(m: MethodRecord): string {
    if m.path != "" then m.httpMethod + " " + m.path
    else m.service + " / " + m.httpMethod + " " + m.name
  }

  function MethodChange(action: Action, m: MethodRecord, hidden: bool): Change {
    var key := MethodKey(m);
    var path := if StartsWith(key, m.service + " / ") then key else m.service + " / " + key;
    Change(OfMethod, action, key, path, m.url, "", "", hidden)
  }

  // ---------------------------------------------------------------- the index

  /** First occurrence of each key. */
  function IndexOf(methods: seq<MethodRecord>): map<string, MethodRecord> {
    if methods == [] then map[]
    else
      var m := methods[|methods| - 1];
      var index := IndexOf(methods[..|methods| - 1]);
      if MethodKey(m) in index then index else index[MethodKey(m) := m]
  }

  method Index(methods: seq<MethodRecord>) returns (index: map<string, MethodRecord>)
    ensures index == IndexOf(methods)
  {
    index := map[];
    for n := 0 to |methods|
      invariant index == IndexOf(methods[..n])
    {
      assert methods[..n + 1][..n] == methods[..n];
      var key := MethodKey(methods[n]);
      if key !in index {
        index := index[key := methods[n]];
      }
    }
    assert methods[..|methods|] == methods;
  }

  /** Keys whose indexed method is on the public dashboard. */
  function VisibleIn(index: map<string, MethodRecord>): set<string> {
    set k | k in index && !index[k].hidden
  }

  function VisibleKeys(s: SnapshotState): set<string> {
    VisibleIn(IndexOf(s.methods))
  }

  // ---------------------------------------------------------------- hidden services

  /** At least one flag, and all of them set. */
  predicate ServiceIsHidden(flags: seq<bool>) {
    flags != [] && forall f :: f in flags ==> f
  }

  predicate AllHidden(methods: seq<MethodRecord>, service: string) {
    forall m :: m in methods && m.service == service ==> m.hidden
  }

  /** Services that have a method and whose methods are all hidden. */
  function HiddenServices(methods: seq<MethodRecord>): set<string> {
    set m | m in methods && AllHidden(methods, m.service) :: m.service
  }

  lemma ExtendFlags(methods: seq<MethodRecord>, m: MethodRecord, s: string)
    ensures AllHidden(methods + [m], s) <==> AllHidden(methods, s) && (m.service == s ==> m.hidden)
  {
    assert m in methods + [m];
    assert forall x :: x in methods ==> x in methods + [m];
  }

  lemma ExtendHidden(flags: seq<bool>, flag: bool)
    ensures ServiceIsHidden(flags + [flag]) <==> (flags == [] || ServiceIsHidden(flags)) && flag
  {
    assert flag in flags + [flag];
    assert forall f :: f in flags ==> f in flags + [flag];
  }

  method HiddenServiceNames(methods: seq<MethodRecord>) returns (names: set<string>)
    ensures names == HiddenServices(methods)
  {
    var byService: map<string, seq<bool>> := map[];
    for n := 0 to |methods|
      invariant byService.Keys == set m | m in methods[..n] :: m.service
      invariant forall s :: s in byService ==> byService[s] != []
      invariant forall s :: s in byService ==> (ServiceIsHidden(byService[s]) <==> AllHidden(methods[..n], s))
    {
      var m := methods[n];
      assert methods[..n + 1] == methods[..n] + [m];
      assert m.service !in byService ==> AllHidden(methods[..n], m.service);
      var flags := (if m.service in byService then byService[m.service] else []) + [m.hidden];
      ExtendHidden(flags[..|flags| - 1], m.hidden);
      forall s { ExtendFlags(methods[..n], m, s); }
      byService := byService[m.service := flags];
    }
    assert methods[..|methods|] == methods;
    names := set s | s in byService && ServiceIsHidden(byService[s]);
  }

  // ---------------------------------------------------------------- the change list

  function ServiceChange(action: Action, name: string, url: string, hidden: bool): Change {
    Change(OfService, action, name, name, url, "", "", hidden)
  }

  /** One change per name; the URL and the hidden flag come from the snapshot that has the service. */
  function ServiceList(
    action: Action, names: seq<string>, services: map<string, string>, hidden: set<string>): seq<Change>
  {
    if names == [] then []
    else
      var n := names[|names| - 1];
      var rest := ServiceList(action, names[..|names| - 1], services, hidden);
      if n in services then rest + [ServiceChange(action, n, services[n], n in hidden)] else rest
  }

  function ServiceChanges(prev: map<string, string>, next: map<string, string>,
                          hiddenOld: set<string>, hiddenNew: set<string>): seq<Change> {
    ServiceList(Added, Sorted(next.Keys - prev.Keys), next, hiddenNew)
    + ServiceList(Removed, Sorted(prev.Keys - next.Keys), prev, hiddenOld)
  }

  /** One change per key; each carries its method's own hidden flag. */
  function MethodList(action: Action, keys: seq<string>, index: map<string, MethodRecord>): seq<Change> {
    if keys == [] then []
    else
      var k := keys[|keys| - 1];
      var rest := MethodList(action, keys[..|keys| - 1], index);
      if k in index then rest + [MethodChange(action, index[k], index[k].hidden)] else rest
  }

  /** Names in text form, each with its mark: `-a, -b`. */
  function Marked(mark: char, names: seq<string>): string {
    if names == [] then ""
    else if |names| == 1 then [mark] + names[0]
    else [mark] + names[0] + ", " + Marked(mark, names[1..])
  }

  function FieldChange(was: MethodRecord, now: MethodRecord): Option<Change> {
    var added := Sorted(now.fields - was.fields);
    var removed := Sorted(was.fields - now.fields);
    if added == [] && removed == [] then None
    else Some(MethodChange(Modified, now, now.hidden).(
                kind := OfField, oldValue := Marked('-', removed), newValue := Marked('+', added)))
  }

  /** A method that became visible counts as added, one that became hidden as removed. */
  function FlipChange(was: MethodRecord, now: MethodRecord): Option<Change> {
    if was.hidden == now.hidden then None
    else if now.hidden then Some(MethodChange(Removed, was, false))
    else Some(MethodChange(Added, now, false))
  }

  function Extend(cs: seq<Change>, c: Option<Change>): seq<Change> {
    if c.None? then cs else cs + [c.value]
  }

  function Flips(keys: seq<string>, was: map<string, MethodRecord>, now: map<string, MethodRecord>): seq<Change> {
    if keys == [] then []
    else
      var k := keys[|keys| - 1];
      var rest := Flips(keys[..|keys| - 1], was, now);
      if k in was && k in now then Extend(rest, FlipChange(was[k], now[k])) else rest
  }

  function FieldEdits(keys: seq<string>, was: map<string, MethodRecord>, now: map<string, MethodRecord>): seq<Change> {
    if keys == [] then []
    else
      var k := keys[|keys| - 1];
      var rest := FieldEdits(keys[..|keys| - 1], was, now);
      if k in was && k in now && was[k].hidden == now[k].hidden then Extend(rest, FieldChange(was[k], now[k])) else rest
  }

  /** Keys in the new index only, in the old one only, and in both. */
  datatype KeySplit = KeySplit(added: seq<string>, removed: seq<string>, common: seq<string>)
  {
    ghost predicate Splits(was: map<string, MethodRecord>, now: map<string, MethodRecord>) {
      && (forall k :: k in added <==> k in now && k !in was)
      && (forall k :: k in removed <==> k in was && k !in now)
      && (forall k :: k in common <==> k in was && k in now)
      && (forall i, j :: 0 <= i < j < |added| ==> added[i] != added[j])
      && (forall i, j :: 0 <= i < j < |removed| ==> removed[i] != removed[j])
      && (forall i, j :: 0 <= i < j < |common| ==> common[i] != common[j])
    }
  }

  lemma SplitKeysSplits(was: map<string, MethodRecord>, now: map<string, MethodRecord>)
    ensures SplitKeys(was, now).Splits(was, now)
  {
    SortedIsAscending(now.Keys - was.Keys);
    SortedIsAscending(was.Keys - now.Keys);
    SortedIsAscending(now.Keys * was.Keys);
  }

  function SplitKeys(was: map<string, MethodRecord>, now: map<string, MethodRecord>): KeySplit {
    KeySplit(Sorted(now.Keys - was.Keys), Sorted(was.Keys - now.Keys), Sorted(now.Keys * was.Keys))
  }

  /** Everything reported about methods: at most one change per key. */
  function KeyChanges(s: KeySplit, was: map<string, MethodRecord>, now: map<string, MethodRecord>): seq<Change> {
    MethodList(Added, s.added, now) + MethodList(Removed, s.removed, was)
    + Flips(s.common, was, now) + FieldEdits(s.common, was, now)
  }

  function MethodChanges(was: map<string, MethodRecord>, now: map<string, MethodRecord>): seq<Change> {
    KeyChanges(SplitKeys(was, now), was, now)
  }

  /** The changes from `prev` to `next`; a bank's first snapshot is a baseline without changes. */
  function Changes(prev: Option<SnapshotState>, next: SnapshotState): seq<Change> {
    if prev.None? then []
    else
      ServiceChanges(prev.value.services, next.services, HiddenServices(prev.value.methods),
                     HiddenServices(next.methods))
      + MethodChanges(IndexOf(prev.value.methods), IndexOf(next.methods))
  }

  /** The keys both snapshots have: visibility flips first-hand, field edits where visibility agrees. */
  method CompareCommon(keys: seq<string>, was: map<string, MethodRecord>, now: map<string, MethodRecord>)
    returns (flips: seq<Change>, edits: seq<Change>)
    requires forall k :: k in keys ==> k in was && k in now
    ensures flips == Flips(keys, was, now)
    ensures edits == FieldEdits(keys, was, now)
  {
    flips, edits := [], [];
    for n := 0 to |keys|
      invariant forall k :: k in keys[..n] ==> k in keys
      invariant flips == Flips(keys[..n], was, now)
      invariant edits == FieldEdits(keys[..n], was, now)
    {
      var k := keys[n];
      assert keys[..n + 1][..n] == keys[..n];
      var oldM, newM := was[k], now[k];
      if oldM.hidden != newM.hidden {
        if newM.hidden {
          flips := flips + [MethodChange(Removed, oldM, false)];
        } else {
          flips := flips + [MethodChange(Added, newM, false)];
        }
      } else {
        var fc := FieldChange(oldM, newM);
        if fc.Some? {
          edits := edits + [fc.value];
        }
      }
    }
    assert keys[..|keys|] == keys;
  }

  /** The method part of the comparison: added, removed, flipped and edited keys, in this order. */
  method CompareMethods(
    oldIdx: map<string, MethodRecord>, newIdx: map<string, MethodRecord>) returns (changes: seq<Change>)
    ensures changes == MethodChanges(oldIdx, newIdx)
  {
    var keys := SplitKeys(oldIdx, newIdx);
    SplitKeysSplits(oldIdx, newIdx);
    var methodChanges := MethodList(Added, keys.added, newIdx) + MethodList(Removed, keys.removed, oldIdx);
    var flipChanges, fieldChanges := CompareCommon(keys.common, oldIdx, newIdx);
    changes := methodChanges + flipChanges + fieldChanges;
  }

  method ComputeChanges(prev: Option<SnapshotState>, next: SnapshotState) returns (changes: seq<Change>)
    ensures changes == Changes(prev, next)
  {
    if prev.None? {
      return [];
    }
    var oldIdx := Index(prev.value.methods);
    var newIdx := Index(next.methods);
    var methodChanges := CompareMethods(oldIdx, newIdx);
    var hiddenOld := HiddenServiceNames(prev.value.methods);
    var hiddenNew := HiddenServiceNames(next.methods);
    var serviceChanges := ServiceChanges(prev.value.services, next.services, hiddenOld, hiddenNew);
    changes := serviceChanges + methodChanges;
  }
}
