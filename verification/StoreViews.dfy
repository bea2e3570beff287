/** How the stored tables present themselves as a history of snapshots. */
module StoreViews {
  import opened Common
  import opened Ordering
  import opened Diff
  import opened Snapshot
  import opened Tables
  import opened History

  // ---------------------------------------------------------------- one insert at a time

  function FieldRows(methodId: nat, names: seq<string>): seq<FieldRow> {
    if names == [] then []
    else FieldRows(methodId, names[..|names| - 1]) + [FieldRow(methodId, names[|names| - 1])]
  }

  function ChangeRows(snapshotId: nat, bank: string, changes: seq<Change>): seq<ChangeRow> {
    if changes == [] then []
    else
      ChangeRows(snapshotId, bank, changes[..|changes| - 1])
      + [ChangeRow(Some(snapshotId), bank, changes[|changes| - 1])]
  }

  /** The row of a parsed method. */
  function RowFor(id: nat, serviceId: nat, m: ApiMethod): MethodRow {
    MethodRow(id, serviceId, m.summary, m.httpMethod, m.url, m.path, m.hidden, m.hiddenReason)
  }

  function WithService(rows: Rows, row: ServiceRow): Rows {
    rows.(services := rows.services + [row])
  }

  function WithMethod(rows: Rows, row: MethodRow, names: seq<string>): Rows {
    rows.(methods := rows.methods + [row], fields := rows.fields + FieldRows(row.id, names))
  }

  function PlusService(r: Reading, name: string, url: string, hidden: bool): Reading {
    Reading(SnapshotState(r.state.services[name := url], r.state.methods),
            r.visibleServices + if hidden then 0 else 1, r.visibleMethods)
  }

  function PlusMethods(r: Reading, records: seq<MethodRecord>, visible: nat): Reading {
    Reading(SnapshotState(r.state.services, r.state.methods + records), r.visibleServices, r.visibleMethods + visible)
  }

  lemma ReadWithService(rows: Rows, row: ServiceRow, snap: nat)
    requires forall m :: m in rows.methods ==> m.serviceId != row.id
    ensures Read(WithService(rows, row), snap)
         == if row.snapshotId == snap then PlusService(Read(rows, snap), row.name, row.url, row.hidden)
           else Read(rows, snap)
  {
    ReadMethodsNewService(rows.methods, rows.services, rows.fields, row, snap);
    assert (rows.services + [row])[..|rows.services|] == rows.services;
  }

  lemma {:induction false} FieldRowMembers(methodId: nat, names: seq<string>)
    ensures forall f :: f in FieldRows(methodId, names) <==> f.methodId == methodId && f.name in names
  {
    if names != [] {
      assert names == names[..|names| - 1] + [names[|names| - 1]];
      FieldRowMembers(methodId, names[..|names| - 1]);
    }
  }

  lemma FieldsAdded(fields: seq<FieldRow>, methodId: nat, names: seq<string>)
    requires forall f :: f in fields ==> f.methodId != methodId
    ensures FieldsOf(fields + FieldRows(methodId, names), methodId) == set n | n in names
  {
    FieldRowMembers(methodId, names);
    var all := fields + FieldRows(methodId, names);
    forall n | n in names ensures n in FieldsOf(all, methodId) {
      assert FieldRow(methodId, n) in all;
    }
  }

  ghost predicate IdUnused(rows: Rows, methodId: nat) {
    && (forall m :: m in rows.methods ==> m.id != methodId)
    && (forall f :: f in rows.fields ==> f.methodId != methodId)
  }

  /** A new method is read back with exactly the field names written for it; nothing else changes. */
  lemma ReadWithMethod(rows: Rows, service: ServiceRow, row: MethodRow, names: seq<string>, snap: nat)
    requires FindService(rows.services, row.serviceId) == Some(service)
    requires IdUnused(rows, row.id)
    ensures Read(WithMethod(rows, row, names), snap)
         == if service.snapshotId == snap
            then PlusMethods(Read(rows, snap), [StoredRecord(service.name, row, set n | n in names)],
                             if service.hidden || row.hidden then 0 else 1)
            else Read(rows, snap)
  {
    var extra := FieldRows(row.id, names);
    FieldRowMembers(row.id, names);
    FieldsAdded(rows.fields, row.id, names);
    ReadMethodsNewFields(rows.methods, rows.services, rows.fields, extra, snap);
    assert (rows.methods + [row])[..|rows.methods|] == rows.methods;
  }

  /** Written and read back, a parsed method is the record the comparison made of it. */
  lemma RecordRoundTrip(service: string, id: nat, serviceId: nat, m: ApiMethod)
    ensures StoredRecord(service, RowFor(id, serviceId, m), set n | n in Sorted(FieldNames(m))) == RecordOf(service, m)
  {
    SortedMembers(FieldNames(m));
    assert (set n | n in Sorted(FieldNames(m))) == FieldNames(m);
  }

  /** The first `n` methods of an entry, after its service row. */
  function PlusFirst(r: Reading, entry: ServiceEntry, n: nat): Reading
    requires n <= |entry.methods|
  {
    PlusMethods(r, MethodRecords(entry.name, entry.methods[..n]),
                if EntryIsHidden(entry.methods) then 0 else VisibleMethods(entry.methods[..n]))
  }

  /** A whole entry: its service and all its methods. */
  function PlusEntry(r: Reading, entry: ServiceEntry): Reading {
    PlusMethods(PlusService(r, entry.name, ServiceUrl(entry.methods), EntryIsHidden(entry.methods)),
                MethodRecords(entry.name, entry.methods), VisibleMethods(entry.methods))
  }

  lemma PlusNone(r: Reading, entry: ServiceEntry)
    ensures PlusFirst(r, entry, 0) == r
  {
    assert r.state.methods + [] == r.state.methods;
  }

  lemma PlusNext(r: Reading, entry: ServiceEntry, n: nat)
    requires n < |entry.methods|
    ensures var m := entry.methods[n];
      PlusFirst(r, entry, n + 1)
      == PlusMethods(PlusFirst(r, entry, n), [RecordOf(entry.name, m)],
                     if EntryIsHidden(entry.methods) || m.hidden then 0 else 1)
  {
    assert entry.methods[..n + 1][..n] == entry.methods[..n];
  }

  lemma {:induction false} HiddenMethodsUncounted(methods: seq<ApiMethod>)
    requires forall m :: m in methods ==> m.hidden
    ensures VisibleMethods(methods) == 0
  {
    if methods != [] {
      assert forall m :: m in methods[..|methods| - 1] ==> m in methods;
      assert methods[|methods| - 1] in methods;
      HiddenMethodsUncounted(methods[..|methods| - 1]);
    }
  }

  /** Methods of a hidden service are all hidden, so leaving them out of the count loses nothing. */
  lemma PlusAll(r: Reading, entry: ServiceEntry)
    ensures PlusFirst(PlusService(r, entry.name, ServiceUrl(entry.methods), EntryIsHidden(entry.methods)),
                      entry, |entry.methods|) == PlusEntry(r, entry)
  {
    assert entry.methods[..|entry.methods|] == entry.methods;
    EntryHiddenMeaning(entry.methods);
    if EntryIsHidden(entry.methods) {
      HiddenMethodsUncounted(entry.methods);
    }
  }

  /** What should be read back for a parsed snapshot. */
  function ReadingOf(services: seq<ServiceEntry>): Reading {
    Reading(ToRecords(services), VisibleServiceCount(services), VisibleMethodCount(services))
  }

  lemma ReadingNext(services: seq<ServiceEntry>, n: nat)
    requires n < |services|
    ensures ReadingOf(services[..n + 1]) == PlusEntry(ReadingOf(services[..n]), services[n])
  {
    assert services[..n + 1][..n] == services[..n];
  }

  lemma StateOfReading(services: seq<ServiceEntry>)
    ensures ReadingOf(services).state == ToRecords(services)
  {
  }

  lemma ReadSame(a: Rows, b: Rows)
    requires a.services == b.services && a.methods == b.methods && a.fields == b.fields
    ensures forall snap :: Read(a, snap) == Read(b, snap)
  {
  }

  lemma NothingRead(rows: Rows, snap: nat)
    requires forall s :: s in rows.services ==> s.snapshotId != snap
    ensures Read(rows, snap) == ReadingOf([])
  {
    NothingStored(rows.services, snap);
    NoMethodsStored(rows.methods, rows.services, rows.fields, snap);
  }

  /** A snapshot id not drawn yet has nothing stored under it. */
  lemma UnusedId(rows: Rows, nextSnapshot: nat, nextService: nat, nextMethod: nat)
    requires Fits(rows, nextSnapshot, nextService, nextMethod)
    ensures forall s :: s in rows.services ==> s.snapshotId < nextSnapshot
  {
    forall s | s in rows.services ensures s.snapshotId < nextSnapshot {
      assert HasSnapshot(rows, s.snapshotId);
    }
  }

  // ---------------------------------------------------------------- integrity of inserts

  ghost predicate Fits(rows: Rows, nextSnapshot: nat, nextService: nat, nextMethod: nat) {
    && Integrity(rows)
    && (forall r :: r in rows.snapshots ==> r.id < nextSnapshot)
    && (forall s :: s in rows.services ==> s.id < nextService)
    && (forall m :: m in rows.methods ==> m.id < nextMethod)
  }

  lemma NextMethodUnused(rows: Rows, nextSnapshot: nat, nextService: nat, nextMethod: nat)
    requires Fits(rows, nextSnapshot, nextService, nextMethod)
    ensures IdUnused(rows, nextMethod)
  {
    forall f | f in rows.fields ensures f.methodId != nextMethod {
      assert HasMethod(rows, f.methodId);
    }
  }

  lemma FitsWithSnapshot(rows: Rows, bank: string, nextSnapshot: nat, nextService: nat, nextMethod: nat)
    requires Fits(rows, nextSnapshot, nextService, nextMethod)
    ensures var after := rows.(snapshots := rows.snapshots + [SnapshotRow(nextSnapshot, bank)]);
      Fits(after, nextSnapshot + 1, nextService, nextMethod) && HasSnapshot(after, nextSnapshot)
  {
    var row := SnapshotRow(nextSnapshot, bank);
    var after := rows.(snapshots := rows.snapshots + [row]);
    assert row in after.snapshots;
    forall id | HasSnapshot(rows, id) ensures HasSnapshot(after, id) {
      var r :| r in rows.snapshots && r.id == id;
      assert r in after.snapshots;
    }
    forall m | m in after.methods ensures FindService(after.services, m.serviceId).Some? {
      assert m in rows.methods;
    }
    forall f | f in after.fields ensures HasMethod(after, f.methodId) {
      assert HasMethod(rows, f.methodId);
    }
  }

  lemma FitsWithService(rows: Rows, row: ServiceRow, nextSnapshot: nat, nextService: nat, nextMethod: nat)
    requires Fits(rows, nextSnapshot, nextService, nextMethod)
    requires row.id == nextService && HasSnapshot(rows, row.snapshotId)
    ensures Fits(WithService(rows, row), nextSnapshot, nextService + 1, nextMethod)
    ensures FindService(WithService(rows, row).services, row.id) == Some(row)
    ensures forall m :: m in rows.methods ==> m.serviceId != row.id
  {
    var after := WithService(rows, row);
    forall s | s in after.services ensures HasSnapshot(after, s.snapshotId) {
      assert s == row || s in rows.services;
      assert HasSnapshot(rows, s.snapshotId);
    }
    forall m | m in rows.methods ensures m.serviceId != row.id && FindService(after.services, m.serviceId).Some? {
      FoundInTable(rows.services, m.serviceId);
      FindBelow(rows.services, row, m.serviceId);
    }
    forall f | f in after.fields ensures HasMethod(after, f.methodId) {
      assert HasMethod(rows, f.methodId);
    }
  }

  /** Overwriting URL and hidden flag of a stored service leaves all identities and references alone. */
  lemma FitsWithOverwrite(
    rows: Rows, at: nat, url: string, hidden: bool, nextSnapshot: nat, nextService: nat, nextMethod: nat)
    requires Fits(rows, nextSnapshot, nextService, nextMethod) && at < |rows.services|
    ensures var after := rows.(services := rows.services[at := rows.services[at].(url := url, hidden := hidden)]);
      Fits(after, nextSnapshot, nextService + 1, nextMethod)
  {
    var row := rows.services[at].(url := url, hidden := hidden);
    var after := rows.(services := rows.services[at := row]);
    assert rows.services[at] in rows.services;
    forall s | s in after.services ensures HasSnapshot(after, s.snapshotId) && s.id < nextService {
      assert s == row || s in rows.services;
    }
    forall m | m in after.methods ensures FindService(after.services, m.serviceId).Some? {
      FindAfterOverwrite(rows.services, at, row, m.serviceId);
    }
    forall f | f in after.fields ensures HasMethod(after, f.methodId) {
      assert HasMethod(rows, f.methodId);
    }
  }

  lemma {:induction false} FindAfterOverwrite(services: seq<ServiceRow>, at: nat, row: ServiceRow, id: nat)
    requires at < |services| && row.id == services[at].id
    ensures FindService(services[at := row], id).Some? <==> FindService(services, id).Some?
  {
    var n := |services| - 1;
    if at < n {
      FindAfterOverwrite(services[..n], at, row, id);
      assert services[at := row][..n] == services[..n][at := row];
    } else {
      assert services[at := row][..n] == services[..n];
    }
  }

  lemma FitsWithMethod(
    rows: Rows, row: MethodRow, names: seq<string>, nextSnapshot: nat, nextService: nat, nextMethod: nat)
    requires Fits(rows, nextSnapshot, nextService, nextMethod)
    requires row.id == nextMethod && FindService(rows.services, row.serviceId).Some?
    ensures Fits(WithMethod(rows, row, names), nextSnapshot, nextService, nextMethod + 1)
    ensures forall f :: f in rows.fields ==> f.methodId != row.id
  {
    var after := WithMethod(rows, row, names);
    FieldRowMembers(row.id, names);
    assert row in after.methods;
    forall f | f in after.fields ensures HasMethod(after, f.methodId) {
      if f in rows.fields {
        assert HasMethod(rows, f.methodId);
        var m :| m in rows.methods && m.id == f.methodId;
        assert m in after.methods;
      }
    }
    forall f | f in rows.fields ensures f.methodId != row.id {
      assert HasMethod(rows, f.methodId);
    }
    forall s | s in after.services ensures HasSnapshot(after, s.snapshotId) {
      assert HasSnapshot(rows, s.snapshotId);
    }
  }

  // ---------------------------------------------------------------- the tables as a history

  function ViewSnapshots(rows: Rows, list: seq<SnapshotRow>): seq<StoredSnapshot> {
    if list == [] then []
    else
      var last := list[|list| - 1];
      ViewSnapshots(rows, list[..|list| - 1]) + [StoredSnapshot(last.id, last.bank, Read(rows, last.id).state)]
  }

  function ViewLog(changes: seq<ChangeRow>): seq<Logged> {
    if changes == [] then []
    else ViewLog(changes[..|changes| - 1]) + [Logged(changes[|changes| - 1].bank, changes[|changes| - 1].change)]
  }

  lemma {:induction false} ViewRows(rows: Rows, list: seq<SnapshotRow>)
    ensures RowsOf(ViewSnapshots(rows, list)) == list
  {
    hide Read;
    if list != [] {
      var init, last := list[..|list| - 1], list[|list| - 1];
      ViewRows(rows, init);
      var view := ViewSnapshots(rows, init);
      assert (view + [StoredSnapshot(last.id, last.bank, Read(rows, last.id).state)])[..|view|] == view;
    }
  }

  /** The view only depends on what is read for the listed snapshots. */
  lemma {:induction false} ViewSameReads(before: Rows, after: Rows, list: seq<SnapshotRow>)
    requires forall r :: r in list ==> Read(before, r.id) == Read(after, r.id)
    ensures ViewSnapshots(before, list) == ViewSnapshots(after, list)
  {
    if list != [] {
      assert forall r :: r in list[..|list| - 1] ==> r in list;
      assert list[|list| - 1] in list;
      ViewSameReads(before, after, list[..|list| - 1]);
    }
  }

  lemma {:induction false} ViewPruned(rows: Rows, list: seq<SnapshotRow>, ids: seq<nat>)
    ensures ViewSnapshots(rows, KeptSnapshots(list, ids)) == WithoutIds(ViewSnapshots(rows, list), ids)
  {
    if list != [] {
      var init, last := list[..|list| - 1], list[|list| - 1];
      ViewPruned(rows, init, ids);
      var view, kept := ViewSnapshots(rows, init), KeptSnapshots(init, ids);
      assert (view + [StoredSnapshot(last.id, last.bank, Read(rows, last.id).state)])[..|view|] == view;
      assert (kept + [last])[..|kept|] == kept;
    }
  }

  lemma {:induction false} ViewLogDetached(changes: seq<ChangeRow>, ids: seq<nat>)
    ensures ViewLog(DetachedChanges(changes, ids)) == ViewLog(changes)
  {
    if changes != [] {
      var init := changes[..|changes| - 1];
      ViewLogDetached(init, ids);
      var rest := DetachedChanges(init, ids);
      assert (rest + [Detached(changes[|changes| - 1], ids)])[..|rest|] == rest;
    }
  }

  lemma {:induction false} ViewLogAppend(rows: seq<ChangeRow>, snapshotId: nat, bank: string, changes: seq<Change>)
    ensures ViewLog(rows + ChangeRows(snapshotId, bank, changes)) == ViewLog(rows) + LogOf(bank, changes)
  {
    if changes == [] {
      assert rows + ChangeRows(snapshotId, bank, changes) == rows;
    } else {
      var init, last := changes[..|changes| - 1], changes[|changes| - 1];
      ViewLogAppend(rows, snapshotId, bank, init);
      var whole, row := rows + ChangeRows(snapshotId, bank, init), ChangeRow(Some(snapshotId), bank, last);
      assert rows + ChangeRows(snapshotId, bank, changes) == whole + [row];
      ViewLogOne(whole, row);
      assert LogOf(bank, changes) == LogOf(bank, init) + [Logged(bank, last)];
    }
  }

  lemma ViewLogOne(rows: seq<ChangeRow>, row: ChangeRow)
    ensures ViewLog(rows + [row]) == ViewLog(rows) + [Logged(row.bank, row.change)]
  {
    assert (rows + [row])[..|rows|] == rows;
  }

  /** The latest row of a bank is the snapshot the history has in force. */
  lemma {:induction false} ViewLatest(rows: Rows, list: seq<SnapshotRow>, bank: string)
    ensures var id := LatestId(list, bank);
      LatestState(ViewSnapshots(rows, list), bank) == if id.None? then None else Some(Read(rows, id.value).state)
  {
    if list != [] {
      var init, last := list[..|list| - 1], list[|list| - 1];
      ViewLatest(rows, init, bank);
      var view := ViewSnapshots(rows, init);
      assert (view + [StoredSnapshot(last.id, last.bank, Read(rows, last.id).state)])[..|view|] == view;
    }
  }

  lemma {:induction false} IdsMembers(list: seq<SnapshotRow>, bank: string)
    ensures forall id :: id in IdsNewestFirst(list, bank) <==> exists r :: r in list && r.bank == bank && r.id == id
  {
    if list != [] {
      var init, last := list[..|list| - 1], list[|list| - 1];
      assert list == init + [last];
      IdsMembers(init, bank);
      forall id | exists r :: r in list && r.bank == bank && r.id == id ensures id in IdsNewestFirst(list, bank) {
        var r :| r in list && r.bank == bank && r.id == id;
        assert r in init || r == last;
      }
    }
  }

  /** The tables after a snapshot was written, its changes logged and old snapshots pruned, seen as a history. */
  lemma ViewAfterImport(
    before: Rows, written: Rows, row: SnapshotRow, state: SnapshotState, changes: seq<Change>, keep: int)
    requires written.snapshots == before.snapshots + [row] && written.changes == before.changes
    requires Integrity(written.(changes := written.changes + ChangeRows(row.id, row.bank, changes)))
    requires forall r :: r in before.snapshots ==> r.id < row.id
    requires forall snap :: snap != row.id ==> Read(written, snap) == Read(before, snap)
    requires Read(written, row.id).state == state
    ensures var ids := CleanupIds(written.snapshots, row.bank, keep);
      var logged := written.(changes := written.changes + ChangeRows(row.id, row.bank, changes));
      var after := WithoutSnapshots(logged, ids);
      var view := ViewSnapshots(before, before.snapshots) + [StoredSnapshot(row.id, row.bank, state)];
      && ViewSnapshots(after, after.snapshots) == Pruned(view, row.bank, keep)
      && ViewLog(after.changes) == ViewLog(before.changes) + LogOf(row.bank, changes)
  {
    hide Read, KeptServices, KeptMethods, KeptFields, CleanupIds, ChangeRows, LogOf, WithoutIds, DetachedChanges;
    var ids := CleanupIds(written.snapshots, row.bank, keep);
    var logged := written.(changes := written.changes + ChangeRows(row.id, row.bank, changes));
    var after := WithoutSnapshots(logged, ids);
    ViewGrows(before, written, row, state);
    ViewRows(written, written.snapshots);
    KeptReadSame(written, logged, ids);
    ViewSameReads(after, written, after.snapshots);
    ViewPruned(written, written.snapshots, ids);
    ViewLogDetached(logged.changes, ids);
    ViewLogAppend(before.changes, row.id, row.bank, changes);
  }

  lemma ViewGrows(before: Rows, written: Rows, row: SnapshotRow, state: SnapshotState)
    requires written.snapshots == before.snapshots + [row]
    requires forall r :: r in before.snapshots ==> r.id < row.id
    requires forall snap :: snap != row.id ==> Read(written, snap) == Read(before, snap)
    requires Read(written, row.id).state == state
    ensures ViewSnapshots(written, written.snapshots)
         == ViewSnapshots(before, before.snapshots) + [StoredSnapshot(row.id, row.bank, state)]
  {
    hide Read;
    ViewSameReads(written, before, before.snapshots);
    assert written.snapshots[..|before.snapshots|] == before.snapshots;
  }

  lemma KeptReadSame(written: Rows, logged: Rows, ids: seq<nat>)
    requires Integrity(logged) && logged == written.(changes := logged.changes)
    ensures forall r :: r in WithoutSnapshots(logged, ids).snapshots ==>
      Read(WithoutSnapshots(logged, ids), r.id) == Read(written, r.id)
  {
    var after := WithoutSnapshots(logged, ids);
    KeptSnapshotRows(logged.snapshots, ids);
    ReadSame(written, logged);
    forall r | r in after.snapshots ensures Read(after, r.id) == Read(written, r.id) {
      SurvivorsReadSame(logged, ids, r.id);
    }
  }

  /** The rows of a change list refer to its snapshot and say its changes, in order. */
  lemma {:induction false} ChangeRowsInOrder(snapshotId: nat, bank: string, changes: seq<Change>)
    ensures |ChangeRows(snapshotId, bank, changes)| == |changes|
    ensures forall i :: 0 <= i < |changes| ==>
      ChangeRows(snapshotId, bank, changes)[i] == ChangeRow(Some(snapshotId), bank, changes[i])
  {
    if changes != [] {
      ChangeRowsInOrder(snapshotId, bank, changes[..|changes| - 1]);
    }
  }

  lemma FitsWithChanges(
    rows: Rows, id: nat, bank: string, changes: seq<Change>, nextSnapshot: nat, nextService: nat, nextMethod: nat)
    requires Fits(rows, nextSnapshot, nextService, nextMethod) && HasSnapshot(rows, id)
    ensures Fits(rows.(changes := rows.changes + ChangeRows(id, bank, changes)), nextSnapshot, nextService, nextMethod)
  {
    hide ChangeRows;
    ChangeRowsInOrder(id, bank, changes);
    var after := rows.(changes := rows.changes + ChangeRows(id, bank, changes));
    forall f | f in after.fields ensures HasMethod(after, f.methodId) {
      assert HasMethod(rows, f.methodId);
    }
  }

  lemma KeptRows(rows: Rows, ids: seq<nat>)
    ensures WithoutSnapshots(rows, ids).snapshots == KeptSnapshots(rows.snapshots, ids)
  {
  }

  /** Pruning never takes the snapshot just added, so it stays the latest. */
  lemma NewestSurvives(list: seq<SnapshotRow>, row: SnapshotRow, keep: int)
    requires forall r :: r in list ==> r.id < row.id
    ensures var ids := CleanupIds(list + [row], row.bank, keep);
      row.id !in ids && LatestId(KeptSnapshots(list + [row], ids), row.bank) == Some(row.id)
  {
    var all := list + [row];
    var ids := CleanupIds(all, row.bank, keep);
    assert all[..|list|] == list;
    IdsMembers(list, row.bank);
    assert IdsNewestFirst(all, row.bank) == [row.id] + IdsNewestFirst(list, row.bank);
    assert forall id :: id in ids ==> id in IdsNewestFirst(list, row.bank);
    var kept := KeptSnapshots(list, ids);
    assert KeptSnapshots(all, ids) == kept + [row];
    assert (kept + [row])[..|kept|] == kept;
  }
}
