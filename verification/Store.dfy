/** The database and the import transaction (app/repository.py, app/snapshot_import.py). */
module Store {
  import opened Common
  import opened Ordering
  import opened Diff
  import opened Snapshot
  import opened Tables
  import opened History
  import opened StoreViews
  import opened ImportLaws

  class Database {
    var rows: Rows
    /** Serial counters; a rolled-back transaction does not give ids back. */
    var nextSnapshotId: nat
    var nextServiceId: nat
    var nextMethodId: nat

    ghost predicate Valid()
      reads this
    {
      Fits(rows, nextSnapshotId, nextServiceId, nextMethodId)
    }

    ghost function View(): Db
      reads this
    {
      Db(ViewSnapshots(rows, rows.snapshots), ViewLog(rows.changes), nextSnapshotId)
    }

    constructor ()
      ensures Valid() && View() == EMPTY
    {
      rows := Rows([], [], [], [], []);
      nextSnapshotId, nextServiceId, nextMethodId := 1, 1, 1;
    }

    // -------------------------------------------------------------- queries

    function GetLatestSnapshot(bank: string): Option<nat>
      reads this
    {
      LatestId(rows.snapshots, bank)
    }

    function GetSnapshotState(id: nat): SnapshotState
      reads this
    {
      Read(rows, id).state
    }

    function GetSnapshotsForCleanup(bank: string, keep: int): seq<nat>
      reads this
    {
      CleanupIds(rows.snapshots, bank, keep)
    }

    /** Visible services and methods of the bank's latest snapshot; None for a bank without one. */
    function GetStats(bank: string): Option<(nat, nat)>
      reads this
    {
      var id := GetLatestSnapshot(bank);
      if id.None? then None
      else Some((Read(rows, id.value).visibleServices, Read(rows, id.value).visibleMethods))
    }

    /** Visible methods of the bank's latest snapshot, as the sanity check counts them. */
    function VisibleBefore(bank: string): Option<nat>
      reads this
    {
      var id := GetLatestSnapshot(bank);
      if id.None? then None else Some(VisibleCount(GetSnapshotState(id.value).methods))
    }

    // -------------------------------------------------------------- single inserts

    method CreateSnapshot(bank: string) returns (id: nat)
      requires Valid()
      modifies this
      ensures Valid() && HasSnapshot(rows, id)
      ensures id == old(nextSnapshotId) && nextSnapshotId == id + 1
      ensures nextServiceId == old(nextServiceId) && nextMethodId == old(nextMethodId)
      ensures rows == old(rows).(snapshots := old(rows).snapshots + [SnapshotRow(id, bank)])
    {
      FitsWithSnapshot(rows, bank, nextSnapshotId, nextServiceId, nextMethodId);
      id := nextSnapshotId;
      nextSnapshotId := nextSnapshotId + 1;
      rows := rows.(snapshots := rows.snapshots + [SnapshotRow(id, bank)]);
    }

    /** A service of that name in the snapshot is overwritten in place, otherwise a row is added. */
    method CreateService(snapshotId: nat, name: string, url: string, hidden: bool) returns (id: nat)
      requires Valid() && HasSnapshot(rows, snapshotId)
      modifies this
      ensures Valid()
      ensures nextServiceId == old(nextServiceId) + 1
      ensures nextSnapshotId == old(nextSnapshotId) && nextMethodId == old(nextMethodId)
      ensures (forall s :: s in old(rows).services ==> s.snapshotId != snapshotId || s.name != name) ==>
        id == old(nextServiceId) && rows == WithService(old(rows), ServiceRow(id, snapshotId, name, url, hidden))
      ensures (exists s :: s in old(rows).services && s.snapshotId == snapshotId && s.name == name) ==>
        exists i :: 0 <= i < |old(rows).services|
          && old(rows).services[i].snapshotId == snapshotId && old(rows).services[i].name == name
          && id == old(rows).services[i].id
          && rows == old(rows).(
              services := old(rows).services[i := old(rows).services[i].(url := url, hidden := hidden)])
    {
      var at := 0;
      while at < |rows.services| && !(rows.services[at].snapshotId == snapshotId && rows.services[at].name == name)
        invariant 0 <= at <= |rows.services|
        invariant forall i :: 0 <= i < at ==> rows.services[i].snapshotId != snapshotId || rows.services[i].name != name
      {
        at := at + 1;
      }
      if at < |rows.services| {
        id := rows.services[at].id;
        assert rows.services[at] in rows.services;
        FitsWithOverwrite(rows, at, url, hidden, nextSnapshotId, nextServiceId, nextMethodId);
        rows := rows.(services := rows.services[at := rows.services[at].(url := url, hidden := hidden)]);
      } else {
        id := nextServiceId;
        FitsWithService(rows, ServiceRow(id, snapshotId, name, url, hidden), nextSnapshotId, nextServiceId,
                        nextMethodId);
        rows := WithService(rows, ServiceRow(id, snapshotId, name, url, hidden));
      }
      nextServiceId := nextServiceId + 1;
    }

    /** None when a CHECK constraint refuses the row. */
    method CreateMethod(serviceId: nat, m: ApiMethod) returns (id: Option<nat>)
      requires Valid() && FindService(rows.services, serviceId).Some?
      modifies this
      ensures Valid()
      ensures nextMethodId == old(nextMethodId) + 1
      ensures nextSnapshotId == old(nextSnapshotId) && nextServiceId == old(nextServiceId)
      ensures id == if Storable(m) then Some(old(nextMethodId)) else None
      ensures rows == if Storable(m) then WithMethod(old(rows), RowFor(old(nextMethodId), serviceId, m), [])
          else old(rows)
    {
      if Storable(m) {
        FitsWithMethod(rows, RowFor(nextMethodId, serviceId, m), [], nextSnapshotId, nextServiceId, nextMethodId);
        id := Some(nextMethodId);
        rows := WithMethod(rows, RowFor(nextMethodId, serviceId, m), []);
      } else {
        id := None;
      }
      nextMethodId := nextMethodId + 1;
    }

    method CreateFields(methodId: nat, names: seq<string>)
      modifies this`rows
      ensures rows == old(rows).(fields := old(rows).fields + FieldRows(methodId, names))
    {
      rows := rows.(fields := rows.fields + FieldRows(methodId, names));
    }

    method CreateChanges(snapshotId: nat, bank: string, changes: seq<Change>)
      modifies this`rows
      ensures rows == old(rows).(changes := old(rows).changes + ChangeRows(snapshotId, bank, changes))
    {
      if changes != [] {
        rows := rows.(changes := rows.changes + ChangeRows(snapshotId, bank, changes));
      }
    }

    method DeleteSnapshots(ids: seq<nat>)
      requires Valid()
      modifies this`rows
      ensures Valid()
      ensures rows == WithoutSnapshots(old(rows), ids)
    {
      PruneKeepsIntegrity(rows, ids);
      KeptSnapshotRows(rows.snapshots, ids);
      KeptServiceRows(rows.services, ids);
      MethodsKept(rows.methods, KeptServices(rows.services, ids));
      rows := WithoutSnapshots(rows, ids);
    }

    // -------------------------------------------------------------- writing a snapshot

    /** One method with its field names, under a service that is already stored. */
    method WriteMethod(serviceId: nat, m: ApiMethod, ghost service: ServiceRow) returns (ok: bool)
      requires Valid() && FindService(rows.services, serviceId) == Some(service)
      modifies this
      ensures Valid() && nextSnapshotId == old(nextSnapshotId) && nextServiceId == old(nextServiceId)
      ensures nextMethodId >= old(nextMethodId)
      ensures ok == Storable(m)
      ensures rows.snapshots == old(rows).snapshots && rows.services == old(rows).services
          && rows.changes == old(rows).changes
      ensures ok ==> forall snap ::
        Read(rows, snap) == if snap == service.snapshotId
                            then PlusMethods(Read(old(rows), snap), [RecordOf(service.name, m)],
                                             if service.hidden || m.hidden then 0 else 1)
                            else Read(old(rows), snap)
    {
      hide Storable, RecordOf, Read, PlusMethods, Fits, IdUnused;
      ghost var before := rows;
      NextMethodUnused(before, nextSnapshotId, nextServiceId, nextMethodId);
      var methodId := CreateMethod(serviceId, m);
      if methodId.None? {
        return false;
      }
      ghost var row := RowFor(methodId.value, serviceId, m);
      var names := Sorted(FieldNames(m));
      FitsWithMethod(before, row, names, nextSnapshotId, nextServiceId, row.id);
      assert before.fields + FieldRows(row.id, []) + FieldRows(row.id, names)
        == before.fields + FieldRows(row.id, names);
      CreateFields(methodId.value, names);
      assert rows == WithMethod(before, row, names);
      forall snap: nat {
        ReadWithMethod(before, service, row, names, snap);
      }
      RecordRoundTrip(service.name, row.id, serviceId, m);
      ok := true;
    }

    /** One service with its methods and their fields. */
    method WriteService(snapshotId: nat, entry: ServiceEntry) returns (ok: bool)
      requires Valid() && HasSnapshot(rows, snapshotId)
      requires forall s :: s in rows.services ==> s.snapshotId != snapshotId || s.name != entry.name
      modifies this
      ensures Valid() && nextSnapshotId == old(nextSnapshotId)
      ensures nextServiceId >= old(nextServiceId) && nextMethodId >= old(nextMethodId)
      ensures ok == MethodsStorable(entry.methods)
      ensures rows.snapshots == old(rows).snapshots && rows.changes == old(rows).changes
      ensures forall s :: s in rows.services ==> s in old(rows).services || s.name == entry.name
      ensures ok ==> forall snap ::
        Read(rows, snap) == if snap == snapshotId then PlusEntry(Read(old(rows), snap), entry)
          else Read(old(rows), snap)
    {
      hide Storable, EntryIsHidden, ServiceUrl, Fits, Read;
      ghost var before := rows;
      var url := ServiceUrl(entry.methods);
      var hidden := EntryIsHidden(entry.methods);
      ghost var service := ServiceRow(nextServiceId, snapshotId, entry.name, url, hidden);
      FitsWithService(rows, service, nextSnapshotId, nextServiceId, nextMethodId);
      var serviceId := CreateService(snapshotId, entry.name, url, hidden);
      forall snap: nat {
        ReadWithService(before, service, snap);
      }
      ghost var base := rows;
      PlusNone(Read(base, snapshotId), entry);
      for n := 0 to |entry.methods|
        invariant Valid() && nextSnapshotId == old(nextSnapshotId)
        invariant nextServiceId >= old(nextServiceId) && nextMethodId >= old(nextMethodId)
        invariant rows.snapshots == base.snapshots && rows.services == base.services && rows.changes == base.changes
        invariant forall i :: 0 <= i < n ==> Storable(entry.methods[i])
        invariant forall snap ::
          Read(rows, snap) == if snap == snapshotId then PlusFirst(Read(base, snap), entry, n) else Read(base, snap)
      {
        var written := WriteMethod(serviceId, entry.methods[n], service);
        if !written {
          return false;
        }
        PlusNext(Read(base, snapshotId), entry, n);
      }
      PlusAll(Read(before, snapshotId), entry);
      ok := true;
    }

    /** All services of a snapshot under a new snapshot id. */
    method WriteSnapshot(bank: string, snapshot: ParseSnapshot) returns (id: nat, ok: bool)
      requires Valid()
      modifies this
      ensures Valid()
      ensures id == old(nextSnapshotId) && nextSnapshotId == id + 1
      ensures nextServiceId >= old(nextServiceId) && nextMethodId >= old(nextMethodId)
      ensures ok == AllStorable(snapshot)
      ensures rows.snapshots == old(rows).snapshots + [SnapshotRow(id, bank)] && rows.changes == old(rows).changes
      ensures ok ==> GetSnapshotState(id) == ToRecords(snapshot) && Read(rows, id) == ReadingOf(snapshot)
      ensures ok ==> forall snap :: snap != id ==> Read(rows, snap) == Read(old(rows), snap)
    {
      hide MethodsStorable, Fits, ReadingOf;
      UnusedId(rows, nextSnapshotId, nextServiceId, nextMethodId);
      NothingRead(rows, nextSnapshotId);
      ghost var before := rows;
      id := CreateSnapshot(bank);
      ReadSame(before, rows);
      assert snapshot[..0] == [];
      for n := 0 to |snapshot|
        invariant Valid() && HasSnapshot(rows, id) && nextSnapshotId == id + 1
        invariant nextServiceId >= old(nextServiceId) && nextMethodId >= old(nextMethodId)
        invariant rows.snapshots == before.snapshots + [SnapshotRow(id, bank)] && rows.changes == before.changes
        invariant forall s :: s in rows.services ==>
          s.snapshotId != id || exists i :: 0 <= i < n && snapshot[i].name == s.name
        invariant forall i :: 0 <= i < n ==> MethodsStorable(snapshot[i].methods)
        invariant Read(rows, id) == ReadingOf(snapshot[..n])
        invariant forall snap :: snap != id ==> Read(rows, snap) == Read(before, snap)
      {
        hide Read;
        var written := WriteService(id, snapshot[n]);
        if !written {
          return id, false;
        }
        ReadingNext(snapshot, n);
      }
      assert snapshot[..|snapshot|] == snapshot;
      ok := true;
      StateOfReading(snapshot);
    }

    /** Log the changes and prune; `before` are the tables without the snapshot just written under `id`. */
    method LogAndPrune(
      id: nat, bank: string, changes: seq<Change>, keep: int, ghost before: Rows, ghost records: SnapshotState)
      requires Valid()
      requires rows.snapshots == before.snapshots + [SnapshotRow(id, bank)] && rows.changes == before.changes
      requires forall r :: r in before.snapshots ==> r.id < id
      requires forall snap :: snap != id ==> Read(rows, snap) == Read(before, snap)
      requires Read(rows, id).state == records
      modifies this`rows
      ensures Valid()
      ensures var view := ViewSnapshots(before, before.snapshots) + [StoredSnapshot(id, bank, records)];
        ViewSnapshots(rows, rows.snapshots) == Pruned(view, bank, keep)
      ensures ViewLog(rows.changes) == ViewLog(before.changes) + LogOf(bank, changes)
      ensures GetLatestSnapshot(bank) == Some(id) && Read(rows, id) == Read(old(rows), id)
    {
      hide Read, ViewSnapshots, ViewLog, CleanupIds, Pruned, WithoutSnapshots, ChangeRows, LogOf, KeptSnapshots,
          LatestId;
      ghost var written := rows;
      CreateChanges(id, bank, changes);
      ReadSame(written, rows);
      assert SnapshotRow(id, bank) in written.snapshots;
      FitsWithChanges(written, id, bank, changes, nextSnapshotId, nextServiceId, nextMethodId);
      var oldIds := GetSnapshotsForCleanup(bank, keep);
      ghost var logged := rows;
      DeleteSnapshots(oldIds);
      NewestSurvives(before.snapshots, SnapshotRow(id, bank), keep);
      ViewAfterImport(before, written, SnapshotRow(id, bank), records, changes, keep);
      SurvivorsReadSame(logged, oldIds, id);
      KeptRows(logged, oldIds);
    }

    /** Store a snapshot and its changes, then prune, in one transaction. */
    method ImportSnapshot(bank: string, snapshot: ParseSnapshot, minRatio: real, keep: int) returns (result: Result)
      requires Valid()
      modifies this
      ensures Valid()
      ensures var r := Request(bank, ToRecords(snapshot), AllStorable(snapshot), minRatio, keep);
        View() == Step(old(View()), r) && result == Outcome(old(View()), r)
      ensures result.Imported? ==>
        GetLatestSnapshot(bank) == Some(old(nextSnapshotId))
        && GetSnapshotState(old(nextSnapshotId)) == ToRecords(snapshot)
        && GetStats(bank) == Some(VisibleCounts(snapshot))
      ensures !result.Imported? ==> rows == old(rows)
      ensures result.Imported?
         <==> AllStorable(snapshot) && VisibleMethodCount(snapshot) > 0
              && KeepsEnough(old(VisibleBefore(bank)), VisibleMethodCount(snapshot), minRatio)
    {
      hide Read, ToRecords, AllStorable, VisibleCount, Changes, Pruned, ViewSnapshots, ViewLog, LogOf, CheckSanity,
           LatestId, LatestState, PublicOnly, Integrity, VisibleMethodCount, VisibleServiceCount;
      var saved := rows;
      var records := ToRecords(snapshot);
      OutcomeIff(View(), Request(bank, records, AllStorable(snapshot), minRatio, keep));
      CountOfRecords(snapshot);
      var prev := GetLatestSnapshot(bank);
      var prevState := if prev.None? then None else Some(GetSnapshotState(prev.value));
      ViewLatest(rows, rows.snapshots, bank);
      var prevVisible := if prevState.None? then None else Some(VisibleCount(prevState.value.methods));
      var verdict := CheckSanity(prevVisible, VisibleCount(records.methods), minRatio);
      if verdict != Accept {
        return Rejected(verdict);
      }
      var changes := ComputeChanges(prevState, records);
      var id, ok := WriteSnapshot(bank, snapshot);
      if !ok {
        rows := saved;
        return Refused;
      }
      LogAndPrune(id, bank, changes, keep, saved, records);
      result := Imported(PublicOnly(changes));
    }
  }
}
