/** The stored tables and the queries on them (app/repository.py, migrations/). Rows are in insertion order. */
module Tables {
  import opened Common
  import opened Diff

  datatype SnapshotRow = SnapshotRow(id: nat, bank: string)
  datatype ServiceRow = ServiceRow(id: nat, snapshotId: nat, name: string, url: string, hidden: bool)
  datatype MethodRow = MethodRow(
    id: nat,
    serviceId: nat,
    name: string,
    httpMethod: string,
    url: string,
    path: Option<string>,
    hidden: bool,
    hiddenReason: Option<string>)
  datatype FieldRow = FieldRow(methodId: nat, name: string)
  /** `snapshotId` becomes None when the snapshot is pruned; the row itself stays. */
  datatype ChangeRow = ChangeRow(snapshotId: Option<nat>, bank: string, change: Change)

  datatype Rows = Rows(
    snapshots: seq<SnapshotRow>,
    services: seq<ServiceRow>,
    methods: seq<MethodRow>,
    fields: seq<FieldRow>,
    changes: seq<ChangeRow>)

  // ---------------------------------------------------------------- reading a snapshot back

  function FindService(services: seq<ServiceRow>, id: nat): Option<ServiceRow> {
    if services == [] then None
    else if services[|services| - 1].id == id then Some(services[|services| - 1])
    else FindService(services[..|services| - 1], id)
  }

  function FieldsOf(fields: seq<FieldRow>, methodId: nat): set<string> {
    set f | f in fields && f.methodId == methodId :: f.name
  }

  function ReadServices(services: seq<ServiceRow>, snap: nat): map<string, string> {
    if services == [] then map[]
    else
      var rest, row := ReadServices(services[..|services| - 1], snap), services[|services| - 1];
      if row.snapshotId == snap then rest[row.name := row.url] else rest
  }

  function StoredRecord(service: string, m: MethodRow, fields: set<string>): MethodRecord {
    MethodRecord(service, m.httpMethod, if m.path.None? then "" else m.path.value, m.name, m.url, fields,
                 m.hidden, m.hiddenReason)
  }

  /** Methods joined with their services, each with its field names. */
  function ReadMethods(
    methods: seq<MethodRow>, services: seq<ServiceRow>, fields: seq<FieldRow>, snap: nat): seq<MethodRecord>
  {
    if methods == [] then []
    else
      var rest, m := ReadMethods(methods[..|methods| - 1], services, fields, snap), methods[|methods| - 1];
      var s := FindService(services, m.serviceId);
      if s.Some? && s.value.snapshotId == snap then rest + [StoredRecord(s.value.name, m, FieldsOf(fields, m.id))]
        else rest
  }

  function CountServices(services: seq<ServiceRow>, snap: nat): nat {
    if services == [] then 0
    else
      var row := services[|services| - 1];
      CountServices(services[..|services| - 1], snap) + if row.snapshotId == snap && !row.hidden then 1 else 0
  }

  /** Visible methods of visible services. */
  function CountMethods(methods: seq<MethodRow>, services: seq<ServiceRow>, snap: nat): nat {
    if methods == [] then 0
    else
      var m := methods[|methods| - 1];
      var s := FindService(services, m.serviceId);
      CountMethods(methods[..|methods| - 1], services, snap)
      + if s.Some? && s.value.snapshotId == snap && !s.value.hidden && !m.hidden then 1 else 0
  }

  /** Everything the service reads back about one stored snapshot. */
  datatype Reading = Reading(state: SnapshotState, visibleServices: nat, visibleMethods: nat)

  function Read(rows: Rows, snap: nat): Reading {
    Reading(
      SnapshotState(ReadServices(rows.services, snap), ReadMethods(rows.methods, rows.services, rows.fields, snap)),
      CountServices(rows.services, snap),
      CountMethods(rows.methods, rows.services, snap))
  }

  // ---------------------------------------------------------------- integrity

  predicate HasSnapshot(rows: Rows, id: nat) {
    exists r :: r in rows.snapshots && r.id == id
  }

  predicate HasMethod(rows: Rows, id: nat) {
    exists m :: m in rows.methods && m.id == id
  }

  ghost predicate SnapshotsAscend(rows: seq<SnapshotRow>) {
    forall i, j :: 0 <= i < j < |rows| ==> rows[i].id < rows[j].id
  }

  ghost predicate ServicesAscend(rows: seq<ServiceRow>) {
    forall i, j :: 0 <= i < j < |rows| ==> rows[i].id < rows[j].id
  }

  ghost predicate MethodsAscend(rows: seq<MethodRow>) {
    forall i, j :: 0 <= i < j < |rows| ==> rows[i].id < rows[j].id
  }

  /** Serial keys ascend and every foreign key has its target. */
  ghost predicate Integrity(rows: Rows) {
    && SnapshotsAscend(rows.snapshots)
    && ServicesAscend(rows.services)
    && MethodsAscend(rows.methods)
    && (forall s :: s in rows.services ==> HasSnapshot(rows, s.snapshotId))
    && (forall m :: m in rows.methods ==> FindService(rows.services, m.serviceId).Some?)
    && (forall f :: f in rows.fields ==> HasMethod(rows, f.methodId))
    && LogRefers(rows)
  }

  /** A change refers to a stored snapshot or to none. */
  ghost predicate LogRefers(rows: Rows) {
    forall c :: c in rows.changes && c.snapshotId.Some? ==> HasSnapshot(rows, c.snapshotId.value)
  }

  // ---------------------------------------------------------------- queries over a bank's snapshots

  /** Ids of a bank's snapshots, newest first. */
  function IdsNewestFirst(snapshots: seq<SnapshotRow>, bank: string): seq<nat> {
    if snapshots == [] then []
    else
      var rest, r := IdsNewestFirst(snapshots[..|snapshots| - 1], bank), snapshots[|snapshots| - 1];
      if r.bank == bank then [r.id] + rest else rest
  }

  function LatestId(snapshots: seq<SnapshotRow>, bank: string): Option<nat> {
    var ids := IdsNewestFirst(snapshots, bank);
    if ids == [] then None else Some(ids[0])
  }

  /** Ids beyond the newest `keep`; none when `keep` is below one. */
  function CleanupIds(snapshots: seq<SnapshotRow>, bank: string, keep: int): seq<nat> {
    var ids := IdsNewestFirst(snapshots, bank);
    if keep < 1 || |ids| <= keep then [] else ids[keep..]
  }

  // ---------------------------------------------------------------- cascading delete

  function Detached(c: ChangeRow, ids: seq<nat>): ChangeRow {
    if c.snapshotId.Some? && c.snapshotId.value in ids then c.(snapshotId := None) else c
  }

  function KeptSnapshots(snapshots: seq<SnapshotRow>, ids: seq<nat>): seq<SnapshotRow> {
    if snapshots == [] then []
    else
      var rest, last := KeptSnapshots(snapshots[..|snapshots| - 1], ids), snapshots[|snapshots| - 1];
      if last.id in ids then rest else rest + [last]
  }

  function KeptServices(services: seq<ServiceRow>, ids: seq<nat>): seq<ServiceRow> {
    if services == [] then []
    else
      var rest, last := KeptServices(services[..|services| - 1], ids), services[|services| - 1];
      if last.snapshotId in ids then rest else rest + [last]
  }

  function KeptMethods(methods: seq<MethodRow>, services: seq<ServiceRow>): seq<MethodRow> {
    if methods == [] then []
    else
      var rest, last := KeptMethods(methods[..|methods| - 1], services), methods[|methods| - 1];
      if FindService(services, last.serviceId).None? then rest else rest + [last]
  }

  function KeptFields(fields: seq<FieldRow>, methodIds: set<nat>): seq<FieldRow> {
    if fields == [] then []
    else
      var rest, last := KeptFields(fields[..|fields| - 1], methodIds), fields[|fields| - 1];
      if last.methodId in methodIds then rest + [last] else rest
  }

  function DetachedChanges(changes: seq<ChangeRow>, ids: seq<nat>): seq<ChangeRow> {
    if changes == [] then []
    else DetachedChanges(changes[..|changes| - 1], ids) + [Detached(changes[|changes| - 1], ids)]
  }

  /** Services, methods and fields go with their snapshot; changes stay. */
  function WithoutSnapshots(rows: Rows, ids: seq<nat>): Rows {
    var services := KeptServices(rows.services, ids);
    var methods := KeptMethods(rows.methods, services);
    Rows(KeptSnapshots(rows.snapshots, ids), services, methods,
         KeptFields(rows.fields, set m | m in methods :: m.id), DetachedChanges(rows.changes, ids))
  }

  // ---------------------------------------------------------------- lemmas about inserting

  lemma {:induction false} FindBelow(services: seq<ServiceRow>, row: ServiceRow, id: nat)
    requires id != row.id
    ensures FindService(services + [row], id) == FindService(services, id)
  {
    assert (services + [row])[..|services|] == services;
  }

  lemma {:induction false} FoundInTable(services: seq<ServiceRow>, id: nat)
    ensures FindService(services, id).Some? ==>
      FindService(services, id).value in services && FindService(services, id).value.id == id
    ensures (exists s :: s in services && s.id == id) ==> FindService(services, id).Some?
  {
    if services != [] {
      var init, last := services[..|services| - 1], services[|services| - 1];
      assert services == init + [last];
      FoundInTable(init, id);
    }
  }

  /** A new service row does not disturb the join of methods that belong to other services. */
  lemma {:induction false} ReadMethodsNewService(
    methods: seq<MethodRow>, services: seq<ServiceRow>, fields: seq<FieldRow>, row: ServiceRow, snap: nat)
    requires forall m :: m in methods ==> m.serviceId != row.id
    ensures ReadMethods(methods, services + [row], fields, snap) == ReadMethods(methods, services, fields, snap)
    ensures CountMethods(methods, services + [row], snap) == CountMethods(methods, services, snap)
  {
    if methods != [] {
      var init, last := methods[..|methods| - 1], methods[|methods| - 1];
      assert forall m :: m in init ==> m in methods;
      assert last in methods;
      ReadMethodsNewService(init, services, fields, row, snap);
      FindBelow(services, row, last.serviceId);
    }
  }

  /** Field rows of another method do not disturb the records read so far. */
  lemma {:induction false} ReadMethodsNewFields(
    methods: seq<MethodRow>, services: seq<ServiceRow>, fields: seq<FieldRow>, extra: seq<FieldRow>, snap: nat)
    requires forall m, f :: m in methods && f in extra ==> f.methodId != m.id
    ensures ReadMethods(methods, services, fields + extra, snap) == ReadMethods(methods, services, fields, snap)
  {
    if methods != [] {
      var init, last := methods[..|methods| - 1], methods[|methods| - 1];
      assert forall m :: m in init ==> m in methods;
      assert last in methods;
      ReadMethodsNewFields(init, services, fields, extra, snap);
      assert FieldsOf(fields + extra, last.id) == FieldsOf(fields, last.id);
    }
  }

  /** Nothing is read for a snapshot that no service refers to. */
  lemma {:induction false} NothingStored(services: seq<ServiceRow>, snap: nat)
    requires forall s :: s in services ==> s.snapshotId != snap
    ensures ReadServices(services, snap) == map[] && CountServices(services, snap) == 0
  {
    if services != [] {
      assert forall s :: s in services[..|services| - 1] ==> s in services;
      NothingStored(services[..|services| - 1], snap);
    }
  }

  lemma {:induction false} NoMethodsStored(
    methods: seq<MethodRow>, services: seq<ServiceRow>, fields: seq<FieldRow>, snap: nat)
    requires forall s :: s in services ==> s.snapshotId != snap
    ensures ReadMethods(methods, services, fields, snap) == [] && CountMethods(methods, services, snap) == 0
  {
    if methods != [] {
      NoMethodsStored(methods[..|methods| - 1], services, fields, snap);
      FoundInTable(services, methods[|methods| - 1].serviceId);
    }
  }

  // ---------------------------------------------------------------- lemmas about deleting

  lemma {:induction false} FindKept(services: seq<ServiceRow>, ids: seq<nat>, id: nat)
    requires ServicesAscend(services)
    ensures var found := FindService(services, id);
      FindService(KeptServices(services, ids), id)
      == if found.Some? && found.value.snapshotId !in ids then found else None
  {
    if services != [] {
      var init, last := services[..|services| - 1], services[|services| - 1];
      FindKept(init, ids, id);
      var rest := KeptServices(init, ids);
      if last.snapshotId !in ids {
        assert (rest + [last])[..|rest|] == rest;
      } else if last.id == id {
        FoundInTable(init, id);
        assert FindService(init, id).None?;
      }
    }
  }

  lemma {:induction false} ReadServicesKept(services: seq<ServiceRow>, ids: seq<nat>, snap: nat)
    requires snap !in ids
    ensures ReadServices(KeptServices(services, ids), snap) == ReadServices(services, snap)
    ensures CountServices(KeptServices(services, ids), snap) == CountServices(services, snap)
  {
    if services != [] {
      var init, last := services[..|services| - 1], services[|services| - 1];
      ReadServicesKept(init, ids, snap);
      var rest := KeptServices(init, ids);
      assert (rest + [last])[..|rest|] == rest;
    }
  }

  lemma {:induction false} FieldsKept(fields: seq<FieldRow>, methodIds: set<nat>)
    ensures forall f :: f in KeptFields(fields, methodIds) <==> f in fields && f.methodId in methodIds
  {
    if fields != [] {
      var init, last := fields[..|fields| - 1], fields[|fields| - 1];
      assert fields == init + [last];
      FieldsKept(init, methodIds);
    }
  }

  lemma {:induction false} MethodsKept(methods: seq<MethodRow>, services: seq<ServiceRow>)
    ensures forall m ::
      m in KeptMethods(methods, services) <==> m in methods && FindService(services, m.serviceId).Some?
  {
    if methods != [] {
      var init, last := methods[..|methods| - 1], methods[|methods| - 1];
      assert methods == init + [last];
      MethodsKept(init, services);
    }
  }

  /** `survivors` holds the ids of the methods that stay. */
  lemma {:induction false} ReadMethodsKept(
    methods: seq<MethodRow>, services: seq<ServiceRow>, fields: seq<FieldRow>, ids: seq<nat>, survivors: set<nat>,
    snap: nat)
    requires snap !in ids
    requires ServicesAscend(services)
    requires forall m :: m in KeptMethods(methods, KeptServices(services, ids)) ==> m.id in survivors
    ensures var kept := KeptServices(services, ids);
      ReadMethods(KeptMethods(methods, kept), kept, KeptFields(fields, survivors), snap)
        == ReadMethods(methods, services, fields, snap)
      && CountMethods(KeptMethods(methods, kept), kept, snap) == CountMethods(methods, services, snap)
  {
    var kept := KeptServices(services, ids);
    if methods != [] {
      var init, last := methods[..|methods| - 1], methods[|methods| - 1];
      var rest := KeptMethods(init, kept);
      assert forall m :: m in rest ==> m in KeptMethods(methods, kept);
      ReadMethodsKept(init, services, fields, ids, survivors, snap);
      FindKept(services, ids, last.serviceId);
      if FindService(kept, last.serviceId).Some? {
        assert KeptMethods(methods, kept) == rest + [last];
        assert last in KeptMethods(methods, kept);
        FieldsKept(fields, survivors);
        assert FieldsOf(KeptFields(fields, survivors), last.id) == FieldsOf(fields, last.id);
        assert (rest + [last])[..|rest|] == rest;
      }
    }
  }

  /** Pruning leaves every other snapshot readable exactly as before. */
  lemma SurvivorsReadSame(rows: Rows, ids: seq<nat>, snap: nat)
    requires Integrity(rows) && snap !in ids
    ensures Read(WithoutSnapshots(rows, ids), snap) == Read(rows, snap)
  {
    var methods := KeptMethods(rows.methods, KeptServices(rows.services, ids));
    ReadServicesKept(rows.services, ids, snap);
    ReadMethodsKept(rows.methods, rows.services, rows.fields, ids, set m | m in methods :: m.id, snap);
  }

  lemma {:induction false} KeptSnapshotRows(snapshots: seq<SnapshotRow>, ids: seq<nat>)
    requires SnapshotsAscend(snapshots)
    ensures var kept := KeptSnapshots(snapshots, ids);
      (forall r :: r in kept <==> r in snapshots && r.id !in ids)
      && SnapshotsAscend(kept)
  {
    hide SnapshotsAscend;
    if snapshots == [] {
      NoSnapshots();
    } else {
      var init, last := snapshots[..|snapshots| - 1], snapshots[|snapshots| - 1];
      assert snapshots == init + [last];
      assert SnapshotsAscend(init) by {
        SnapshotsPrefix(init, last);
      }
      KeptSnapshotRows(init, ids);
      SnapshotsAppend(KeptSnapshots(init, ids), init, last);
    }
  }

  lemma NoSnapshots()
    ensures SnapshotsAscend([])
  {
  }

  lemma SnapshotsPrefix(init: seq<SnapshotRow>, last: SnapshotRow)
    requires SnapshotsAscend(init + [last])
    ensures SnapshotsAscend(init)
  {
    forall i, j | 0 <= i < j < |init| ensures init[i].id < init[j].id {
      assert (init + [last])[i] == init[i] && (init + [last])[j] == init[j];
    }
  }

  lemma SnapshotsAppend(part: seq<SnapshotRow>, whole: seq<SnapshotRow>, x: SnapshotRow)
    requires SnapshotsAscend(whole + [x]) && SnapshotsAscend(part)
    requires forall y :: y in part ==> y in whole
    ensures SnapshotsAscend(part + [x])
  {
    forall i | 0 <= i < |part| ensures part[i].id < x.id {
      assert part[i] in whole;
      var k :| 0 <= k < |whole| && whole[k] == part[i];
      assert (whole + [x])[k] == part[i] && (whole + [x])[|whole|] == x;
    }
  }

  lemma {:induction false} KeptServiceRows(services: seq<ServiceRow>, ids: seq<nat>)
    requires ServicesAscend(services)
    ensures var kept := KeptServices(services, ids);
      (forall r :: r in kept <==> r in services && r.snapshotId !in ids)
      && ServicesAscend(kept)
  {
    hide ServicesAscend;
    if services == [] {
      NoServices();
    } else {
      var init, last := services[..|services| - 1], services[|services| - 1];
      assert services == init + [last];
      assert ServicesAscend(init) by {
        ServicesPrefix(init, last);
      }
      KeptServiceRows(init, ids);
      ServicesAppend(KeptServices(init, ids), init, last);
    }
  }

  lemma NoServices()
    ensures ServicesAscend([])
  {
  }

  lemma ServicesPrefix(init: seq<ServiceRow>, last: ServiceRow)
    requires ServicesAscend(init + [last])
    ensures ServicesAscend(init)
  {
    forall i, j | 0 <= i < j < |init| ensures init[i].id < init[j].id {
      assert (init + [last])[i] == init[i] && (init + [last])[j] == init[j];
    }
  }

  lemma ServicesAppend(part: seq<ServiceRow>, whole: seq<ServiceRow>, x: ServiceRow)
    requires ServicesAscend(whole + [x]) && ServicesAscend(part)
    requires forall y :: y in part ==> y in whole
    ensures ServicesAscend(part + [x])
  {
    forall i | 0 <= i < |part| ensures part[i].id < x.id {
      assert part[i] in whole;
      var k :| 0 <= k < |whole| && whole[k] == part[i];
      assert (whole + [x])[k] == part[i] && (whole + [x])[|whole|] == x;
    }
  }

  lemma MethodsAppend(part: seq<MethodRow>, whole: seq<MethodRow>, m: MethodRow)
    requires MethodsAscend(whole + [m]) && MethodsAscend(part)
    requires forall x :: x in part ==> x in whole
    ensures MethodsAscend(part + [m])
  {
    forall i | 0 <= i < |part| ensures part[i].id < m.id {
      assert part[i] in whole;
      var k :| 0 <= k < |whole| && whole[k] == part[i];
      assert (whole + [m])[k] == part[i] && (whole + [m])[|whole|] == m;
    }
  }

  lemma {:induction false} KeptMethodsAscend(methods: seq<MethodRow>, services: seq<ServiceRow>)
    requires MethodsAscend(methods)
    ensures MethodsAscend(KeptMethods(methods, services))
  {
    if methods != [] {
      var init, last := methods[..|methods| - 1], methods[|methods| - 1];
      KeptMethodsAscend(init, services);
      MethodsKept(init, services);
      assert methods == init + [last];
      MethodsAppend(KeptMethods(init, services), init, last);
    }
  }

  /** The cascade leaves no dangling reference. */
  lemma PruneKeepsIntegrity(rows: Rows, ids: seq<nat>)
    requires Integrity(rows)
    ensures Integrity(WithoutSnapshots(rows, ids))
  {
    hide KeptSnapshots, KeptServices, KeptMethods, KeptFields, DetachedChanges, FindService;
    var after := WithoutSnapshots(rows, ids);
    KeptSnapshotRows(rows.snapshots, ids);
    KeptServiceRows(rows.services, ids);
    KeptMethodsAscend(rows.methods, after.services);
    MethodsKept(rows.methods, after.services);
    var methodIds := set m | m in after.methods :: m.id;
    FieldsKept(rows.fields, methodIds);
    forall s | s in after.services ensures HasSnapshot(after, s.snapshotId) {
      assert HasSnapshot(rows, s.snapshotId);
      var r :| r in rows.snapshots && r.id == s.snapshotId;
      assert r in after.snapshots;
    }
    forall f | f in after.fields ensures HasMethod(after, f.methodId) {
      var m :| m in after.methods && m.id == f.methodId;
    }
    LogStillRefers(rows, ids);
  }

  /** A stored change keeps its place and what it says, and loses its reference exactly when that is pruned. */
  lemma {:induction false} DetachedInPlace(changes: seq<ChangeRow>, ids: seq<nat>)
    ensures var after := DetachedChanges(changes, ids);
      && |after| == |changes|
      && forall i :: 0 <= i < |changes| ==>
        && after[i].bank == changes[i].bank && after[i].change == changes[i].change
        && after[i].snapshotId
           == match changes[i].snapshotId case None => None case Some(id) => if id in ids then None else Some(id)
  {
    if changes != [] {
      DetachedInPlace(changes[..|changes| - 1], ids);
    }
  }

  lemma LogStillRefers(rows: Rows, ids: seq<nat>)
    requires SnapshotsAscend(rows.snapshots) && LogRefers(rows)
    ensures LogRefers(WithoutSnapshots(rows, ids))
  {
    hide KeptSnapshots, KeptServices, KeptMethods, KeptFields, DetachedChanges;
    var after := WithoutSnapshots(rows, ids);
    KeptSnapshotRows(rows.snapshots, ids);
    DetachedInPlace(rows.changes, ids);
    forall i | 0 <= i < |after.changes| && after.changes[i].snapshotId.Some?
      ensures HasSnapshot(after, after.changes[i].snapshotId.value)
    {
      assert rows.changes[i] in rows.changes;
      var r :| r in rows.snapshots && r.id == rows.changes[i].snapshotId.value;
      assert r in after.snapshots;
    }
  }
}
