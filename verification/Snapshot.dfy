/** A freshly parsed snapshot and the checks made on it before it is stored (app/snapshot_import.py). */
module Snapshot {
  import opened Common
  import opened Diff

  /** One parsed method; `path` and `fields` may be missing. */
  datatype ApiMethod = ApiMethod(
    httpMethod: string,
    path: Option<string>,
    summary: string,
    url: string,
    fields: Option<seq<string>>,
    hidden: bool,
    hiddenReason: Option<string>)

  datatype ServiceEntry = ServiceEntry(name: string, methods: seq<ApiMethod>)

  predicate UniqueNames(services: seq<ServiceEntry>) {
    forall i, j :: 0 <= i < j < |services| ==> services[i].name != services[j].name
  }

  /** A dictionary from service name to methods, in insertion order. */
  type ParseSnapshot = s: seq<ServiceEntry> | UniqueNames(s)

  function FieldNames(m: ApiMethod): set<string> {
    if m.fields.None? then {} else set f | f in m.fields.value
  }

  function RecordOf(service: string, m: ApiMethod): MethodRecord {
    MethodRecord(service, m.httpMethod, if m.path.None? then "" else m.path.value, m.summary, m.url,
                 FieldNames(m), m.hidden, m.hiddenReason)
  }

  function ServiceUrl(methods: seq<ApiMethod>): string {
    if methods == [] then "" else methods[0].url
  }

  function ServiceUrls(services: seq<ServiceEntry>): map<string, string> {
    if services == [] then map[]
    else
      var last := services[|services| - 1];
      ServiceUrls(services[..|services| - 1])[last.name := ServiceUrl(last.methods)]
  }

  function MethodRecords(service: string, methods: seq<ApiMethod>): seq<MethodRecord> {
    if methods == [] then []
    else MethodRecords(service, methods[..|methods| - 1]) + [RecordOf(service, methods[|methods| - 1])]
  }

  function AllRecords(services: seq<ServiceEntry>): seq<MethodRecord> {
    if services == [] then []
    else
      var last := services[|services| - 1];
      AllRecords(services[..|services| - 1]) + MethodRecords(last.name, last.methods)
  }

  /** What the comparison sees of a parsed snapshot. */
  function ToRecords(snapshot: seq<ServiceEntry>): SnapshotState {
    SnapshotState(ServiceUrls(snapshot), AllRecords(snapshot))
  }

  function VisibleCount(methods: seq<MethodRecord>): nat {
    if methods == [] then 0
    else VisibleCount(methods[..|methods| - 1]) + if methods[|methods| - 1].hidden then 0 else 1
  }

  predicate EntryIsHidden(methods: seq<ApiMethod>) {
    ServiceIsHidden(seq(|methods|, i requires 0 <= i < |methods| => methods[i].hidden))
  }

  lemma EntryHiddenMeaning(methods: seq<ApiMethod>)
    ensures EntryIsHidden(methods) <==> methods != [] && forall m :: m in methods ==> m.hidden
  {
    var flags := seq(|methods|, i requires 0 <= i < |methods| => methods[i].hidden);
    if EntryIsHidden(methods) {
      forall m | m in methods ensures m.hidden {
        var i :| 0 <= i < |methods| && methods[i] == m;
        assert flags[i] in flags;
      }
    }
  }

  function VisibleMethods(methods: seq<ApiMethod>): nat {
    if methods == [] then 0
    else VisibleMethods(methods[..|methods| - 1]) + if methods[|methods| - 1].hidden then 0 else 1
  }

  function VisibleServiceCount(services: seq<ServiceEntry>): nat {
    if services == [] then 0
    else
      VisibleServiceCount(services[..|services| - 1])
      + if EntryIsHidden(services[|services| - 1].methods) then 0 else 1
  }

  function VisibleMethodCount(services: seq<ServiceEntry>): nat {
    if services == [] then 0
    else VisibleMethodCount(services[..|services| - 1]) + VisibleMethods(services[|services| - 1].methods)
  }

  /** Visible services and visible methods, never the parser's own totals. */
  function VisibleCounts(snapshot: seq<ServiceEntry>): (nat, nat) {
    (VisibleServiceCount(snapshot), VisibleMethodCount(snapshot))
  }

  datatype Verdict = Accept | NoMethods | Dropped

  /** `prev` is the previous snapshot's visible method count, `count` the new one's. */
  function CheckSanity(prev: Option<nat>, count: nat, minRatio: real): Verdict {
    if count == 0 then NoMethods
    else if prev.Some? && prev.value != 0 && minRatio > 0.0
      && count as real < prev.value as real * minRatio then Dropped
    else Accept
  }

  const HIDDEN_REASONS: set<string> := {"private", "superseded", "not_in_menu", "ghost"}

  /** The CHECK constraints of the methods table. */
  predicate Storable(m: ApiMethod) {
    (m.hidden ==> m.hiddenReason.Some?) && (m.hiddenReason.Some? ==> m.hiddenReason.value in HIDDEN_REASONS)
  }

  predicate MethodsStorable(methods: seq<ApiMethod>) {
    forall i :: 0 <= i < |methods| ==> Storable(methods[i])
  }

  predicate AllStorable(services: seq<ServiceEntry>) {
    forall i :: 0 <= i < |services| ==> MethodsStorable(services[i].methods)
  }

  lemma {:induction false} MethodRecordsVisible(service: string, methods: seq<ApiMethod>)
    ensures VisibleCount(MethodRecords(service, methods)) == VisibleMethods(methods)
  {
    if methods != [] {
      MethodRecordsVisible(service, methods[..|methods| - 1]);
      VisibleCountAppend(MethodRecords(service, methods[..|methods| - 1]), [RecordOf(service, methods[|methods| - 1])]);
    }
  }

  lemma {:induction false} VisibleCountAppend(a: seq<MethodRecord>, b: seq<MethodRecord>)
    ensures VisibleCount(a + b) == VisibleCount(a) + VisibleCount(b)
  {
    if b == [] {
      assert a + b == a;
    } else {
      VisibleCountAppend(a, b[..|b| - 1]);
      assert (a + b)[..|a + b| - 1] == a + b[..|b| - 1];
    }
  }

  /** Counting the records gives the count taken from the parsed snapshot itself. */
  lemma {:induction false} RecordCount(services: seq<ServiceEntry>)
    ensures VisibleCount(AllRecords(services)) == VisibleMethodCount(services)
  {
    if services != [] {
      var init, last := services[..|services| - 1], services[|services| - 1];
      RecordCount(init);
      MethodRecordsVisible(last.name, last.methods);
      VisibleCountAppend(AllRecords(init), MethodRecords(last.name, last.methods));
    }
  }
}
