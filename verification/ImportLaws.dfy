/** When an import is accepted, and what it compares, stores and returns (app/snapshot_import.py). */
module ImportLaws {
  import opened Common
  import opened Diff
  import opened Snapshot
  import opened History

  // ---------------------------------------------------------------- acceptance

  /** A bank without a snapshot, or with nothing visible in its latest one, is compared with nothing. */
  predicate KeepsEnough(prev: Option<nat>, count: nat, minRatio: real) {
    prev.None? || prev.value == 0 || minRatio <= 0.0 || count as real >= prev.value as real * minRatio
  }

  /** Visible methods of the bank's latest snapshot; None for a bank without one. */
  function PreviousCount(db: Db, bank: string): Option<nat> {
    var prev := LatestState(db.snapshots, bank);
    if prev.None? then None else Some(VisibleCount(prev.value.methods))
  }

  lemma RatioOrder(prev: Option<nat>, count: nat, minRatio: real)
    ensures prev.Some? ==>
      (count as real < prev.value as real * minRatio <==> !(count as real >= prev.value as real * minRatio))
  {
  }

  /** An import succeeds exactly when the tables take the snapshot, some method of it is visible, and enough of
      what was visible still is; otherwise the answer says which of these failed, the tables being asked last. */
  lemma OutcomeIff(db: Db, r: Request)
    ensures var count, prev := VisibleCount(r.state.methods), PreviousCount(db, r.bank);
      && (Outcome(db, r).Imported? <==> r.storable && count > 0 && KeepsEnough(prev, count, r.minRatio))
      && (Outcome(db, r) == Rejected(NoMethods) <==> count == 0)
      && (Outcome(db, r) == Rejected(Dropped) <==> count > 0 && !KeepsEnough(prev, count, r.minRatio))
      && (Outcome(db, r) == Refused <==> !r.storable && count > 0 && KeepsEnough(prev, count, r.minRatio))
  {
    hide LatestState, VisibleCount, ChangesFor, PublicOnly;
    RatioOrder(PreviousCount(db, r.bank), VisibleCount(r.state.methods), r.minRatio);
  }

  lemma AcceptsIff(db: Db, r: Request)
    ensures Accepts(db, r)
       <==> r.storable && VisibleCount(r.state.methods) > 0
            && KeepsEnough(PreviousCount(db, r.bank), VisibleCount(r.state.methods), r.minRatio)
  {
    OutcomeIff(db, r);
    hide LatestState, VisibleCount, CheckSanity, ChangesFor, PublicOnly, KeepsEnough;
  }

  /** Visible methods of the last snapshot accepted. */
  function LastCount(accepted: seq<StoredSnapshot>): Option<nat> {
    if accepted == [] then None else Some(VisibleCount(accepted[|accepted| - 1].state.methods))
  }

  lemma AcceptedSnoc(requests: seq<Request>, r: Request)
    ensures AcceptedOf(requests + [r], r.bank)
         == if Accepts(Run(requests), r)
            then AcceptedOf(requests, r.bank) + [StoredSnapshot(Run(requests).nextId, r.bank, r.state)]
            else AcceptedOf(requests, r.bank)
  {
    hide Accepts, Run;
    assert (requests + [r])[..|requests|] == requests;
  }

  /** After any run, one more request of a bank joins its accepted snapshots exactly when the tables take it, it
      shows a method, and it keeps enough of the last accepted one. */
  lemma AcceptedNext(requests: seq<Request>, r: Request)
    ensures var accepted, count := AcceptedOf(requests, r.bank), VisibleCount(r.state.methods);
      AcceptedOf(requests + [r], r.bank)
      == if r.storable && count > 0 && KeepsEnough(LastCount(accepted), count, r.minRatio)
         then accepted + [StoredSnapshot(Run(requests).nextId, r.bank, r.state)] else accepted
  {
    hide Run, Accepts, AcceptedOf, VisibleCount, KeepsEnough, LatestState;
    AcceptedSnoc(requests, r);
    LatestIsLastAccepted(requests, r.bank);
    AcceptsIff(Run(requests), r);
  }

  /** So a bank's first storable request with a visible method is its baseline, whatever the ratio. */
  lemma BaselineAccepted(requests: seq<Request>, r: Request)
    requires AcceptedOf(requests, r.bank) == []
    requires r.storable && exists m :: m in r.state.methods && !m.hidden
    ensures AcceptedOf(requests + [r], r.bank) == [StoredSnapshot(Run(requests).nextId, r.bank, r.state)]
  {
    hide VisibleCount, AcceptedOf, Run;
    AcceptedNext(requests, r);
    CountMeaning(r.state.methods);
  }

  lemma {:induction false} CountMeaning(methods: seq<MethodRecord>)
    ensures VisibleCount(methods) > 0 <==> exists m :: m in methods && !m.hidden
  {
    if methods != [] {
      var init, last := methods[..|methods| - 1], methods[|methods| - 1];
      CountMeaning(init);
      assert methods == init + [last];
    }
  }

  lemma CountOfRecords(snapshot: seq<ServiceEntry>)
    ensures VisibleCount(ToRecords(snapshot).methods) == VisibleMethodCount(snapshot)
  {
    RecordCount(snapshot);
  }

  // ---------------------------------------------------------------- what is returned

  /** What an import returns are all changes that are not hidden, each as often as it is stored. */
  lemma {:induction false} PublicPart(changes: seq<Change>, c: Change)
    ensures multiset(PublicOnly(changes))[c] == if c.hidden then 0 else multiset(changes)[c]
  {
    if changes != [] {
      var init, last := changes[..|changes| - 1], changes[|changes| - 1];
      PublicPart(init, c);
      assert changes == init + [last];
    }
  }

  // ---------------------------------------------------------------- what is compared

  /** Each service has the URL of its first method, none when it has no method. */
  lemma {:induction false} ServiceUrlIsFirst(services: seq<ServiceEntry>, i: nat)
    requires UniqueNames(services) && i < |services|
    ensures services[i].name in ServiceUrls(services)
    ensures ServiceUrls(services)[services[i].name]
         == if services[i].methods == [] then "" else services[i].methods[0].url
  {
    var n := |services| - 1;
    if i < n {
      ServiceUrlIsFirst(services[..n], i);
    }
  }

  ghost predicate NamesOne(services: seq<ServiceEntry>, name: string) {
    exists i :: 0 <= i < |services| && services[i].name == name
  }

  lemma {:induction false} ServicesAreNamed(services: seq<ServiceEntry>, name: string)
    ensures name in ServiceUrls(services) <==> NamesOne(services, name)
  {
    if services != [] {
      var n := |services| - 1;
      ServicesAreNamed(services[..n], name);
      if NamesOne(services[..n], name) {
        var i :| 0 <= i < n && services[..n][i].name == name;
        assert services[i].name == name;
      }
    }
  }

  /** `r` says what method `m` of `service` says; a missing path is the empty one. */
  ghost predicate Says(r: MethodRecord, service: string, m: ApiMethod) {
    && r.service == service && r.httpMethod == m.httpMethod && r.name == m.summary && r.url == m.url
    && r.path == (match m.path case None => "" case Some(path) => path)
    && (forall f :: f in r.fields <==> m.fields.Some? && f in m.fields.value)
    && r.hidden == m.hidden && r.hiddenReason == m.hiddenReason
  }

  /** The records of a service are its methods, in order. */
  lemma {:induction false} RecordsInOrder(service: string, methods: seq<ApiMethod>)
    ensures |MethodRecords(service, methods)| == |methods|
    ensures forall k :: 0 <= k < |methods| ==> Says(MethodRecords(service, methods)[k], service, methods[k])
  {
    if methods != [] {
      RecordsInOrder(service, methods[..|methods| - 1]);
    }
  }

  /** The records of a snapshot are those of its services, one service after the other. */
  lemma {:induction false} RecordsByService(before: seq<ServiceEntry>, after: seq<ServiceEntry>)
    ensures AllRecords(before + after) == AllRecords(before) + AllRecords(after)
    ensures |after| == 1 ==> AllRecords(after) == MethodRecords(after[0].name, after[0].methods)
  {
    hide MethodRecords;
    if after == [] {
      assert before + after == before;
    } else {
      var init, last := after[..|after| - 1], after[|after| - 1];
      RecordsByService(before, init);
      assert (before + after)[..|before + after| - 1] == before + init;
    }
  }

  /** A hidden method needs a reason, and every reason is one of the four that the tables know. */
  lemma StorableIff(services: seq<ServiceEntry>)
    ensures AllStorable(services) <==> forall i, k :: 0 <= i < |services| && 0 <= k < |services[i].methods| ==>
      match services[i].methods[k].hiddenReason
      case None => !services[i].methods[k].hidden
      case Some(reason) =>
        reason == "private" || reason == "superseded" || reason == "not_in_menu" || reason == "ghost"
  {
    forall i | 0 <= i < |services|
      ensures MethodsStorable(services[i].methods) <==> forall k :: 0 <= k < |services[i].methods| ==>
        Storable(services[i].methods[k])
    {
    }
  }
}
