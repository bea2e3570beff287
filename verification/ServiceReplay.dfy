/** What the public service changes tell of the services on the dashboard (app/diff.py). */
module ServiceReplay {
  import opened Common
  import opened Diff
  import opened DiffLaws
  import opened DiffExact

  /** Services that are not hidden as a whole. */
  function VisibleServices(s: SnapshotState): set<string> {
    s.services.Keys - HiddenServices(s.methods)
  }

  /** One public service change. */
  function ApplyService(names: set<string>, c: Change): set<string> {
    if c.kind != OfService || c.hidden then names
    else if c.action == Added then names + {c.entityName}
    else if c.action == Removed then names - {c.entityName}
    else names
  }

  function ReplayServices(names: set<string>, cs: seq<Change>): set<string> {
    if cs == [] then names else ApplyService(ReplayServices(names, cs[..|cs| - 1]), cs[|cs| - 1])
  }

  /** The public changes about service `n`, if any, have this action. */
  ghost predicate OnlyAction(cs: seq<Change>, n: string, action: Action) {
    forall c :: c in cs && c.kind == OfService && !c.hidden && c.entityName == n ==> c.action == action
  }

  ghost predicate Mentions(cs: seq<Change>, n: string) {
    exists c :: c in cs && c.kind == OfService && !c.hidden && c.entityName == n
  }

  lemma {:induction false} ReplayOfOne(names: set<string>, cs: seq<Change>, n: string, action: Action)
    requires OnlyAction(cs, n, action) && action != Modified
    ensures n in ReplayServices(names, cs) <==> if Mentions(cs, n) then action == Added else n in names
  {
    if cs != [] {
      var init, last := cs[..|cs| - 1], cs[|cs| - 1];
      assert cs == init + [last];
      ReplayOfOne(names, init, n, action);
      assert last in cs;
    }
  }

  /** After the replay a service of both snapshots is where it was before, any other where it is now. */
  lemma OneService(a: SnapshotState, b: SnapshotState, n: string)
    ensures n in ReplayServices(VisibleServices(a), Changes(Some(a), b))
       <==> if n in a.services && n in b.services then n in VisibleServices(a) else n in VisibleServices(b)
  {
    hide HiddenServices, Changes, ReplayServices, KeyReport, IndexOf;
    var cs := Changes(Some(a), b);
    forall c | c in cs && c.kind == OfService ensures ServiceComesOrGoes(a, b, c) {
      DiffIsExact(a, b, c);
      ReportIsNoService(At(IndexOf(a.methods), c.entityName), At(IndexOf(b.methods), c.entityName));
    }
    if n in b.services && n !in a.services {
      DiffIsExact(a, b, ServiceChange(Added, n, b.services[n], n in HiddenServices(b.methods)));
      ReplayOfOne(VisibleServices(a), cs, n, Added);
    } else {
      if n in a.services && n !in b.services {
        DiffIsExact(a, b, ServiceChange(Removed, n, a.services[n], n in HiddenServices(a.methods)));
      }
      ReplayOfOne(VisibleServices(a), cs, n, Removed);
    }
  }

  lemma ReportIsNoService(was: Option<MethodRecord>, now: Option<MethodRecord>)
    ensures KeyReport(was, now).Some? ==> KeyReport(was, now).value.kind != OfService
  {
  }

  /** A service of both snapshots that only one of them hides. */
  ghost predicate ChangesSides(a: SnapshotState, b: SnapshotState, n: string) {
    n in a.services && n in b.services && (n in HiddenServices(a.methods) <==> n !in HiddenServices(b.methods))
  }

  /** The public service changes of an import lead from the old visible services to the new ones exactly when
      no service of both snapshots becomes hidden, or visible, as a whole. */
  lemma ServicesReplayIff(a: SnapshotState, b: SnapshotState)
    ensures ReplayServices(VisibleServices(a), Changes(Some(a), b)) == VisibleServices(b)
       <==> forall n :: !ChangesSides(a, b, n)
  {
    hide ReplayServices, Changes, HiddenServices;
    var after := ReplayServices(VisibleServices(a), Changes(Some(a), b));
    forall n ensures (n in after <==> n in VisibleServices(b)) <==> !ChangesSides(a, b, n) {
      OneService(a, b, n);
    }
    if forall n :: !ChangesSides(a, b, n) {
      assert forall n :: n in after <==> n in VisibleServices(b);
    }
  }

  function OneMethod(hidden: bool): SnapshotState {
    SnapshotState(map["s" := ""],
                  [MethodRecord("s", "GET", "/x", "x", "", {}, hidden, if hidden then Some("private") else None)])
  }

  /** A service whose only method becomes hidden stays in the replayed set. */
  lemma HiddenServiceStays()
    ensures ReplayServices(VisibleServices(OneMethod(false)), Changes(Some(OneMethod(false)), OneMethod(true)))
         == {"s"} != VisibleServices(OneMethod(true))
  {
    hide Changes, ReplayServices, HiddenServices;
    var a, b := OneMethod(false), OneMethod(true);
    HiddenAlone(false);
    HiddenAlone(true);
    forall n ensures n in ReplayServices(VisibleServices(a), Changes(Some(a), b)) <==> n == "s" {
      OneService(a, b, n);
    }
  }

  lemma HiddenAlone(hidden: bool)
    ensures "s" in HiddenServices(OneMethod(hidden).methods) <==> hidden
  {
    assert OneMethod(hidden).methods[0] in OneMethod(hidden).methods;
  }
}
