/** The parse runner: status, failing banks and admin alerts (app/parser_runner.py). */
module Runner {
  import opened Common

  /** What went wrong; parser and rejection messages are shown as they are, others only by type. */
  datatype Failure = ParserFailed(text: string) | SnapshotRefused(text: string) | Unexpected(typeName: string)

  datatype BankRun = Succeeded(services: nat, methods: nat, changes: nat) | Raised(failure: Failure)

  datatype BankStatus = Pending | Running | Done(services: nat, methods: nat, changes: nat) | Failed(error: string)

  datatype ParseStatus = ParseStatus(running: bool, banks: map<string, BankStatus>)

  /** `error` is None for a success. */
  datatype BankOutcome = BankOutcome(error: Option<string>, rejected: bool)

  datatype Entry = Entry(bank: string, outcome: BankOutcome)

  datatype Alert = FailureAlert(bank: string, error: string, rejected: bool) | RecoveryAlert(bank: string)

  function PublicError(f: Failure): string {
    match f
    case ParserFailed(text) => text
    case SnapshotRefused(text) => text
    case Unexpected(typeName) => "internal error (" + typeName + "), see server logs"
  }

  function OutcomeOf(run: BankRun): BankOutcome {
    match run
    case Succeeded(_, _, _) => BankOutcome(None, false)
    case Raised(f) => BankOutcome(Some(PublicError(f)), f.SnapshotRefused?)
  }

  function StatusOf(run: BankRun): BankStatus {
    match run
    case Succeeded(services, methods, changes) => Done(services, methods, changes)
    case Raised(f) => Failed(PublicError(f))
  }

  function ErrorText(o: BankOutcome): string {
    if o.error.Some? then o.error.value else ""
  }

  /** An outcome counts as failed when its error text is non-empty. */
  predicate Fails(o: BankOutcome) {
    o.error.Some? && o.error.value != ""
  }

  /** `{**outcomes, bank: outcome}`: a repeated bank keeps its place and takes the new outcome. */
  function Record(outcomes: seq<Entry>, bank: string, o: BankOutcome): seq<Entry> {
    if outcomes == [] then [Entry(bank, o)]
    else
      var init, last := outcomes[..|outcomes| - 1], outcomes[|outcomes| - 1];
      if last.bank == bank then init + [Entry(bank, o)]
      else if HasBank(init, bank) then Record(init, bank, o) + [last]
      else outcomes + [Entry(bank, o)]
  }

  predicate HasBank(outcomes: seq<Entry>, bank: string) {
    outcomes != [] && (outcomes[|outcomes| - 1].bank == bank || HasBank(outcomes[..|outcomes| - 1], bank))
  }

  function OutcomesOf(banks: seq<string>, results: seq<BankRun>): seq<Entry>
    requires |banks| == |results|
  {
    if banks == [] then []
    else
      var n := |banks| - 1;
      Record(OutcomesOf(banks[..n], results[..n]), banks[n], OutcomeOf(results[n]))
  }

  function StatusesOf(
    start: map<string, BankStatus>, banks: seq<string>, results: seq<BankRun>): map<string, BankStatus>
    requires |banks| == |results|
  {
    if banks == [] then start
    else
      var n := |banks| - 1;
      StatusesOf(start, banks[..n], results[..n])[banks[n] := StatusOf(results[n])]
  }

  // ---------------------------------------------------------------- notification

  function FailedBanks(outcomes: seq<Entry>): set<string> {
    set e | e in outcomes && Fails(e.outcome) :: e.bank
  }

  function PassedBanks(outcomes: seq<Entry>): set<string> {
    set e | e in outcomes && !Fails(e.outcome) :: e.bank
  }

  /** The banks whose latest run failed, after these outcomes. */
  function FailingAfter(failing: set<string>, outcomes: seq<Entry>): set<string> {
    failing - (PassedBanks(outcomes) * failing) + FailedBanks(outcomes)
  }

  function FailureAlerts(outcomes: seq<Entry>, newly: set<string>): seq<Alert> {
    if outcomes == [] then []
    else
      var rest, e := FailureAlerts(outcomes[..|outcomes| - 1], newly), outcomes[|outcomes| - 1];
      if e.bank in newly
      then rest + [FailureAlert(e.bank, ErrorText(e.outcome), e.outcome.rejected)]
      else rest
  }

  function RecoveryAlerts(outcomes: seq<Entry>, recovered: set<string>): seq<Alert> {
    if outcomes == [] then []
    else
      var rest, e := RecoveryAlerts(outcomes[..|outcomes| - 1], recovered), outcomes[|outcomes| - 1];
      if e.bank in recovered then rest + [RecoveryAlert(e.bank)] else rest
  }

  /** New failures first, then recoveries, each in the order of the run. */
  function AlertsAfter(failing: set<string>, outcomes: seq<Entry>): seq<Alert> {
    FailureAlerts(outcomes, FailedBanks(outcomes) - failing) + RecoveryAlerts(outcomes, PassedBanks(outcomes) * failing)
  }

  class ParserRunner {
    /** The known banks. */
    const known: set<string>
    const hasNotifier: bool
    var locked: bool
    var status: ParseStatus
    var failing: set<string>
    /** Alerts handed to the notifier, in order. */
    ghost var sent: seq<Alert>

    constructor (known: set<string>, hasNotifier: bool)
      ensures this.known == known && this.hasNotifier == hasNotifier
      ensures !locked && failing == {} && sent == []
      ensures status == ParseStatus(false, map b | b in known :: Pending)
    {
      this.known, this.hasNotifier := known, hasNotifier;
      locked, failing, sent := false, {}, [];
      status := ParseStatus(false, map b | b in known :: Pending);
    }

    method SetBank(bank: string, st: BankStatus)
      requires bank in status.banks
      modifies this`status
      ensures status == old(status).(banks := old(status).banks[bank := st])
    {
      status := status.(banks := status.banks[bank := st]);
    }

    /** One bank, whose parse and import end as `run` says. */
    method RunBankSafe(bank: string, run: BankRun) returns (o: BankOutcome)
      requires bank in status.banks
      modifies this`status
      ensures o == OutcomeOf(run)
      ensures status == old(status).(banks := old(status).banks[bank := StatusOf(run)])
    {
      SetBank(bank, Running);
      match run
      case Raised(f) =>
        var error := PublicError(f);
        SetBank(bank, Failed(error));
        o := BankOutcome(Some(error), f.SnapshotRefused?);
      case Succeeded(services, methods, changes) =>
        SetBank(bank, Done(services, methods, changes));
        o := BankOutcome(None, false);
    }

    method Notify(outcomes: seq<Entry>)
      modifies this`failing, this`sent
      ensures failing == FailingAfter(old(failing), outcomes)
      ensures sent == old(sent) + (if hasNotifier then AlertsAfter(old(failing), outcomes) else [])
    {
      var failed := FailedBanks(outcomes);
      var recovered := PassedBanks(outcomes) * failing;
      var newlyFailed := failed - failing;
      failing := (failing - recovered) + failed;
      if !hasNotifier {
        return;
      }
      sent := sent + (FailureAlerts(outcomes, newlyFailed) + RecoveryAlerts(outcomes, recovered));
    }

    /** A run over `banks`; a request while another run holds the lock is skipped. */
    method RunAll(banks: seq<string>, results: seq<BankRun>)
      requires |banks| == |results| && forall b :: b in banks ==> b in known
      modifies this
      ensures locked == old(locked)
      ensures old(locked) ==> status == old(status) && failing == old(failing) && sent == old(sent)
      ensures !old(locked) ==>
        && status == ParseStatus(false, StatusesOf(map b | b in known :: Pending, banks, results))
        && failing == FailingAfter(old(failing), OutcomesOf(banks, results))
        && sent == old(sent) + (if hasNotifier then AlertsAfter(old(failing), OutcomesOf(banks, results)) else [])
    {
      if locked {
        return;
      }
      locked := true;
      var pending := map b | b in known :: Pending;
      status := ParseStatus(true, pending);
      var outcomes: seq<Entry> := [];
      for n := 0 to |banks|
        invariant locked && failing == old(failing) && sent == old(sent)
        invariant outcomes == OutcomesOf(banks[..n], results[..n])
        invariant status == ParseStatus(true, StatusesOf(pending, banks[..n], results[..n]))
        invariant known <= status.banks.Keys
      {
        assert banks[..n + 1][..n] == banks[..n] && results[..n + 1][..n] == results[..n];
        assert banks[n] in banks;
        var o := RunBankSafe(banks[n], results[n]);
        outcomes := Record(outcomes, banks[n], o);
      }
      assert banks[..|banks|] == banks && results[..|results|] == results;
      status := status.(running := false);
      Notify(outcomes);
      locked := false;
    }
  }

  // ---------------------------------------------------------------- over any sequence of runs

  datatype Run = Run(banks: seq<string>, results: seq<BankRun>)

  ghost predicate WellPaired(runs: seq<Run>) {
    forall i :: 0 <= i < |runs| ==> |runs[i].banks| == |runs[i].results|
  }

  function FailingOver(runs: seq<Run>): set<string>
    requires WellPaired(runs)
  {
    if runs == [] then {}
    else
      var r := runs[|runs| - 1];
      FailingAfter(FailingOver(runs[..|runs| - 1]), OutcomesOf(r.banks, r.results))
  }

  function SentOver(runs: seq<Run>): seq<Alert>
    requires WellPaired(runs)
  {
    if runs == [] then []
    else
      var init, r := runs[..|runs| - 1], runs[|runs| - 1];
      SentOver(init) + AlertsAfter(FailingOver(init), OutcomesOf(r.banks, r.results))
  }

  /** How the latest attempt at `bank` within one run ended, None when the run left it out. */
  function LastAttempt(banks: seq<string>, results: seq<BankRun>, bank: string): Option<BankOutcome>
    requires |banks| == |results|
  {
    if banks == [] then None
    else
      var n := |banks| - 1;
      if banks[n] == bank then Some(OutcomeOf(results[n])) else LastAttempt(banks[..n], results[..n], bank)
  }

  /** Whether the latest outcome of `bank` over all runs is a failure. */
  function LatestFails(runs: seq<Run>, bank: string): bool
    requires WellPaired(runs)
  {
    if runs == [] then false
    else
      var r := runs[|runs| - 1];
      var last := LastAttempt(r.banks, r.results, bank);
      if last.Some? then Fails(last.value) else LatestFails(runs[..|runs| - 1], bank)
  }

  /** The alerts about `bank` its own sequence of outcomes calls for: true for each change to failing, false
      for each change back. */
  function Edges(runs: seq<Run>, bank: string): seq<bool>
    requires WellPaired(runs)
  {
    if runs == [] then []
    else
      var init := runs[..|runs| - 1];
      var was, now := LatestFails(init, bank), LatestFails(runs, bank);
      if was == now then Edges(init, bank) else Edges(init, bank) + [now]
  }

  function KindsFor(alerts: seq<Alert>, bank: string): seq<bool> {
    if alerts == [] then []
    else
      var rest, last := KindsFor(alerts[..|alerts| - 1], bank), alerts[|alerts| - 1];
      if last.bank == bank then rest + [last.FailureAlert?] else rest
  }

  // ---------------------------------------------------------------- the outcomes of one run

  function Find(outcomes: seq<Entry>, bank: string): Option<BankOutcome> {
    if outcomes == [] then None
    else if outcomes[|outcomes| - 1].bank == bank then Some(outcomes[|outcomes| - 1].outcome)
    else Find(outcomes[..|outcomes| - 1], bank)
  }

  ghost predicate DistinctBanks(outcomes: seq<Entry>) {
    forall i, j :: 0 <= i < j < |outcomes| ==> outcomes[i].bank != outcomes[j].bank
  }

  lemma {:induction false} FindMeans(outcomes: seq<Entry>, bank: string)
    ensures Find(outcomes, bank).Some? ==> Entry(bank, Find(outcomes, bank).value) in outcomes
    ensures Find(outcomes, bank).None? ==> forall e :: e in outcomes ==> e.bank != bank
    ensures HasBank(outcomes, bank) <==> Find(outcomes, bank).Some?
    ensures DistinctBanks(outcomes) ==>
      forall e :: e in outcomes && e.bank == bank ==> Find(outcomes, bank) == Some(e.outcome)
  {
    if outcomes != [] {
      var init, last := outcomes[..|outcomes| - 1], outcomes[|outcomes| - 1];
      assert outcomes == init + [last];
      FindMeans(init, bank);
    }
  }

  lemma FindAppend(outcomes: seq<Entry>, e: Entry, bank: string)
    ensures Find(outcomes + [e], bank) == if e.bank == bank then Some(e.outcome) else Find(outcomes, bank)
  {
    assert (outcomes + [e])[..|outcomes|] == outcomes;
  }

  lemma DistinctAppend(outcomes: seq<Entry>, e: Entry)
    requires DistinctBanks(outcomes) && Find(outcomes, e.bank).None?
    ensures DistinctBanks(outcomes + [e])
  {
    FindMeans(outcomes, e.bank);
    assert forall i :: 0 <= i < |outcomes| ==> outcomes[i] in outcomes;
  }

  lemma {:induction false} RecordFacts(outcomes: seq<Entry>, bank: string, o: BankOutcome, other: string)
    requires DistinctBanks(outcomes)
    ensures DistinctBanks(Record(outcomes, bank, o))
    ensures Find(Record(outcomes, bank, o), other) == if other == bank then Some(o) else Find(outcomes, other)
  {
    FindMeans(outcomes, bank);
    if outcomes == [] {
      var none: seq<Entry> := [];
      assert none + [Entry(bank, o)] == [Entry(bank, o)];
      FindAppend(none, Entry(bank, o), other);
    } else {
      var init, last := outcomes[..|outcomes| - 1], outcomes[|outcomes| - 1];
      assert outcomes == init + [last];
      FindMeans(init, last.bank);
      FindMeans(init, bank);
      if last.bank == bank {
        FindAppend(init, Entry(bank, o), other);
        DistinctAppend(init, Entry(bank, o));
      } else if HasBank(init, bank) {
        RecordFacts(init, bank, o, other);
        RecordFacts(init, bank, o, last.bank);
        FindAppend(Record(init, bank, o), last, other);
        DistinctAppend(Record(init, bank, o), last);
      } else {
        FindAppend(outcomes, Entry(bank, o), other);
        DistinctAppend(outcomes, Entry(bank, o));
      }
    }
  }

  lemma {:induction false} OutcomesAreLatest(banks: seq<string>, results: seq<BankRun>, bank: string)
    requires |banks| == |results|
    ensures DistinctBanks(OutcomesOf(banks, results))
    ensures Find(OutcomesOf(banks, results), bank) == LastAttempt(banks, results, bank)
  {
    hide Record;
    if banks != [] {
      var n := |banks| - 1;
      OutcomesAreLatest(banks[..n], results[..n], bank);
      RecordFacts(OutcomesOf(banks[..n], results[..n]), banks[n], OutcomeOf(results[n]), bank);
    }
  }

  /** How a set of failing banks moves, bank by bank. */
  lemma FailingMoves(failing: set<string>, outcomes: seq<Entry>, bank: string)
    requires DistinctBanks(outcomes)
    ensures var o := Find(outcomes, bank);
      && (bank in FailedBanks(outcomes) <==> o.Some? && Fails(o.value))
      && (bank in PassedBanks(outcomes) <==> o.Some? && !Fails(o.value))
      && (bank in FailingAfter(failing, outcomes) <==> if o.Some? then Fails(o.value) else bank in failing)
  {
    FindMeans(outcomes, bank);
  }

  // ---------------------------------------------------------------- the alerts of one run

  lemma {:induction false} KindsConcat(a: seq<Alert>, b: seq<Alert>, bank: string)
    ensures KindsFor(a + b, bank) == KindsFor(a, bank) + KindsFor(b, bank)
  {
    if b == [] {
      assert a + b == a;
    } else {
      KindsConcat(a, b[..|b| - 1], bank);
      assert (a + b)[..|a + b| - 1] == a + b[..|b| - 1];
    }
  }

  lemma KindsOne(a: seq<Alert>, alert: Alert, bank: string)
    ensures KindsFor(a + [alert], bank)
         == if alert.bank == bank then KindsFor(a, bank) + [alert.FailureAlert?] else KindsFor(a, bank)
  {
    assert (a + [alert])[..|a|] == a;
  }

  lemma {:induction false} FailureKinds(outcomes: seq<Entry>, newly: set<string>, bank: string)
    requires DistinctBanks(outcomes)
    ensures KindsFor(FailureAlerts(outcomes, newly), bank)
         == if bank in newly && Find(outcomes, bank).Some? then [true] else []
  {
    if outcomes != [] {
      var init, e := outcomes[..|outcomes| - 1], outcomes[|outcomes| - 1];
      assert outcomes == init + [e];
      FailureKinds(init, newly, bank);
      FindMeans(init, e.bank);
      assert Find(init, e.bank).None?;
      if e.bank in newly {
        KindsOne(FailureAlerts(init, newly),
                 FailureAlert(e.bank, ErrorText(e.outcome), e.outcome.rejected), bank);
      }
    }
  }

  lemma {:induction false} RecoveryKinds(outcomes: seq<Entry>, recovered: set<string>, bank: string)
    requires DistinctBanks(outcomes)
    ensures KindsFor(RecoveryAlerts(outcomes, recovered), bank)
         == if bank in recovered && Find(outcomes, bank).Some? then [false] else []
  {
    if outcomes != [] {
      var init, e := outcomes[..|outcomes| - 1], outcomes[|outcomes| - 1];
      assert outcomes == init + [e];
      RecoveryKinds(init, recovered, bank);
      FindMeans(init, e.bank);
      assert Find(init, e.bank).None?;
      if e.bank in recovered {
        KindsOne(RecoveryAlerts(init, recovered), RecoveryAlert(e.bank), bank);
      }
    }
  }

  lemma AlertKinds(failing: set<string>, outcomes: seq<Entry>, bank: string)
    requires DistinctBanks(outcomes)
    ensures var was, now := bank in failing, bank in FailingAfter(failing, outcomes);
      KindsFor(AlertsAfter(failing, outcomes), bank) == if was == now then [] else [now]
  {
    hide FailureAlerts, RecoveryAlerts, KindsFor, Find;
    var newly, recovered := FailedBanks(outcomes) - failing, PassedBanks(outcomes) * failing;
    FailingMoves(failing, outcomes, bank);
    FailureKinds(outcomes, newly, bank);
    RecoveryKinds(outcomes, recovered, bank);
    KindsConcat(FailureAlerts(outcomes, newly), RecoveryAlerts(outcomes, recovered), bank);
  }

  // ---------------------------------------------------------------- over all runs

  /** The failing set is exactly the banks whose latest outcome failed, whatever banks each run covered. */
  lemma {:induction false} FailingIsLatest(runs: seq<Run>, bank: string)
    requires WellPaired(runs)
    ensures bank in FailingOver(runs) <==> LatestFails(runs, bank)
  {
    hide FailingAfter, OutcomesOf, LastAttempt, Fails;
    if runs != [] {
      var init, r := runs[..|runs| - 1], runs[|runs| - 1];
      FailingIsLatest(init, bank);
      OutcomesAreLatest(r.banks, r.results, bank);
      FailingMoves(FailingOver(init), OutcomesOf(r.banks, r.results), bank);
    }
  }

  /** A bank is alerted about exactly at the changes of its own latest outcome. */
  lemma {:induction false} AlertsAreEdges(runs: seq<Run>, bank: string)
    requires WellPaired(runs)
    ensures KindsFor(SentOver(runs), bank) == Edges(runs, bank)
  {
    hide FailingAfter, OutcomesOf, LatestFails, AlertsAfter, KindsFor;
    if runs == [] {
      NothingSent(bank);
    } else {
      var init, r := runs[..|runs| - 1], runs[|runs| - 1];
      AlertsAreEdges(init, bank);
      FailingIsLatest(init, bank);
      FailingIsLatest(runs, bank);
      OutcomesAreLatest(r.banks, r.results, bank);
      AlertKinds(FailingOver(init), OutcomesOf(r.banks, r.results), bank);
      KindsConcat(SentOver(init), AlertsAfter(FailingOver(init), OutcomesOf(r.banks, r.results)), bank);
    }
  }

  lemma NothingSent(bank: string)
    ensures KindsFor([], bank) == []
  {
  }

  /** A bank's alerts alternate, failure first, and the last one says whether it is failing now. */
  lemma {:induction false} AlertsAlternate(runs: seq<Run>, bank: string)
    requires WellPaired(runs)
    ensures var kinds := KindsFor(SentOver(runs), bank);
      && (forall i :: 0 <= i < |kinds| ==> kinds[i] == (i % 2 == 0))
      && (LatestFails(runs, bank) <==> |kinds| % 2 == 1)
  {
    AlertsAreEdges(runs, bank);
    EdgesAlternate(runs, bank);
  }

  lemma {:induction false} EdgesAlternate(runs: seq<Run>, bank: string)
    requires WellPaired(runs)
    ensures forall i :: 0 <= i < |Edges(runs, bank)| ==> Edges(runs, bank)[i] == (i % 2 == 0)
    ensures LatestFails(runs, bank) <==> |Edges(runs, bank)| % 2 == 1
  {
    hide LastAttempt, Fails;
    if runs != [] {
      EdgesAlternate(runs[..|runs| - 1], bank);
    }
  }

  /** An exception whose public text is empty passes for a success: no alert, and the bank does not count
      as failing, although its status says failed. */
  lemma EmptyErrorPasses(run: BankRun)
    ensures !Fails(OutcomeOf(run)) <==> run.Succeeded? || (!run.failure.Unexpected? && run.failure.text == "")
    ensures StatusOf(run).Failed? <==> run.Raised?
  {
    if run.Raised? && run.failure.Unexpected? {
      assert PublicError(run.failure)[0] == 'i';
    }
  }
}
