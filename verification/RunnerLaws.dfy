/** What the alerts and the final status of a run say (app/parser_runner.py). */
module RunnerLaws {
  import opened Common
  import opened Runner

  /** `k` is the last place of the bank in the run. */
  ghost predicate LastAt(banks: seq<string>, bank: string, k: int) {
    0 <= k < |banks| && banks[k] == bank && forall j :: k < j < |banks| ==> banks[j] != bank
  }

  /** What may be told of a failure: the text of parser errors and rejections, the kind of anything else. */
  function Told(f: Failure): string {
    match f
    case ParserFailed(text) => text
    case SnapshotRefused(text) => text
    case Unexpected(typeName) => "internal error (" + typeName + "), see server logs"
  }

  lemma {:induction false} LastAttemptAt(banks: seq<string>, results: seq<BankRun>, bank: string, k: nat)
    requires |banks| == |results| && LastAt(banks, bank, k)
    ensures LastAttempt(banks, results, bank) == Some(OutcomeOf(results[k]))
  {
    var n := |banks| - 1;
    if k < n {
      LastAttemptAt(banks[..n], results[..n], bank, k);
    }
  }

  lemma {:induction false} NoAttempt(banks: seq<string>, results: seq<BankRun>, bank: string)
    requires |banks| == |results| && bank !in banks
    ensures LastAttempt(banks, results, bank) == None
  {
    if banks != [] {
      var n := |banks| - 1;
      NoAttempt(banks[..n], results[..n], bank);
    }
  }

  /** A run ends with each bank's status saying how its last attempt went; banks not in the run keep theirs. */
  lemma {:induction false} FinalStatus(
    start: map<string, BankStatus>, banks: seq<string>, results: seq<BankRun>, bank: string)
    requires |banks| == |results|
    ensures forall k :: LastAt(banks, bank, k) ==>
      bank in StatusesOf(start, banks, results)
      && StatusesOf(start, banks, results)[bank]
         == match results[k]
            case Succeeded(services, methods, changes) => Done(services, methods, changes)
            case Raised(f) => Failed(Told(f))
    ensures bank !in banks ==>
      (bank in StatusesOf(start, banks, results) <==> bank in start)
      && (bank in start ==> StatusesOf(start, banks, results)[bank] == start[bank])
  {
    if banks != [] {
      var n := |banks| - 1;
      FinalStatus(start, banks[..n], results[..n], bank);
      forall k | LastAt(banks, bank, k) && k < n ensures LastAt(banks[..n], bank, k) {
      }
    }
  }

  lemma {:induction false} FailureAlertIff(
    outcomes: seq<Entry>, newly: set<string>, bank: string, text: string, rejected: bool)
    requires DistinctBanks(outcomes)
    ensures FailureAlert(bank, text, rejected) in FailureAlerts(outcomes, newly)
       <==> bank in newly && Find(outcomes, bank).Some? && ErrorText(Find(outcomes, bank).value) == text
            && Find(outcomes, bank).value.rejected == rejected
  {
    if outcomes != [] {
      var n := |outcomes| - 1;
      FailureAlertIff(outcomes[..n], newly, bank, text, rejected);
      FindMeans(outcomes[..n], bank);
    }
  }

  lemma {:induction false} RecoveryAlertIff(outcomes: seq<Entry>, recovered: set<string>, bank: string)
    ensures RecoveryAlert(bank) in RecoveryAlerts(outcomes, recovered)
       <==> bank in recovered && Find(outcomes, bank).Some?
  {
    if outcomes != [] {
      var n := |outcomes| - 1;
      RecoveryAlertIff(outcomes[..n], recovered, bank);
      FindMeans(outcomes[..n], bank);
    }
  }

  lemma {:induction false} KindsApart(outcomes: seq<Entry>, banks: set<string>)
    ensures forall a :: a in FailureAlerts(outcomes, banks) ==> a.FailureAlert?
    ensures forall a :: a in RecoveryAlerts(outcomes, banks) ==> a.RecoveryAlert?
  {
    if outcomes != [] {
      KindsApart(outcomes[..|outcomes| - 1], banks);
    }
  }

  /** The alert for a bank whose last attempt in the run raised with a text: it tells that text, and whether the
      snapshot was refused, exactly when the bank was not failing before. */
  lemma FailureAlertSays(
    failing: set<string>, banks: seq<string>, results: seq<BankRun>, bank: string, k: nat, text: string, rejected: bool)
    requires |banks| == |results| && LastAt(banks, bank, k)
    ensures FailureAlert(bank, text, rejected) in AlertsAfter(failing, OutcomesOf(banks, results))
       <==> && bank !in failing && results[k].Raised?
            && text == Told(results[k].failure) != "" && rejected == results[k].failure.SnapshotRefused?
  {
    hide OutcomesOf, FailureAlerts, RecoveryAlerts, FailedBanks, PassedBanks;
    var outcomes := OutcomesOf(banks, results);
    OutcomesAreLatest(banks, results, bank);
    LastAttemptAt(banks, results, bank, k);
    FailingMoves(failing, outcomes, bank);
    FailureAlertIff(outcomes, FailedBanks(outcomes) - failing, bank, text, rejected);
    KindsApart(outcomes, PassedBanks(outcomes) * failing);
  }

  /** The alert that a bank works again, exactly when it was failing and its last attempt passed. */
  lemma RecoveryAlertSays(failing: set<string>, banks: seq<string>, results: seq<BankRun>, bank: string, k: nat)
    requires |banks| == |results| && LastAt(banks, bank, k)
    ensures RecoveryAlert(bank) in AlertsAfter(failing, OutcomesOf(banks, results))
       <==> bank in failing && (results[k].Succeeded? || Told(results[k].failure) == "")
  {
    hide OutcomesOf, FailureAlerts, RecoveryAlerts, FailedBanks, PassedBanks;
    var outcomes := OutcomesOf(banks, results);
    OutcomesAreLatest(banks, results, bank);
    LastAttemptAt(banks, results, bank, k);
    FailingMoves(failing, outcomes, bank);
    RecoveryAlertIff(outcomes, PassedBanks(outcomes) * failing, bank);
    KindsApart(outcomes, FailedBanks(outcomes) - failing);
  }
}
