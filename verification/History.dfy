/** Imports of snapshots as steps on the stored history, and what holds after any run of them. */
module History {
  import opened Common
  import opened Diff
  import opened DiffLaws
  import opened Snapshot
  import opened Tables

  datatype StoredSnapshot = StoredSnapshot(id: nat, bank: string, state: SnapshotState)
  datatype Logged = Logged(bank: string, change: Change)

  /** The stored snapshots in the order of their ids, the change log, and the next snapshot id. */
  datatype Db = Db(snapshots: seq<StoredSnapshot>, log: seq<Logged>, nextId: nat)

  /** A parsed snapshot handed in: what the comparison sees of it, and whether the tables take it. */
  datatype Request = Request(bank: string, state: SnapshotState, storable: bool, minRatio: real, keep: int)

  /** Imported with the visible changes; rejected by the sanity check; refused by a table constraint. */
  datatype Result = Imported(visible: seq<Change>) | Rejected(reason: Verdict) | Refused

  const EMPTY := Db([], [], 1)

  function RowsOf(snapshots: seq<StoredSnapshot>): seq<SnapshotRow> {
    if snapshots == [] then []
    else
      var last := snapshots[|snapshots| - 1];
      RowsOf(snapshots[..|snapshots| - 1]) + [SnapshotRow(last.id, last.bank)]
  }

  function OfBank(snapshots: seq<StoredSnapshot>, bank: string): seq<StoredSnapshot> {
    if snapshots == [] then []
    else
      var rest, last := OfBank(snapshots[..|snapshots| - 1], bank), snapshots[|snapshots| - 1];
      if last.bank == bank then rest + [last] else rest
  }

  function WithoutIds(snapshots: seq<StoredSnapshot>, ids: seq<nat>): seq<StoredSnapshot> {
    if snapshots == [] then []
    else
      var rest, last := WithoutIds(snapshots[..|snapshots| - 1], ids), snapshots[|snapshots| - 1];
      if last.id in ids then rest else rest + [last]
  }

  function LatestState(snapshots: seq<StoredSnapshot>, bank: string): Option<SnapshotState> {
    var own := OfBank(snapshots, bank);
    if own == [] then None else Some(own[|own| - 1].state)
  }

  function VerdictOf(db: Db, r: Request): Verdict {
    var prev := LatestState(db.snapshots, r.bank);
    CheckSanity(if prev.None? then None else Some(VisibleCount(prev.value.methods)),
                VisibleCount(r.state.methods), r.minRatio)
  }

  predicate Accepts(db: Db, r: Request) {
    VerdictOf(db, r) == Accept && r.storable
  }

  /** The newest `keep` elements; everything when `keep` is below one. */
  function Newest<T>(s: seq<T>, keep: int): seq<T> {
    if keep < 1 || |s| <= keep then s else s[|s| - keep..]
  }

  function LogOf(bank: string, changes: seq<Change>): seq<Logged> {
    if changes == [] then []
    else LogOf(bank, changes[..|changes| - 1]) + [Logged(bank, changes[|changes| - 1])]
  }

  function PublicOnly(changes: seq<Change>): seq<Change> {
    if changes == [] then []
    else
      var rest, last := PublicOnly(changes[..|changes| - 1]), changes[|changes| - 1];
      if last.hidden then rest else rest + [last]
  }

  function Pruned(snapshots: seq<StoredSnapshot>, bank: string, keep: int): seq<StoredSnapshot> {
    WithoutIds(snapshots, CleanupIds(RowsOf(snapshots), bank, keep))
  }

  /** The changes an accepted request is stored with. */
  function ChangesFor(db: Db, r: Request): seq<Change> {
    Changes(LatestState(db.snapshots, r.bank), r.state)
  }

  /** Write the snapshot and its changes, then prune. */
  function Install(db: Db, bank: string, state: SnapshotState, changes: seq<Change>, keep: int): Db {
    Db(Pruned(db.snapshots + [StoredSnapshot(db.nextId, bank, state)], bank, keep),
       db.log + LogOf(bank, changes),
       db.nextId + 1)
  }

  /** One import. A table constraint can only fail after the snapshot id has been drawn. */
  function Step(db: Db, r: Request): Db {
    if VerdictOf(db, r) != Accept then db
    else if !r.storable then db.(nextId := db.nextId + 1)
    else Install(db, r.bank, r.state, ChangesFor(db, r), r.keep)
  }

  function Outcome(db: Db, r: Request): Result {
    if VerdictOf(db, r) != Accept then Rejected(VerdictOf(db, r))
    else if !r.storable then Refused
    else Imported(PublicOnly(ChangesFor(db, r)))
  }

  function Run(requests: seq<Request>): Db {
    if requests == [] then EMPTY
    else Step(Run(requests[..|requests| - 1]), requests[|requests| - 1])
  }

  /** Every snapshot of `bank` that was ever accepted, oldest first. */
  function AcceptedOf(requests: seq<Request>, bank: string): seq<StoredSnapshot> {
    if requests == [] then []
    else
      var init, r := requests[..|requests| - 1], requests[|requests| - 1];
      var before, db := AcceptedOf(init, bank), Run(init);
      if r.bank == bank && Accepts(db, r) then before + [StoredSnapshot(db.nextId, bank, r.state)] else before
  }

  function LoggedOf(log: seq<Logged>, bank: string): seq<Change> {
    if log == [] then []
    else
      var last := log[|log| - 1];
      var rest := LoggedOf(log[..|log| - 1], bank);
      if last.bank == bank then rest + [last.change] else rest
  }

  // ---------------------------------------------------------------- what every step keeps

  ghost predicate Sound(db: Db) {
    && Ascending(db.snapshots)
    && (forall s :: s in db.snapshots ==> s.id < db.nextId && VisibleCount(s.state.methods) > 0)
  }

  ghost predicate Ascending(s: seq<StoredSnapshot>) {
    forall i, j :: 0 <= i < j < |s| ==> s[i].id < s[j].id
  }

  lemma {:induction false} WithoutIdsFacts(s: seq<StoredSnapshot>, ids: seq<nat>)
    requires Ascending(s)
    ensures Ascending(WithoutIds(s, ids))
    ensures forall x :: x in WithoutIds(s, ids) <==> x in s && x.id !in ids
  {
    if s != [] {
      var init, last := s[..|s| - 1], s[|s| - 1];
      assert s == init + [last];
      WithoutIdsFacts(init, ids);
      AscendingAppend(WithoutIds(init, ids), init, last);
    }
  }

  lemma {:induction false} OfBankFacts(s: seq<StoredSnapshot>, bank: string)
    requires Ascending(s)
    ensures Ascending(OfBank(s, bank))
    ensures forall x :: x in OfBank(s, bank) <==> x in s && x.bank == bank
  {
    if s != [] {
      var init, last := s[..|s| - 1], s[|s| - 1];
      assert s == init + [last];
      OfBankFacts(init, bank);
      AscendingAppend(OfBank(init, bank), init, last);
    }
  }

  lemma AscendingAppend(part: seq<StoredSnapshot>, whole: seq<StoredSnapshot>, x: StoredSnapshot)
    requires Ascending(whole + [x]) && Ascending(part)
    requires forall y :: y in part ==> y in whole
    ensures Ascending(part + [x])
  {
    forall i | 0 <= i < |part| ensures part[i].id < x.id {
      assert part[i] in whole;
      var k :| 0 <= k < |whole| && whole[k] == part[i];
      assert (whole + [x])[k] == part[i] && (whole + [x])[|whole|] == x;
    }
  }

  lemma InstallKeepsSound(db: Db, bank: string, state: SnapshotState, changes: seq<Change>, keep: int)
    requires Sound(db) && VisibleCount(state.methods) > 0
    ensures Sound(Install(db, bank, state, changes, keep))
  {
    var all := db.snapshots + [StoredSnapshot(db.nextId, bank, state)];
    var ids := CleanupIds(RowsOf(all), bank, keep);
    var after := Pruned(all, bank, keep);
    WithoutIdsFacts(all, ids);
  }

  lemma StepKeepsSound(db: Db, r: Request)
    requires Sound(db)
    ensures Sound(Step(db, r))
  {
    if Accepts(db, r) {
      InstallKeepsSound(db, r.bank, r.state, ChangesFor(db, r), r.keep);
    }
  }

  lemma {:induction false} RunIsSound(requests: seq<Request>)
    ensures Sound(Run(requests))
  {
    if requests != [] {
      RunIsSound(requests[..|requests| - 1]);
      StepKeepsSound(Run(requests[..|requests| - 1]), requests[|requests| - 1]);
    }
  }

  // ---------------------------------------------------------------- pruning

  ghost predicate InReverse(ids: seq<nat>, own: seq<StoredSnapshot>) {
    |ids| == |own| && forall i :: 0 <= i < |ids| ==> ids[i] == own[|own| - 1 - i].id
  }

  lemma InReverseStep(ids: seq<nat>, own: seq<StoredSnapshot>, s: StoredSnapshot)
    requires InReverse(ids, own)
    ensures InReverse([s.id] + ids, own + [s])
  {
  }

  lemma {:induction false} IdsInReverse(snapshots: seq<StoredSnapshot>, bank: string)
    ensures InReverse(IdsNewestFirst(RowsOf(snapshots), bank), OfBank(snapshots, bank))
  {
    hide InReverse;
    if snapshots == [] {
      EmptyInReverse();
    } else {
      var init, last := snapshots[..|snapshots| - 1], snapshots[|snapshots| - 1];
      IdsInReverse(init, bank);
      InReverseStep(IdsNewestFirst(RowsOf(init), bank), OfBank(init, bank), last);
      assert (RowsOf(init) + [SnapshotRow(last.id, last.bank)])[..|RowsOf(init)|] == RowsOf(init);
    }
  }

  lemma EmptyInReverse()
    ensures InReverse([], [])
  {
  }

  lemma {:induction false} FiltersCommute(s: seq<StoredSnapshot>, bank: string, ids: seq<nat>)
    ensures OfBank(WithoutIds(s, ids), bank) == WithoutIds(OfBank(s, bank), ids)
  {
    if s != [] {
      var init, last := s[..|s| - 1], s[|s| - 1];
      FiltersCommute(init, bank, ids);
      assert (WithoutIds(init, ids) + [last])[..|WithoutIds(init, ids)|] == WithoutIds(init, ids);
      assert (OfBank(init, bank) + [last])[..|OfBank(init, bank)|] == OfBank(init, bank);
    }
  }

  /** Dropping the ids of a prefix leaves the rest. */
  lemma {:induction false} DropPrefix(s: seq<StoredSnapshot>, ids: seq<nat>, n: nat)
    requires n <= |s|
    requires forall i :: 0 <= i < |s| ==> (s[i].id in ids <==> i < n)
    ensures WithoutIds(s, ids) == s[n..]
  {
    if s != [] {
      var init := s[..|s| - 1];
      if n < |s| {
        DropPrefix(init, ids, n);
        assert s[n..] == init[n..] + [s[|s| - 1]];
      } else {
        DropPrefix(init, ids, |init|);
      }
    }
  }

  /** Which of the bank's own snapshots are due for cleanup. */
  lemma OwnCleanup(own: seq<StoredSnapshot>, all: seq<nat>, keep: nat, i: nat)
    requires Ascending(own)
    requires InReverse(all, own)
    requires keep <= |own| && i < |own|
    ensures own[i].id in all[keep..] <==> i < |own| - keep
  {
    var ids := all[keep..];
    if i < |own| - keep {
      assert ids[|own| - 1 - i - keep] == own[i].id;
    }
  }

  lemma CleanupTouchesOwn(snapshots: seq<StoredSnapshot>, bank: string, keep: int, id: nat)
    requires Ascending(snapshots) && id in CleanupIds(RowsOf(snapshots), bank, keep)
    ensures exists s :: s in snapshots && s.bank == bank && s.id == id
  {
    var all, own := IdsNewestFirst(RowsOf(snapshots), bank), OfBank(snapshots, bank);
    IdsInReverse(snapshots, bank);
    var k :| 0 <= k < |all| && all[k] == id;
    OfBankFacts(snapshots, bank);
    assert own[|own| - 1 - k] in own;
  }

  lemma OwnCleanupIds(own: seq<StoredSnapshot>, all: seq<nat>, keep: nat)
    requires Ascending(own)
    requires InReverse(all, own)
    requires keep <= |own|
    ensures WithoutIds(own, all[keep..]) == own[|own| - keep..]
  {
    forall i: nat | i < |own| ensures own[i].id in all[keep..] <==> i < |own| - keep {
      OwnCleanup(own, all, keep, i);
    }
    DropPrefix(own, all[keep..], |own| - keep);
  }

  lemma PrunedOwn(snapshots: seq<StoredSnapshot>, bank: string, keep: int)
    requires Ascending(snapshots)
    ensures OfBank(Pruned(snapshots, bank, keep), bank) == Newest(OfBank(snapshots, bank), keep)
  {
    hide WithoutIds, IdsNewestFirst, RowsOf, OfBank;
    var all, own := IdsNewestFirst(RowsOf(snapshots), bank), OfBank(snapshots, bank);
    FiltersCommute(snapshots, bank, CleanupIds(RowsOf(snapshots), bank, keep));
    OfBankFacts(snapshots, bank);
    IdsInReverse(snapshots, bank);
    if keep < 1 || |own| <= keep {
      DropPrefix(own, [], 0);
    } else {
      OwnCleanupIds(own, all, keep);
    }
  }

  lemma PrunedOther(snapshots: seq<StoredSnapshot>, bank: string, keep: int, other: string)
    requires Ascending(snapshots)
    requires other != bank
    ensures OfBank(Pruned(snapshots, bank, keep), other) == OfBank(snapshots, other)
  {
    hide OfBank, WithoutIds, RowsOf, CleanupIds;
    var ids := CleanupIds(RowsOf(snapshots), bank, keep);
    var rest := OfBank(snapshots, other);
    FiltersCommute(snapshots, other, ids);
    forall i | 0 <= i < |rest| ensures rest[i].id !in ids {
      OtherNotDue(snapshots, bank, keep, other, rest[i]);
    }
    DropPrefix(rest, ids, 0);
  }

  /** A snapshot of another bank is never due for cleanup. */
  lemma OtherNotDue(snapshots: seq<StoredSnapshot>, bank: string, keep: int, other: string, s: StoredSnapshot)
    requires Ascending(snapshots) && other != bank && s in OfBank(snapshots, other)
    ensures s.id !in CleanupIds(RowsOf(snapshots), bank, keep)
  {
    hide OfBank, RowsOf, CleanupIds;
    OfBankFacts(snapshots, other);
    if s.id in CleanupIds(RowsOf(snapshots), bank, keep) {
      CleanupTouchesOwn(snapshots, bank, keep, s.id);
      assert false;
    }
  }

  /** Installing leaves the bank its newest `keep` snapshots, the new one included, and other banks all of theirs. */
  lemma InstallOfBank(db: Db, owner: string, state: SnapshotState, changes: seq<Change>, keep: int, bank: string)
    requires Sound(db)
    ensures OfBank(Install(db, owner, state, changes, keep).snapshots, bank)
         == if owner == bank then Newest(OfBank(db.snapshots, bank) + [StoredSnapshot(db.nextId, bank, state)], keep)
            else OfBank(db.snapshots, bank)
  {
    var added := StoredSnapshot(db.nextId, owner, state);
    var all := db.snapshots + [added];
    assert all[..|db.snapshots|] == db.snapshots;
    if owner == bank {
      PrunedOwn(all, owner, keep);
    } else {
      PrunedOther(all, owner, keep, bank);
    }
  }

  /** What one request does to the snapshots of a bank. */
  lemma StepOfBank(db: Db, r: Request, bank: string)
    requires Sound(db)
    ensures OfBank(Step(db, r).snapshots, bank)
         == if r.bank == bank && Accepts(db, r)
            then Newest(OfBank(db.snapshots, bank) + [StoredSnapshot(db.nextId, bank, r.state)], r.keep)
            else OfBank(db.snapshots, bank)
  {
    if Accepts(db, r) {
      InstallOfBank(db, r.bank, r.state, ChangesFor(db, r), r.keep, bank);
    }
  }

  /** What one request does to the log of a bank. */
  lemma StepOfLog(db: Db, r: Request, bank: string)
    ensures LoggedOf(Step(db, r).log, bank)
         == if r.bank == bank && Accepts(db, r) then LoggedOf(db.log, bank) + ChangesFor(db, r)
           else LoggedOf(db.log, bank)
  {
    hide Pruned;
    if Accepts(db, r) {
      LoggedAppend(db.log, bank, ChangesFor(db, r), r.bank);
    }
  }

  lemma NewestAgain<T>(s: seq<T>, x: T, keep: int)
    ensures Newest(Newest(s, keep) + [x], keep) == Newest(s + [x], keep)
  {
  }

  /** After any run a bank holds exactly the newest `keep` of the snapshots ever accepted for it. */
  lemma {:induction false} NewestKept(requests: seq<Request>, bank: string, keep: int)
    requires forall r :: r in requests && r.bank == bank ==> r.keep == keep
    ensures OfBank(Run(requests).snapshots, bank) == Newest(AcceptedOf(requests, bank), keep)
  {
    hide Step, Accepts;
    if requests != [] {
      var init, r := requests[..|requests| - 1], requests[|requests| - 1];
      assert forall x :: x in init ==> x in requests;
      assert r in requests;
      NewestKept(init, bank, keep);
      RunIsSound(init);
      StepOfBank(Run(init), r, bank);
      NewestAgain(AcceptedOf(init, bank), StoredSnapshot(Run(init).nextId, bank, r.state), keep);
    }
  }

  lemma NoneOfBank(bank: string)
    ensures OfBank(EMPTY.snapshots, bank) == []
  {
  }

  /** Whatever the `keep` of each request, the newest accepted snapshot is the one in force. */
  lemma {:induction false} LatestIsLastAccepted(requests: seq<Request>, bank: string)
    ensures var accepted := AcceptedOf(requests, bank);
      LatestState(Run(requests).snapshots, bank)
      == if accepted == [] then None else Some(accepted[|accepted| - 1].state)
  {
    hide Step, Accepts, OfBank, Sound;
    if requests == [] {
      NoneOfBank(bank);
    } else {
      var init, r := requests[..|requests| - 1], requests[|requests| - 1];
      LatestIsLastAccepted(init, bank);
      RunIsSound(init);
      StepOfBank(Run(init), r, bank);
    }
  }

  // ---------------------------------------------------------------- replaying the public history

  lemma {:induction false} LoggedAppend(log: seq<Logged>, bank: string, changes: seq<Change>, of: string)
    ensures LoggedOf(log + LogOf(of, changes), bank) == if of == bank then LoggedOf(log, bank) + changes
        else LoggedOf(log, bank)
  {
    hide LoggedOf;
    if changes == [] {
      assert log + LogOf(of, changes) == log;
    } else {
      var init, last := changes[..|changes| - 1], changes[|changes| - 1];
      LoggedAppend(log, bank, init, of);
      LoggedOneMore(log, LogOf(of, init), bank, init, of, last);
      assert changes == init + [last];
    }
  }

  lemma LoggedOneMore(log: seq<Logged>, added: seq<Logged>, bank: string, init: seq<Change>, of: string, last: Change)
    requires LoggedOf(log + added, bank) == if of == bank then LoggedOf(log, bank) + init else LoggedOf(log, bank)
    ensures LoggedOf(log + (added + [Logged(of, last)]), bank)
         == if of == bank then LoggedOf(log, bank) + (init + [last]) else LoggedOf(log, bank)
  {
    hide LoggedOf;
    LoggedOne(log + added, bank, Logged(of, last));
    assert log + (added + [Logged(of, last)]) == (log + added) + [Logged(of, last)];
  }

  lemma LoggedOne(log: seq<Logged>, bank: string, entry: Logged)
    ensures LoggedOf(log + [entry], bank)
         == if entry.bank == bank then LoggedOf(log, bank) + [entry.change] else LoggedOf(log, bank)
  {
    assert (log + [entry])[..|log|] == log;
  }

  /** For every run of accepted, rejected and refused imports of any banks: the first accepted snapshot's
      dashboard keys, brought forward by the bank's stored public changes, are those of the snapshot in
      force. Pruning takes nothing away from this. */
  lemma {:induction false} HistoryReplays(requests: seq<Request>, bank: string)
    ensures var accepted := AcceptedOf(requests, bank);
      var changes := LoggedOf(Run(requests).log, bank);
      if accepted == [] then changes == []
      else Replay(VisibleKeys(accepted[0].state), changes) == VisibleKeys(accepted[|accepted| - 1].state)
  {
    hide Step, Accepts, Changes, VisibleKeys, ChangesFor, LatestState;
    if requests != [] {
      var init, r := requests[..|requests| - 1], requests[|requests| - 1];
      var db, before := Run(init), AcceptedOf(init, bank);
      HistoryReplays(init, bank);
      LatestIsLastAccepted(init, bank);
      StepOfLog(db, r, bank);
      if before != [] {
        ReplayConcat(VisibleKeys(before[0].state), LoggedOf(db.log, bank), ChangesFor(db, r));
        ReplayAgainstLatest(db, r, before[|before| - 1].state, bank);
      } else {
        FirstImportIsBaseline(db, r, bank);
      }
    }
  }

  lemma ReplayAgainstLatest(db: Db, r: Request, prev: SnapshotState, bank: string)
    requires LatestState(db.snapshots, bank) == Some(prev)
    ensures r.bank == bank ==> Replay(VisibleKeys(prev), ChangesFor(db, r)) == VisibleKeys(r.state)
    ensures Replay(VisibleKeys(prev), []) == VisibleKeys(prev)
  {
    ReplayOneImport(prev, r.state);
  }

  lemma FirstImportIsBaseline(db: Db, r: Request, bank: string)
    requires LatestState(db.snapshots, bank) == None
    ensures r.bank == bank ==> ChangesFor(db, r) == []
    ensures Replay(VisibleKeys(r.state), []) == VisibleKeys(r.state)
  {
  }

  /** The same, said of the snapshot the dashboard shows. */
  lemma DashboardIsReplayable(requests: seq<Request>, bank: string)
    requires AcceptedOf(requests, bank) != []
    ensures LatestState(Run(requests).snapshots, bank).Some?
    ensures VisibleKeys(LatestState(Run(requests).snapshots, bank).value)
         == Replay(VisibleKeys(AcceptedOf(requests, bank)[0].state), LoggedOf(Run(requests).log, bank))
  {
    HistoryReplays(requests, bank);
    LatestIsLastAccepted(requests, bank);
  }

  // ---------------------------------------------------------------- the visible surface cannot collapse

  function Power(x: real, n: nat): real {
    if n == 0 then 1.0 else x * Power(x, n - 1)
  }

  lemma {:induction false} PowerPositive(x: real, n: nat)
    requires x > 0.0
    ensures Power(x, n) > 0.0
  {
    if n > 0 {
      PowerPositive(x, n - 1);
    }
  }

  /** One accepted import of a bank keeps at least `minRatio` of its visible methods. */
  lemma AcceptedKeepsRatio(db: Db, r: Request, prev: SnapshotState)
    requires Accepts(db, r) && r.minRatio > 0.0 && LatestState(db.snapshots, r.bank) == Some(prev)
    ensures VisibleCount(r.state.methods) as real >= VisibleCount(prev.methods) as real * r.minRatio
  {
    if VisibleCount(prev.methods) == 0 {
      assert VisibleCount(prev.methods) as real * r.minRatio == 0.0;
    }
  }

  /** The k-th accepted snapshot after the first has at least `ratio`^k of its visible methods. */
  lemma {:induction false} VisibleFloor(requests: seq<Request>, bank: string, ratio: real, k: nat)
    requires ratio > 0.0
    requires forall r :: r in requests && r.bank == bank ==> r.minRatio == ratio
    requires k < |AcceptedOf(requests, bank)|
    ensures var accepted := AcceptedOf(requests, bank);
      VisibleCount(accepted[k].state.methods) as real
      >= Power(ratio, k) * VisibleCount(accepted[0].state.methods) as real
  {
    hide Step, Accepts, VisibleCount;
    var init, r := requests[..|requests| - 1], requests[|requests| - 1];
    assert forall x :: x in init ==> x in requests;
    assert r in requests;
    var before := AcceptedOf(init, bank);
    if k < |before| {
      VisibleFloor(init, bank, ratio, k);
    } else if k > 0 {
      VisibleFloor(init, bank, ratio, k - 1);
      LatestIsLastAccepted(init, bank);
      AcceptedKeepsRatio(Run(init), r, before[k - 1].state);
      ScaledFloor(ratio, Power(ratio, k - 1), VisibleCount(before[0].state.methods) as real,
                  VisibleCount(before[k - 1].state.methods) as real);
    }
  }

  lemma ScaledFloor(ratio: real, power: real, first: real, prev: real)
    requires ratio > 0.0 && prev >= power * first
    ensures prev * ratio >= ratio * power * first
  {
    assert (prev - power * first) * ratio >= 0.0;
  }

  // ---------------------------------------------------------------- importing the same snapshot again

  lemma LatestAfterImport(db: Db, r: Request)
    requires Sound(db) && Accepts(db, r)
    ensures LatestState(Step(db, r).snapshots, r.bank) == Some(r.state)
    ensures VisibleCount(r.state.methods) > 0
  {
    StepOfBank(db, r, r.bank);
    hide Step, Sound, OfBank, VisibleCount;
  }

  /** A request for just what is in force. */
  lemma SameAgain(db: Db, r: Request)
    requires LatestState(db.snapshots, r.bank) == Some(r.state)
    requires r.storable && VisibleCount(r.state.methods) > 0
    ensures Accepts(db, r) <==> r.minRatio <= 1.0
    ensures ChangesFor(db, r) == []
  {
    NoChangesIffAgree(r.state, r.state);
    SameCountPasses(VisibleCount(r.state.methods), r.minRatio);
    hide Changes, VisibleCount, CheckSanity, LatestState;
  }

  /** Right after an accepted import the same snapshot is accepted again exactly when the ratio
      does not ask for growth, and then nothing is reported. */
  lemma ReimportIsQuiet(db: Db, r: Request, ratio: real)
    requires Sound(db) && Accepts(db, r)
    ensures Accepts(Step(db, r), r.(minRatio := ratio)) <==> ratio <= 1.0
    ensures ChangesFor(Step(db, r), r.(minRatio := ratio)) == []
  {
    LatestAfterImport(db, r);
    hide Step, Sound, VerdictOf, ChangesFor, LatestState, VisibleCount;
    SameAgain(Step(db, r), r.(minRatio := ratio));
  }

  lemma SameCountPasses(n: nat, ratio: real)
    requires n > 0
    ensures CheckSanity(Some(n), n, ratio) == Accept <==> ratio <= 1.0
  {
    var count := n as real;
    if ratio > 1.0 {
      assert count * (ratio - 1.0) > 0.0;
    } else if ratio > 0.0 {
      assert count * (1.0 - ratio) >= 0.0;
    }
  }

  /** A rejected import changes nothing at all; a refused one only draws a snapshot id. */
  lemma FailedImportsChangeNothing(db: Db, r: Request)
    requires !Outcome(db, r).Imported?
    ensures Step(db, r).snapshots == db.snapshots && Step(db, r).log == db.log
    ensures Outcome(db, r).Rejected? <==> Step(db, r) == db
  {
  }
}
