/** The login rate limiter (app/auth.py) as login drives it (app/web_auth.py). */
module Limiter {

  /** Failure times per key, oldest first. */
  type Failures = map<string, seq<real>>

  // ---------------------------------------------------------------- one call

  /** Keys whose last failure has left the window are forgotten. */
  function DropStale(f: Failures, now: real, window: real): Failures {
    map k | k in f && !(f[k] != [] && f[k][|f[k]| - 1] <= now - window) :: f[k]
  }

  /** Failures that have left the window are taken off the front. */
  function Trim(q: seq<real>, now: real, window: real): seq<real> {
    if q != [] && q[0] <= now - window then Trim(q[1..], now, window) else q
  }

  /** The table after `_recent`; the key is present afterwards. */
  function Recent(f: Failures, key: string, now: real, window: real): Failures {
    var kept := DropStale(f, now, window);
    kept[key := Trim(if key in kept then kept[key] else [], now, window)]
  }

  function Count(q: seq<real>, after: real): nat {
    if q == [] then 0 else Count(q[..|q| - 1], after) + if q[|q| - 1] > after then 1 else 0
  }

  class LoginLimiter {
    const max: nat
    const window: real
    var failures: Failures

    constructor (max: nat, window: real)
      ensures this.max == max && this.window == window && failures == map[]
    {
      this.max, this.window, failures := max, window, map[];
    }

    method RecentFor(key: string, now: real) returns (q: seq<real>)
      modifies this
      ensures failures == Recent(old(failures), key, now, window)
      ensures q == failures[key]
    {
      var stale := set k | k in failures && failures[k] != [] && failures[k][|failures[k]| - 1] <= now - window;
      failures := failures - stale;
      assert failures == DropStale(old(failures), now, window);
      q := if key in failures then failures[key] else [];
      ghost var all := q;
      while q != [] && q[0] <= now - window
        invariant Trim(q, now, window) == Trim(all, now, window)
        decreases |q|
      {
        q := q[1..];
      }
      failures := failures[key := q];
    }

    method Blocked(key: string, now: real) returns (blocked: bool)
      modifies this
      ensures failures == Recent(old(failures), key, now, window)
      ensures blocked <==> |failures[key]| >= max
    {
      var q := RecentFor(key, now);
      blocked := |q| >= max;
    }

    method Failure(key: string, now: real)
      modifies this
      ensures var r := Recent(old(failures), key, now, window); failures == r[key := r[key] + [now]]
    {
      var q := RecentFor(key, now);
      failures := failures[key := q + [now]];
    }

    method Reset(key: string)
      modifies this
      ensures failures == old(failures) - {key}
    {
      failures := failures - {key};
    }

    /** One login attempt; `correct` is what the password check would say. */
    method Login(ip: string, now: real, correct: bool) returns (reply: Reply)
      modifies this
      ensures (failures, reply) == Attempt(old(failures), max, window, ip, now, correct)
    {
      var blocked := Blocked(ip, now);
      if blocked {
        return TooMany;
      }
      if !correct {
        Failure(ip, now);
        return Wrong;
      }
      Reset(ip);
      reply := Granted;
    }
  }

  // ---------------------------------------------------------------- login attempts

  datatype Reply = TooMany | Wrong | Granted

  function Attempt(f: Failures, max: nat, window: real, ip: string, now: real, correct: bool): (Failures, Reply) {
    var r := Recent(f, ip, now, window);
    if |r[ip]| >= max then (r, TooMany)
    else if correct then (r - {ip}, Granted)
    else
      var again := Recent(r, ip, now, window);
      (again[ip := again[ip] + [now]], Wrong)
  }

  // ---------------------------------------------------------------- any use of the limiter

  datatype Call = Check(key: string, at: real) | Fail(key: string, at: real) | Clear(key: string, at: real)

  function Apply(f: Failures, window: real, c: Call): Failures {
    match c
    case Check(key, at) => Recent(f, key, at, window)
    case Fail(key, at) => var r := Recent(f, key, at, window); r[key := r[key] + [at]]
    case Clear(key, _) => f - {key}
  }

  function ApplyAll(calls: seq<Call>, window: real): Failures {
    if calls == [] then map[]
    else Apply(ApplyAll(calls[..|calls| - 1], window), window, calls[|calls| - 1])
  }

  /** Every failure recorded for the key since it was last cleared: nothing is ever pruned here. */
  function LogOf(calls: seq<Call>, key: string): seq<real> {
    if calls == [] then []
    else Logged(LogOf(calls[..|calls| - 1], key), calls[|calls| - 1], key)
  }

  function Logged(log: seq<real>, c: Call, key: string): seq<real> {
    if c.key != key then log
    else match c case Check(_, _) => log case Fail(_, at) => log + [at] case Clear(_, _) => []
  }

  ghost predicate Nondecreasing(q: seq<real>) {
    forall i, j :: 0 <= i < j < |q| ==> q[i] <= q[j]
  }

  ghost predicate InOrder(calls: seq<Call>) {
    forall i, j :: 0 <= i < j < |calls| ==> calls[i].at <= calls[j].at
  }

  function Stored(f: Failures, key: string): seq<real> {
    if key in f then f[key] else []
  }

  /** What is stored is the end of the log, and what is missing has left the window. */
  ghost predicate Covers(stored: seq<real>, log: seq<real>, now: real, window: real) {
    && |stored| <= |log| && log[|log| - |stored|..] == stored
    && forall i :: 0 <= i < |log| - |stored| ==> log[i] <= now - window
  }

  // ---------------------------------------------------------------- the ideal sliding window

  lemma {:induction false} CountConcat(a: seq<real>, b: seq<real>, after: real)
    ensures Count(a + b, after) == Count(a, after) + Count(b, after)
  {
    if b == [] {
      assert a + b == a;
    } else {
      CountConcat(a, b[..|b| - 1], after);
      assert (a + b)[..|a + b| - 1] == a + b[..|b| - 1];
    }
  }

  lemma {:induction false} CountAll(q: seq<real>, after: real)
    requires forall i :: 0 <= i < |q| ==> q[i] > after
    ensures Count(q, after) == |q|
  {
    if q != [] {
      CountAll(q[..|q| - 1], after);
    }
  }

  lemma {:induction false} CountNone(q: seq<real>, after: real)
    requires forall i :: 0 <= i < |q| ==> q[i] <= after
    ensures Count(q, after) == 0
  {
    if q != [] {
      CountNone(q[..|q| - 1], after);
    }
  }

  /** Trimming removes a prefix that has left the window and stops at the first failure still inside. */
  lemma {:induction false} TrimIsSuffix(q: seq<real>, now: real, window: real)
    ensures var t := Trim(q, now, window);
      && |t| <= |q| && t == q[|q| - |t|..]
      && (forall i :: 0 <= i < |q| - |t| ==> q[i] <= now - window)
      && (t != [] ==> t[0] > now - window)
  {
    if q != [] && q[0] <= now - window {
      TrimIsSuffix(q[1..], now, window);
      var t := Trim(q, now, window);
      forall i | 0 <= i < |q| - |t| ensures q[i] <= now - window {
        if i > 0 {
          assert q[i] == q[1..][i - 1];
        }
      }
    }
  }

  /** What a call leaves of one key's list; `own` is whether the call is about that key. */
  function Pruned(q: seq<real>, own: bool, now: real, window: real): seq<real> {
    var kept := if q != [] && q[|q| - 1] <= now - window then [] else q;
    if own then Trim(kept, now, window) else kept
  }

  lemma RecentAt(f: Failures, key: string, k: string, now: real, window: real)
    ensures Stored(Recent(f, key, now, window), k) == Pruned(Stored(f, k), k == key, now, window)
    ensures key in Recent(f, key, now, window)
  {
  }

  /** Pruning at a later time keeps the cover. */
  lemma PrunedCovers(q: seq<real>, own: bool, log: seq<real>, now: real, window: real)
    requires Covers(q, log, now, window) && Nondecreasing(log)
    ensures Covers(Pruned(q, own, now, window), log, now, window)
  {
    hide Trim;
    var kept := Pruned(q, false, now, window);
    if kept != q {
      assert kept == [] && q[|q| - 1] == log[|log| - 1];
    }
    TrimIsSuffix(kept, now, window);
    var t := Trim(kept, now, window);
    forall i | 0 <= i < |log| - |t| ensures log[i] <= now - window {
      if i >= |log| - |kept| {
        assert log[i] == kept[i - (|log| - |kept|)];
      }
    }
  }

  ghost predicate Tracks(q: seq<real>, log: seq<real>, now: real, window: real) {
    Covers(q, log, now, window) && Nondecreasing(log) && forall i :: 0 <= i < |log| ==> log[i] <= now
  }

  lemma CoverGrows(q: seq<real>, log: seq<real>, at: real, window: real)
    requires Covers(q, log, at, window)
    ensures Covers(q + [at], log + [at], at, window)
  {
    var n := |log| - |q|;
    assert (log + [at])[n..] == log[n..] + [at];
  }

  /** What a call leaves of the list of `key`. */
  function Kept(q: seq<real>, c: Call, key: string, window: real): seq<real> {
    match c
    case Check(k, at) => Pruned(q, k == key, at, window)
    case Fail(k, at) => if k == key then Pruned(q, true, at, window) + [at] else Pruned(q, false, at, window)
    case Clear(k, _) => if k == key then [] else q
  }

  lemma ApplyAt(f: Failures, window: real, c: Call, key: string)
    ensures Stored(Apply(f, window, c), key) == Kept(Stored(f, key), c, key, window)
  {
    if !c.Clear? {
      RecentAt(f, c.key, key, c.at, window);
      RecentAt(f, c.key, c.key, c.at, window);
    }
    hide Recent, Pruned;
  }

  /** A failure at the present time keeps the log in order. */
  lemma TracksFailure(q: seq<real>, log: seq<real>, at: real, window: real)
    requires Tracks(q, log, at, window)
    ensures Tracks(q + [at], log + [at], at, window)
  {
    CoverGrows(q, log, at, window);
    hide Covers;
  }

  lemma TracksPruned(q: seq<real>, own: bool, log: seq<real>, at: real, window: real)
    requires Tracks(q, log, at, window)
    ensures Tracks(Pruned(q, own, at, window), log, at, window)
  {
    hide Pruned, Covers, Nondecreasing;
    PrunedCovers(q, own, log, at, window);
  }

  lemma TracksNothing(at: real, window: real)
    ensures Tracks([], [], at, window)
  {
  }

  lemma TracksStep(q: seq<real>, log: seq<real>, c: Call, key: string, window: real)
    requires Tracks(q, log, c.at, window)
    ensures Tracks(Kept(q, c, key, window), Logged(log, c, key), c.at, window)
  {
    hide Tracks, Pruned;
    TracksPruned(q, c.key == key, log, c.at, window);
    TracksNothing(c.at, window);
    if c.Fail? && c.key == key {
      TracksFailure(Pruned(q, true, c.at, window), log, c.at, window);
    }
  }

  lemma TracksLater(q: seq<real>, log: seq<real>, earlier: real, now: real, window: real)
    requires Tracks(q, log, earlier, window) && earlier <= now
    ensures Tracks(q, log, now, window)
  {
  }

  lemma {:induction false} StoredTracksLog(calls: seq<Call>, window: real, key: string, now: real)
    requires InOrder(calls) && (calls != [] ==> calls[|calls| - 1].at <= now)
    ensures Tracks(Stored(ApplyAll(calls, window), key), LogOf(calls, key), now, window)
  {
    hide Apply, Kept, Logged;
    if calls != [] {
      var init, c := calls[..|calls| - 1], calls[|calls| - 1];
      StoredTracksLog(init, window, key, c.at);
      ApplyAt(ApplyAll(init, window), window, c, key);
      TracksStep(Stored(ApplyAll(init, window), key), LogOf(init, key), c, key, window);
      TracksLater(Stored(ApplyAll(calls, window), key), LogOf(calls, key), c.at, now, window);
    }
  }

  lemma SplitCount(log: seq<real>, q: seq<real>, now: real, window: real)
    requires Covers(q, log, now, window) && Nondecreasing(log) && (q != [] ==> q[0] > now - window)
    ensures Count(log, now - window) == |q|
  {
    hide Count, Nondecreasing;
    var after := now - window;
    var gone := log[..|log| - |q|];
    assert log == gone + q;
    CountConcat(gone, q, after);
    CountNone(gone, after);
    SuffixStaysLate(gone, q, after);
    CountAll(q, after);
  }

  /** In an ordered log whatever follows a late failure is late. */
  lemma SuffixStaysLate(gone: seq<real>, q: seq<real>, after: real)
    requires Nondecreasing(gone + q) && (q != [] ==> q[0] > after)
    ensures forall i :: 0 <= i < |q| ==> q[i] > after
  {
    var log := gone + q;
    forall i | 0 <= i < |q| ensures q[i] > after {
      assert log[|gone|] == q[0] && log[|gone| + i] == q[i];
    }
  }

  /** After trimming exactly the failures inside the window are left. */
  lemma PrunedCount(q: seq<real>, log: seq<real>, now: real, window: real)
    requires Covers(q, log, now, window) && Nondecreasing(log)
    ensures |Pruned(q, true, now, window)| == Count(log, now - window)
  {
    hide Trim, Covers, Count;
    PrunedCovers(q, true, log, now, window);
    TrimIsSuffix(Pruned(q, false, now, window), now, window);
    SplitCount(log, Pruned(q, true, now, window), now, window);
  }

  /** Despite all pruning, after any calls at nondecreasing times a key is blocked exactly when at least
      `max` of its failures since it was last cleared lie within the window. */
  lemma BlockedIsIdeal(calls: seq<Call>, window: real, key: string, now: real)
    requires InOrder(calls) && (calls != [] ==> calls[|calls| - 1].at <= now)
    ensures |Stored(Recent(ApplyAll(calls, window), key, now, window), key)| == Count(LogOf(calls, key), now - window)
  {
    StoredTracksLog(calls, window, key, now);
    RecentAt(ApplyAll(calls, window), key, key, now, window);
    PrunedCount(Stored(ApplyAll(calls, window), key), LogOf(calls, key), now, window);
  }

  // ---------------------------------------------------------------- wrong passwords per window

  datatype LoginTry = LoginTry(ip: string, at: real, correct: bool)

  function AfterTries(tries: seq<LoginTry>, max: nat, window: real): Failures {
    if tries == [] then map[]
    else
      var t := tries[|tries| - 1];
      Attempt(AfterTries(tries[..|tries| - 1], max, window), max, window, t.ip, t.at, t.correct).0
  }

  function ReplyTo(tries: seq<LoginTry>, max: nat, window: real): Reply
    requires tries != []
  {
    var t := tries[|tries| - 1];
    Attempt(AfterTries(tries[..|tries| - 1], max, window), max, window, t.ip, t.at, t.correct).1
  }

  /** The limiter calls login makes. */
  function CallsOf(tries: seq<LoginTry>, max: nat, window: real): seq<Call> {
    if tries == [] then []
    else
      CallsOf(tries[..|tries| - 1], max, window) + CallsFor(tries[|tries| - 1], ReplyTo(tries, max, window))
  }

  function CallsFor(t: LoginTry, reply: Reply): seq<Call> {
    match reply
    case TooMany => [Check(t.ip, t.at)]
    case Wrong => [Check(t.ip, t.at), Fail(t.ip, t.at)]
    case Granted => [Check(t.ip, t.at), Clear(t.ip, t.at)]
  }

  /** Times at which a wrong password of this address was checked, since its last success. */
  function WrongOf(tries: seq<LoginTry>, max: nat, window: real, ip: string): seq<real> {
    if tries == [] then []
    else
      WrongAfter(WrongOf(tries[..|tries| - 1], max, window, ip), tries[|tries| - 1], ReplyTo(tries, max, window), ip)
  }

  function WrongAfter(wrong: seq<real>, t: LoginTry, reply: Reply, ip: string): seq<real> {
    if t.ip != ip then wrong
    else match reply case TooMany => wrong case Wrong => wrong + [t.at] case Granted => []
  }

  ghost predicate TriesInOrder(tries: seq<LoginTry>) {
    forall i, j :: 0 <= i < j < |tries| ==> tries[i].at <= tries[j].at
  }

  lemma ApplyOne(calls: seq<Call>, c: Call, window: real, ip: string)
    ensures ApplyAll(calls + [c], window) == Apply(ApplyAll(calls, window), window, c)
    ensures LogOf(calls + [c], ip)
         == if c.key != ip || c.Check? then LogOf(calls, ip)
            else if c.Fail? then LogOf(calls, ip) + [c.at] else []
  {
    assert (calls + [c])[..|calls|] == calls;
  }

  lemma OrderExtends(calls: seq<Call>, more: seq<Call>, at: real)
    requires InOrder(calls) && (calls != [] ==> calls[|calls| - 1].at <= at)
    requires more != [] && forall c :: c in more ==> c.at == at
    ensures InOrder(calls + more) && LastAt(calls + more, at)
  {
  }

  ghost predicate LastAt(calls: seq<Call>, at: real) {
    calls != [] && calls[|calls| - 1].at == at
  }

  lemma CallsForAt(t: LoginTry, reply: Reply)
    ensures CallsFor(t, reply) != [] && forall c :: c in CallsFor(t, reply) ==> c.at == t.at
  {
  }

  lemma {:induction false} CallsInOrder(tries: seq<LoginTry>, max: nat, window: real)
    requires TriesInOrder(tries)
    ensures InOrder(CallsOf(tries, max, window))
    ensures if tries == [] then CallsOf(tries, max, window) == []
            else LastAt(CallsOf(tries, max, window), tries[|tries| - 1].at)
  {
    hide ReplyTo, CallsFor, InOrder;
    if tries == [] {
      NoCallsInOrder();
    } else {
      var init, t := tries[..|tries| - 1], tries[|tries| - 1];
      CallsInOrder(init, max, window);
      assert init != [] ==> init[|init| - 1].at <= t.at;
      CallsForAt(t, ReplyTo(tries, max, window));
      OrderExtends(CallsOf(init, max, window), CallsFor(t, ReplyTo(tries, max, window)), t.at);
    }
  }

  lemma NoCallsInOrder()
    ensures InOrder([])
  {
  }

  lemma AttemptInCalls(f: Failures, t: LoginTry, max: nat, window: real)
    ensures var checked := Apply(f, window, Check(t.ip, t.at));
      Attempt(f, max, window, t.ip, t.at, t.correct).0
      == match Attempt(f, max, window, t.ip, t.at, t.correct).1
         case TooMany => checked
         case Wrong => Apply(checked, window, Fail(t.ip, t.at))
         case Granted => Apply(checked, window, Clear(t.ip, t.at))
  {
    hide Recent;
  }

  /** What a try does to the table is what its calls do. */
  lemma TryIsCalls(calls: seq<Call>, t: LoginTry, max: nat, window: real)
    ensures var after := Attempt(ApplyAll(calls, window), max, window, t.ip, t.at, t.correct);
      after.0 == ApplyAll(calls + CallsFor(t, after.1), window)
  {
    hide Attempt, Apply, ApplyAll, LogOf, Recent;
    AttemptInCalls(ApplyAll(calls, window), t, max, window);
    var checked := calls + [Check(t.ip, t.at)];
    ApplyOne(calls, Check(t.ip, t.at), window, t.ip);
    ApplyOne(checked, Fail(t.ip, t.at), window, t.ip);
    ApplyOne(checked, Clear(t.ip, t.at), window, t.ip);
    assert checked + [Fail(t.ip, t.at)] == calls + [Check(t.ip, t.at), Fail(t.ip, t.at)];
    assert checked + [Clear(t.ip, t.at)] == calls + [Check(t.ip, t.at), Clear(t.ip, t.at)];
  }

  lemma TryIsLogged(calls: seq<Call>, t: LoginTry, reply: Reply, window: real, ip: string)
    ensures LogOf(calls + CallsFor(t, reply), ip) == WrongAfter(LogOf(calls, ip), t, reply, ip)
  {
    hide Apply, ApplyAll;
    var checked := calls + [Check(t.ip, t.at)];
    ApplyOne(calls, Check(t.ip, t.at), window, ip);
    ApplyOne(checked, Fail(t.ip, t.at), window, ip);
    ApplyOne(checked, Clear(t.ip, t.at), window, ip);
    assert checked + [Fail(t.ip, t.at)] == calls + [Check(t.ip, t.at), Fail(t.ip, t.at)];
    assert checked + [Clear(t.ip, t.at)] == calls + [Check(t.ip, t.at), Clear(t.ip, t.at)];
  }

  /** Logging in is one way of using the limiter. */
  lemma {:induction false} TriesAreCalls(tries: seq<LoginTry>, max: nat, window: real, ip: string)
    ensures AfterTries(tries, max, window) == ApplyAll(CallsOf(tries, max, window), window)
    ensures WrongOf(tries, max, window, ip) == LogOf(CallsOf(tries, max, window), ip)
  {
    hide Attempt, CallsFor, WrongAfter, Apply, Logged;
    if tries != [] {
      var init, t := tries[..|tries| - 1], tries[|tries| - 1];
      var calls := CallsOf(init, max, window);
      TriesAreCalls(init, max, window, ip);
      TryIsCalls(calls, t, max, window);
      TryIsLogged(calls, t, ReplyTo(tries, max, window), window, ip);
    }
  }

  /** Any `max` + 1 consecutive entries span at least the window. */
  ghost predicate Spread(log: seq<real>, max: nat, window: real) {
    forall i :: 0 <= i && i + max < |log| ==> log[i] <= log[i + max] - window
  }

  lemma FewInWindow(log: seq<real>, after: real, max: nat)
    requires Nondecreasing(log) && Count(log, after) < max <= |log|
    ensures log[|log| - max] <= after
  {
    if log[|log| - max] > after {
      LateSuffix(log, after, |log| - max);
    }
  }

  /** From a late failure on all are late. */
  lemma LateSuffix(log: seq<real>, after: real, n: nat)
    requires Nondecreasing(log) && n < |log| && log[n] > after
    ensures Count(log, after) >= |log| - n
  {
    hide Count;
    var tail := log[n..];
    forall i | 0 <= i < |tail| ensures tail[i] > after {
      assert tail[i] == log[n + i];
    }
    CountAll(tail, after);
    CountConcat(log[..n], tail, after);
    assert log == log[..n] + tail;
  }

  /** The reply to a try is exact: refused when and only when `max` wrong passwords of its address since the last
      success lie within the window, and otherwise what the password deserves. */
  lemma ReplyIff(tries: seq<LoginTry>, max: nat, window: real)
    requires TriesInOrder(tries) && tries != []
    ensures var init, t := tries[..|tries| - 1], tries[|tries| - 1];
      && (ReplyTo(tries, max, window) == TooMany <==> Count(WrongOf(init, max, window, t.ip), t.at - window) >= max)
      && (ReplyTo(tries, max, window) != TooMany ==> (ReplyTo(tries, max, window) == Granted <==> t.correct))
  {
    hide Recent, Count, Apply, ApplyAll, WrongOf, LogOf, CallsOf, AfterTries, Pruned, Covers;
    var init, t := tries[..|tries| - 1], tries[|tries| - 1];
    TriesAreCalls(init, max, window, t.ip);
    CallsInOrder(init, max, window);
    assert init != [] ==> init[|init| - 1].at <= t.at;
    BlockedIsIdeal(CallsOf(init, max, window), window, t.ip, t.at);
    RecentAt(AfterTries(init, max, window), t.ip, t.ip, t.at, window);
  }

  /** A wrong password is only checked while fewer than `max` failures lie in the window. */
  lemma WrongMeansRoom(tries: seq<LoginTry>, max: nat, window: real)
    requires TriesInOrder(tries) && tries != [] && ReplyTo(tries, max, window) == Wrong
    ensures var init, t := tries[..|tries| - 1], tries[|tries| - 1];
      var log := WrongOf(init, max, window, t.ip);
      Count(log, t.at - window) < max && Nondecreasing(log) && forall i :: 0 <= i < |log| ==> log[i] <= t.at
  {
    hide Recent, Count, Apply, ApplyAll, WrongOf, LogOf, CallsOf, AfterTries, Pruned, Covers;
    var init, t := tries[..|tries| - 1], tries[|tries| - 1];
    var calls := CallsOf(init, max, window);
    TriesAreCalls(init, max, window, t.ip);
    CallsInOrder(init, max, window);
    assert init != [] ==> init[|init| - 1].at <= t.at;
    BlockedIsIdeal(calls, window, t.ip, t.at);
    StoredTracksLog(calls, window, t.ip, t.at);
    RecentAt(ApplyAll(calls, window), t.ip, t.ip, t.at, window);
  }

  /** Through login: between successes of an address, any `max` + 1 wrong passwords that were checked are at
      least the window apart. */
  lemma {:induction false} WrongPasswordsSpread(tries: seq<LoginTry>, max: nat, window: real, ip: string)
    requires TriesInOrder(tries)
    ensures Spread(WrongOf(tries, max, window, ip), max, window) && Nondecreasing(WrongOf(tries, max, window, ip))
  {
    hide ReplyTo, Count;
    if tries != [] {
      var init, t := tries[..|tries| - 1], tries[|tries| - 1];
      WrongPasswordsSpread(init, max, window, ip);
      if t.ip == ip && ReplyTo(tries, max, window) == Wrong {
        var log := WrongOf(init, max, window, ip);
        WrongMeansRoom(tries, max, window);
        if max <= |log| {
          FewInWindow(log, t.at - window, max);
        }
        SpreadMore(log, t.at, max, window);
      }
    }
  }

  lemma SpreadMore(log: seq<real>, at: real, max: nat, window: real)
    requires Spread(log, max, window) && Nondecreasing(log)
    requires forall i :: 0 <= i < |log| ==> log[i] <= at
    requires max > 0 && (max <= |log| ==> log[|log| - max] <= at - window)
    ensures Spread(log + [at], max, window) && Nondecreasing(log + [at])
  {
  }

  /** The number of entries in the half-open stretch (from, to]. */
  function CountBetween(q: seq<real>, from: real, to: real): nat {
    if q == [] then 0
    else CountBetween(q[..|q| - 1], from, to) + if from < q[|q| - 1] <= to then 1 else 0
  }

  lemma {:induction false} CountBetweenTail(q: seq<real>, from: real, to: real, max: nat)
    requires Nondecreasing(q) && (max < |q| ==> q[|q| - 1 - max] <= from)
    ensures CountBetween(q, from, to) <= max
    decreases |q| + max
  {
    if q != [] {
      if max == 0 {
        CountBetweenTail(q[..|q| - 1], from, to, 0);
      } else {
        CountBetweenTail(q[..|q| - 1], from, to, max - 1);
      }
    }
  }

  lemma {:induction false} SpreadMeansFew(q: seq<real>, max: nat, window: real, from: real)
    requires Spread(q, max, window) && Nondecreasing(q)
    ensures CountBetween(q, from, from + window) <= max
  {
    if q != [] {
      var init, last := q[..|q| - 1], q[|q| - 1];
      if from < last <= from + window {
        CountBetweenTail(q, from, from + window, max);
      } else {
        SpreadMeansFew(init, max, window, from);
      }
    }
  }

  /** At most `max` wrong passwords per address are checked in any window between successes. */
  lemma FewWrongPasswords(tries: seq<LoginTry>, max: nat, window: real, ip: string, from: real)
    requires TriesInOrder(tries)
    ensures CountBetween(WrongOf(tries, max, window, ip), from, from + window) <= max
  {
    WrongPasswordsSpread(tries, max, window, ip);
    SpreadMeansFew(WrongOf(tries, max, window, ip), max, window, from);
  }

  // ---------------------------------------------------------------- nothing stale stays

  /** Every stored list is non-empty and its last failure lies within the window. */
  ghost predicate Tidy(f: Failures, now: real, window: real) {
    forall k :: k in f ==> f[k] != [] && f[k][|f[k]| - 1] > now - window
  }

  lemma PrunedIsTidy(q: seq<real>, own: bool, now: real, window: real)
    ensures var p := Pruned(q, own, now, window); p != [] ==> p[|p| - 1] > now - window
  {
    var kept := Pruned(q, false, now, window);
    TrimIsSuffix(kept, now, window);
    hide Trim;
  }

  lemma RecentKeys(f: Failures, key: string, now: real, window: real)
    requires forall k :: k in f ==> f[k] != []
    ensures forall k :: k in Recent(f, key, now, window) && k != key ==>
      Recent(f, key, now, window)[k] != []
        && Recent(f, key, now, window)[k][|Recent(f, key, now, window)[k]| - 1] > now - window
  {
  }

  /** With a positive limit and window no login attempt leaves an empty or outdated entry behind. */
  lemma AttemptIsTidy(f: Failures, max: nat, window: real, ip: string, now: real, correct: bool)
    requires max >= 1 && window > 0.0
    requires forall k :: k in f ==> f[k] != []
    ensures Tidy(Attempt(f, max, window, ip, now, correct).0, now, window)
  {
    var r := Recent(f, ip, now, window);
    RecentKeys(f, ip, now, window);
    RecentAt(f, ip, ip, now, window);
    PrunedIsTidy(Stored(f, ip), true, now, window);
    if |r[ip]| < max && !correct {
      RecentTwice(r, ip, now, window);
    }
    hide Recent, Pruned;
  }

  /** Asking again at the same moment changes no other key. */
  lemma RecentTwice(r: Failures, ip: string, now: real, window: real)
    requires forall k :: k in r && k != ip ==> r[k] != [] && r[k][|r[k]| - 1] > now - window
    ensures var again := Recent(r, ip, now, window);
      ip in again && forall k :: k in again && k != ip ==> k in r && again[k] == r[k]
  {
  }

  lemma {:induction false} TriesAreTidy(tries: seq<LoginTry>, max: nat, window: real)
    requires max >= 1 && window > 0.0 && tries != []
    ensures Tidy(AfterTries(tries, max, window), tries[|tries| - 1].at, window)
  {
    hide Attempt;
    var init, t := tries[..|tries| - 1], tries[|tries| - 1];
    if init != [] {
      TriesAreTidy(init, max, window);
    }
    AttemptIsTidy(AfterTries(init, max, window), max, window, t.ip, t.at, t.correct);
  }

  lemma FirstWrongTry(max: nat, window: real, ip: string, now: real)
    ensures Attempt(map[], max, window, ip, now, false).0 == if max == 0 then map[ip := []] else map[ip := [now]]
  {
    assert DropStale(map[], now, window) == map[];
    assert Recent(map[], ip, now, window) == map[ip := []];
    assert DropStale(map[ip := []], now, window) == map[ip := []];
    assert Recent(map[ip := []], ip, now, window) == map[ip := []];
    var none: seq<real> := [];
    assert none + [now] == [now];
    assert map[ip := []][ip := [now]] == map[ip := [now]];
    hide Recent;
  }

  /** Both conditions are needed: one wrong password on a fresh limiter already shows it. */
  lemma TidyNeedsLimitAndWindow(max: nat, window: real, ip: string, now: real)
    ensures Tidy(AfterTries([LoginTry(ip, now, false)], max, window), now, window) <==> max >= 1 && window > 0.0
  {
    var tries := [LoginTry(ip, now, false)];
    assert tries[..|tries| - 1] == [];
    FirstWrongTry(max, window, ip, now);
    hide Attempt;
    var f := AfterTries(tries, max, window);
    assert ip in f;
  }
}
