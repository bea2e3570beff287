/** Round robin over proxies with a cooldown, and a request sent through it (bank_api_parser/proxy.py). */
module Rotator {

  /** Seconds a failed proxy is skipped, and proxies tried per request. */
  const COOLDOWN := 300.0
  const MAX_ATTEMPTS: nat := 3

  type FailedAt = map<string, real>

  /** A proxy that never failed counts as failed at `-cooldown`. */
  predicate Alive(url: string, failedAt: FailedAt, cooldown: real, now: real) {
    now - (if url in failedAt then failedAt[url] else -cooldown) >= cooldown
  }

  function AliveOf(urls: seq<string>, failedAt: FailedAt, cooldown: real, now: real): seq<string> {
    if urls == [] then []
    else
      var rest, last := AliveOf(urls[..|urls| - 1], failedAt, cooldown, now), urls[|urls| - 1];
      if Alive(last, failedAt, cooldown, now) then rest + [last] else rest
  }

  function Rotated(urls: seq<string>, start: nat): seq<string> {
    if start <= |urls| then urls[start..] + urls[..start] else urls
  }

  function Take(s: seq<string>, n: nat): seq<string> {
    if |s| <= n then s else s[..n]
  }

  /** The first `attempts` alive proxies in cyclic order from `start`. */
  function CandidatesAt(
    urls: seq<string>, start: nat, failedAt: FailedAt, cooldown: real, attempts: nat, now: real): seq<string>
  {
    Take(AliveOf(Rotated(urls, start), failedAt, cooldown, now), attempts)
  }

  function NextStart(urls: seq<string>, start: nat): nat {
    if urls == [] then start else (start + 1) % |urls|
  }

  // ---------------------------------------------------------------- sending

  /** How one attempt ends: a response, a connection error or timeout, or any other exception. */
  datatype Attempt = Answered | Unreachable | Raised

  /** How an attempt ends and what the clock reads then. */
  datatype Reply = Reply(attempt: Attempt, at: real)

  datatype Via = Proxy(url: string) | Direct

  predicate Failing(r: Reply) {
    r.attempt == Unreachable
  }

  /** The first of `n` attempts that does not fail to connect, or `n`. */
  function FirstWorking(replies: seq<Reply>, n: nat): (k: nat)
    requires n <= |replies|
    ensures k <= n
  {
    if n == 0 then 0
    else
      var k := FirstWorking(replies, n - 1);
      if k == n - 1 && Failing(replies[n - 1]) then n else k
  }

  function ViaProxies(list: seq<string>): seq<Via> {
    if list == [] then [] else ViaProxies(list[..|list| - 1]) + [Proxy(list[|list| - 1])]
  }

  /** The candidates in turn up to the first that connects; directly when none does. */
  function SendsOver(list: seq<string>, replies: seq<Reply>): seq<Via>
    requires |list| <= |replies|
  {
    var k := FirstWorking(replies, |list|);
    if k == |list| then ViaProxies(list) + [Direct] else ViaProxies(list[..k + 1])
  }

  /** Every proxy of `list` reported at the time its own attempt failed. */
  function ReportAll(failedAt: FailedAt, list: seq<string>, replies: seq<Reply>): FailedAt
    requires |list| <= |replies|
  {
    if list == [] then failedAt
    else
      var n := |list| - 1;
      ReportAll(failedAt, list[..n], replies)[list[n] := replies[n].at]
  }

  function ReportsOver(failedAt: FailedAt, list: seq<string>, replies: seq<Reply>): FailedAt
    requires |list| <= |replies|
  {
    ReportAll(failedAt, list[..FirstWorking(replies, |list|)], replies)
  }

  lemma {:induction false} FirstWorkingMeaning(replies: seq<Reply>, n: nat)
    requires n <= |replies|
    ensures var k := FirstWorking(replies, n);
      k <= n && (forall i :: 0 <= i < k ==> Failing(replies[i])) && (k < n ==> !Failing(replies[k]))
  {
    if n > 0 {
      FirstWorkingMeaning(replies, n - 1);
    }
  }

  class ProxyRotator {
    const urls: seq<string>
    const cooldown: real
    const maxAttempts: nat
    var next: nat
    var failedAt: FailedAt

    ghost predicate Valid()
      reads this
    {
      next == 0 || next < |urls|
    }

    constructor (urls: seq<string>, cooldown: real := COOLDOWN, maxAttempts: nat := MAX_ATTEMPTS)
      ensures Valid() && this.urls == urls && this.cooldown == cooldown && this.maxAttempts == maxAttempts
      ensures next == 0 && failedAt == map[]
    {
      this.urls, this.cooldown, this.maxAttempts := urls, cooldown, maxAttempts;
      next, failedAt := 0, map[];
    }

    /** `now` is the clock's reading. */
    method Candidates(now: real) returns (list: seq<string>)
      requires Valid()
      modifies this`next
      ensures Valid()
      ensures next == NextStart(urls, old(next))
      ensures list == CandidatesAt(urls, old(next), failedAt, cooldown, maxAttempts, now)
    {
      if urls == [] {
        assert Rotated(urls, next) == [];
        return [];
      }
      var start := next;
      next := (next + 1) % |urls|;
      var ordered := urls[start..] + urls[..start];
      var alive: seq<string> := [];
      for n := 0 to |ordered|
        invariant alive == AliveOf(ordered[..n], failedAt, cooldown, now)
      {
        assert ordered[..n + 1][..n] == ordered[..n];
        if Alive(ordered[n], failedAt, cooldown, now) {
          alive := alive + [ordered[n]];
        }
      }
      assert ordered[..|ordered|] == ordered;
      list := if |alive| <= maxAttempts then alive else alive[..maxAttempts];
    }

    method ReportFailure(url: string, now: real)
      modifies this`failedAt
      ensures failedAt == old(failedAt)[url := now]
    {
      failedAt := failedAt[url := now];
    }

    /** One request at `now`; `replies` says how each attempt through a proxy ends, and when. */
    method Send(now: real, replies: seq<Reply>) returns (sends: seq<Via>)
      requires Valid() && |replies| >= maxAttempts
      modifies this
      ensures Valid() && next == NextStart(urls, old(next))
      ensures var list := CandidatesAt(urls, old(next), old(failedAt), cooldown, maxAttempts, now);
        sends == SendsOver(list, replies) && failedAt == ReportsOver(old(failedAt), list, replies)
    {
      var list := Candidates(now);
      sends := [];
      assert list[..0] == [];
      for n := 0 to |list|
        invariant FirstWorking(replies, n) == n
        invariant sends == ViaProxies(list[..n])
        invariant failedAt == ReportAll(old(failedAt), list[..n], replies)
        invariant next == NextStart(urls, old(next)) && Valid()
      {
        assert list[..n + 1][..n] == list[..n];
        sends := sends + [Proxy(list[n])];
        if !Failing(replies[n]) {
          StaysFirst(replies, n, |list|);
          return sends;
        }
        ReportFailure(list[n], replies[n].at);
      }
      assert list[..|list|] == list;
      sends := sends + [Direct];
    }
  }

  lemma {:induction false} StaysFirst(replies: seq<Reply>, k: nat, n: nat)
    requires k < n <= |replies| && FirstWorking(replies, k) == k && !Failing(replies[k])
    ensures FirstWorking(replies, n) == k
  {
    if k + 1 < n {
      StaysFirst(replies, k, n - 1);
    }
  }

  // ---------------------------------------------------------------- what a send tells

  lemma {:induction false} ViaMeaning(list: seq<string>)
    ensures |ViaProxies(list)| == |list| && Direct !in ViaProxies(list)
    ensures forall i :: 0 <= i < |list| ==> ViaProxies(list)[i] == Proxy(list[i])
  {
    if list != [] {
      ViaMeaning(list[..|list| - 1]);
    }
  }

  /** `url` was last reported for one of its own attempts. */
  ghost predicate ReportedFor(after: FailedAt, list: seq<string>, replies: seq<Reply>, url: string)
    requires |list| <= |replies|
  {
    url in after && exists i :: 0 <= i < |list| && list[i] == url && after[url] == replies[i].at
  }

  lemma {:induction false} Reported(failedAt: FailedAt, list: seq<string>, replies: seq<Reply>, url: string)
    requires |list| <= |replies|
    ensures var after := ReportAll(failedAt, list, replies);
      if url in list then ReportedFor(after, list, replies, url)
      else (url in after <==> url in failedAt) && (url in after ==> after[url] == failedAt[url])
  {
    if list != [] {
      var init, last := list[..|list| - 1], list[|list| - 1];
      Reported(failedAt, init, replies, url);
      assert list == init + [last];
      if url == last {
        assert list[|list| - 1] == url;
      } else if url in list {
        var i :| 0 <= i < |init| && init[i] == url && ReportAll(failedAt, init, replies)[url] == replies[i].at;
        assert list[i] == url;
      }
    }
  }

  /** A request goes out at most `attempts` + 1 times, through its candidates in turn; directly only after every
      candidate failed to connect and was reported, and never again after one that did connect. */
  lemma SendFacts(
    urls: seq<string>, start: nat, failedAt: FailedAt, cooldown: real, attempts: nat, now: real, replies: seq<Reply>)
    requires attempts <= |replies|
    ensures var list := CandidatesAt(urls, start, failedAt, cooldown, attempts, now);
      var sends, after := SendsOver(list, replies), ReportsOver(failedAt, list, replies);
      && 0 < |sends| <= attempts + 1
      && (forall i :: 0 <= i < |sends| - 1 ==> i < |list| && sends[i] == Proxy(list[i]) && Failing(replies[i]))
      && (if sends[|sends| - 1] == Direct then
            |sends| == |list| + 1 && forall url :: url in list ==> ReportedFor(after, list, replies, url)
          else
            |sends| <= |list| && sends[|sends| - 1] == Proxy(list[|sends| - 1]) && !Failing(replies[|sends| - 1]))
  {
    hide AliveOf, Rotated, ReportAll, ReportedFor, FirstWorking;
    var list := CandidatesAt(urls, start, failedAt, cooldown, attempts, now);
    var k := FirstWorking(replies, |list|);
    FirstWorkingMeaning(replies, |list|);
    if k == |list| {
      ViaMeaning(list);
      assert list[..k] == list;
      forall url | url in list ensures ReportedFor(ReportsOver(failedAt, list, replies), list, replies, url) {
        Reported(failedAt, list, replies, url);
      }
    } else {
      ViaMeaning(list[..k + 1]);
    }
  }

  // ---------------------------------------------------------------- runs of requests and reports

  datatype Event = Request(at: real) | Report(url: string, at: real)

  function StartAfter(urls: seq<string>, start: nat, events: seq<Event>): nat {
    if events == [] then start
    else
      var before := StartAfter(urls, start, events[..|events| - 1]);
      if events[|events| - 1].Request? then NextStart(urls, before) else before
  }

  function FailedAfter(failedAt: FailedAt, events: seq<Event>): FailedAt {
    if events == [] then failedAt
    else
      var before, e := FailedAfter(failedAt, events[..|events| - 1]), events[|events| - 1];
      if e.Report? then before[e.url := e.at] else before
  }

  function Requests(events: seq<Event>): nat {
    if events == [] then 0
    else Requests(events[..|events| - 1]) + if events[|events| - 1].Request? then 1 else 0
  }

  /** The candidates handed out at event `j`. */
  function ListAt(
    urls: seq<string>, start: nat, failedAt: FailedAt, cooldown: real, attempts: nat, events: seq<Event>,
    j: nat): seq<string>
    requires j < |events|
  {
    CandidatesAt(urls, StartAfter(urls, start, events[..j]), FailedAfter(failedAt, events[..j]), cooldown, attempts,
                 events[j].at)
  }

  ghost predicate InOrder(events: seq<Event>) {
    forall i, j :: 0 <= i < j < |events| ==> events[i].at <= events[j].at
  }

  // ---------------------------------------------------------------- which proxies are handed out

  ghost predicate Distinct(urls: seq<string>) {
    forall i, j :: 0 <= i < j < |urls| ==> urls[i] != urls[j]
  }

  lemma {:induction false} AliveMembers(urls: seq<string>, failedAt: FailedAt, cooldown: real, now: real)
    ensures forall u :: u in AliveOf(urls, failedAt, cooldown, now) <==> u in urls && Alive(u, failedAt, cooldown, now)
  {
    if urls != [] {
      var init := urls[..|urls| - 1];
      AliveMembers(init, failedAt, cooldown, now);
      assert urls == init + [urls[|urls| - 1]];
    }
  }

  lemma {:induction false} AliveConcat(a: seq<string>, b: seq<string>, failedAt: FailedAt, cooldown: real, now: real)
    ensures AliveOf(a + b, failedAt, cooldown, now)
         == AliveOf(a, failedAt, cooldown, now) + AliveOf(b, failedAt, cooldown, now)
  {
    hide Alive;
    if b == [] {
      assert a + b == a;
    } else {
      AliveConcat(a, b[..|b| - 1], failedAt, cooldown, now);
      assert (a + b)[..|a + b| - 1] == a + b[..|b| - 1];
    }
  }

  lemma AliveOne(u: string, failedAt: FailedAt, cooldown: real, now: real)
    ensures AliveOf([u], failedAt, cooldown, now) == if Alive(u, failedAt, cooldown, now) then [u] else []
  {
    assert [u][..0] == [];
  }

  /** With distinct proxies, the one at cyclic position `p` is handed out exactly when it is alive and fewer
      than `attempts` alive proxies stand before it. */
  lemma FirstAliveInCyclicOrder(
    urls: seq<string>, start: nat, failedAt: FailedAt, cooldown: real, attempts: nat, now: real, p: nat)
    requires start <= |urls| && Distinct(Rotated(urls, start)) && p < |urls|
    ensures var order := Rotated(urls, start);
      order[p] in CandidatesAt(urls, start, failedAt, cooldown, attempts, now)
      <==> Alive(order[p], failedAt, cooldown, now) && |AliveOf(order[..p], failedAt, cooldown, now)| < attempts
  {
    hide Alive;
    var order := Rotated(urls, start);
    var u, before, after := order[p], order[..p], order[p + 1..];
    var a, z := AliveOf(before, failedAt, cooldown, now), AliveOf(after, failedAt, cooldown, now);
    assert order == before + [u] + after;
    AliveConcat(before + [u], after, failedAt, cooldown, now);
    AliveConcat(before, [u], failedAt, cooldown, now);
    AliveOne(u, failedAt, cooldown, now);
    AliveMembers(before, failedAt, cooldown, now);
    AliveMembers(after, failedAt, cooldown, now);
    assert u !in before && u !in after;
    TakeMember(a, u, z, Alive(u, failedAt, cooldown, now), attempts);
  }

  lemma TakeMember(a: seq<string>, u: string, z: seq<string>, alive: bool, n: nat)
    requires u !in a && u !in z
    ensures u in Take(a + (if alive then [u] else []) + z, n) <==> alive && |a| < n
  {
    var all := a + (if alive then [u] else []) + z;
    if alive && |a| < n {
      assert Take(all, n)[|a|] == u;
    }
    if u in Take(all, n) {
      var i :| 0 <= i < |Take(all, n)| && Take(all, n)[i] == u;
      assert all[i] == u;
    }
  }

  /** `part` lists some of `whole`, in its order. */
  ghost predicate InOrderOf(part: seq<string>, whole: seq<string>) {
    forall a, b :: 0 <= a < b < |part| ==> Before(whole, part[a], part[b])
  }

  ghost predicate Before(whole: seq<string>, x: string, y: string) {
    exists p, q :: 0 <= p < q < |whole| && whole[p] == x && whole[q] == y
  }

  lemma BeforeGrows(whole: seq<string>, last: string, x: string, y: string)
    ensures Before(whole, x, y) ==> Before(whole + [last], x, y)
    ensures x in whole ==> Before(whole + [last], x, last)
  {
    var all := whole + [last];
    if Before(whole, x, y) {
      var p, q :| 0 <= p < q < |whole| && whole[p] == x && whole[q] == y;
      assert all[p] == x && all[q] == y;
    }
    if x in whole {
      var p :| 0 <= p < |whole| && whole[p] == x;
      assert all[p] == x && all[|whole|] == last;
    }
  }

  lemma {:induction false} AliveInOrder(urls: seq<string>, failedAt: FailedAt, cooldown: real, now: real)
    ensures InOrderOf(AliveOf(urls, failedAt, cooldown, now), urls)
  {
    hide Alive, Before;
    if urls != [] {
      var init, last := urls[..|urls| - 1], urls[|urls| - 1];
      AliveInOrder(init, failedAt, cooldown, now);
      AliveMembers(init, failedAt, cooldown, now);
      assert urls == init + [last];
      var rest := AliveOf(init, failedAt, cooldown, now);
      forall x, y ensures Before(init, x, y) ==> Before(urls, x, y) {
        BeforeGrows(init, last, x, y);
      }
      forall a | 0 <= a < |rest| ensures Before(urls, rest[a], last) {
        assert rest[a] in rest;
        BeforeGrows(init, last, rest[a], last);
      }
    }
  }

  /** The candidates stand in cyclic order. */
  lemma CandidatesInOrder(
    urls: seq<string>, start: nat, failedAt: FailedAt, cooldown: real, attempts: nat, now: real)
    ensures InOrderOf(CandidatesAt(urls, start, failedAt, cooldown, attempts, now), Rotated(urls, start))
  {
    hide Before, Rotated, AliveOf;
    AliveInOrder(Rotated(urls, start), failedAt, cooldown, now);
  }

  lemma RotatedSplit(urls: seq<string>, start: nat, p: nat)
    requires start < |urls| && p < |urls|
    ensures |Rotated(urls, start)| == |urls|
    ensures Rotated(urls, start)[p] == urls[if start + p < |urls| then start + p else start + p - |urls|]
  {
  }

  lemma WrapsOnce(x: nat, n: nat)
    requires 0 < n && x < 2 * n
    ensures x % n == if x < n then x else x - n
  {
  }

  /** Position `p` of the cyclic order is the proxy `p` places after the start. */
  lemma RotatedAt(urls: seq<string>, start: nat, p: nat)
    requires start < |urls| && p < |urls|
    ensures |Rotated(urls, start)| == |urls|
    ensures Rotated(urls, start)[p] == urls[(start + p) % |urls|]
  {
    hide Rotated;
    RotatedSplit(urls, start, p);
    WrapsOnce(start + p, |urls|);
  }

  /** The proxy whose turn it is comes first if it is alive. */
  lemma TurnLeads(urls: seq<string>, start: nat, failedAt: FailedAt, cooldown: real, attempts: nat, now: real)
    requires start < |urls| && attempts >= 1 && Alive(urls[start], failedAt, cooldown, now)
    ensures var list := CandidatesAt(urls, start, failedAt, cooldown, attempts, now);
      list != [] && list[0] == urls[start]
  {
    hide Alive;
    var order := Rotated(urls, start);
    assert order == [urls[start]] + order[1..];
    AliveConcat([urls[start]], order[1..], failedAt, cooldown, now);
    AliveOne(urls[start], failedAt, cooldown, now);
  }

  lemma OneFurther(start: nat, n: nat)
    requires start < n
    ensures (start + 1) % n == if start + 1 == n then 0 else start + 1
  {
  }

  /** Within one round the starting point moves one place per request. */
  lemma {:induction false} StartCounts(urls: seq<string>, start: nat, events: seq<Event>)
    requires start < |urls| && Requests(events) <= |urls|
    ensures var x := start + Requests(events); StartAfter(urls, start, events) == if x < |urls| then x else x - |urls|
  {
    if events != [] {
      var init := events[..|events| - 1];
      StartCounts(urls, start, init);
      OneFurther(StartAfter(urls, start, init), |urls|);
    }
  }

  lemma {:induction false} KthRequest(events: seq<Event>, k: nat)
    requires k < Requests(events)
    ensures exists j :: 0 <= j < |events| && events[j].Request? && Requests(events[..j]) == k
  {
    var n := |events| - 1;
    if k < Requests(events[..n]) {
      KthRequest(events[..n], k);
      var j :| 0 <= j < n && events[..n][j].Request? && Requests(events[..n][..j]) == k;
      assert events[..n][..j] == events[..j];
      assert events[j].Request?;
    } else {
      assert events[n].Request?;
    }
  }

  /** After as many requests as `i` lies ahead it is the turn of `i`. */
  lemma TurnComes(urls: seq<string>, start: nat, events: seq<Event>, i: nat)
    requires start < |urls| && i < |urls|
    requires Requests(events) == if start <= i then i - start else i - start + |urls|
    ensures StartAfter(urls, start, events) == i
  {
    StartCounts(urls, start, events);
  }

  ghost predicate Leads(
    urls: seq<string>, start: nat, failedAt: FailedAt, cooldown: real, attempts: nat, events: seq<Event>, j: nat,
    url: string)
    requires j < |events|
  {
    && events[j].Request?
    && var list := ListAt(urls, start, failedAt, cooldown, attempts, events, j);
       list != [] && list[0] == url
  }

  /** In any stretch with as many requests as there are proxies, every proxy that is alive at each of them
      heads the list of at least one, wherever the stretch starts and whatever is reported meanwhile. */
  lemma EveryProxyLeads(
    urls: seq<string>, start: nat, failedAt: FailedAt, cooldown: real, attempts: nat, events: seq<Event>, i: nat)
    requires start < |urls| && i < |urls| && attempts >= 1 && Requests(events) >= |urls|
    requires forall j :: 0 <= j < |events| && events[j].Request? ==>
      Alive(urls[i], FailedAfter(failedAt, events[..j]), cooldown, events[j].at)
    ensures exists j :: 0 <= j < |events| && Leads(urls, start, failedAt, cooldown, attempts, events, j, urls[i])
  {
    hide Alive, CandidatesAt, Requests, StartAfter, FailedAfter;
    var k := if start <= i then i - start else i - start + |urls|;
    KthRequest(events, k);
    var j :| 0 <= j < |events| && events[j].Request? && Requests(events[..j]) == k;
    TurnComes(urls, start, events[..j], i);
    TurnLeads(urls, i, FailedAfter(failedAt, events[..j]), cooldown, attempts, events[j].at);
    assert Leads(urls, start, failedAt, cooldown, attempts, events, j, urls[i]);
  }

  /** After a report the recorded failure time never falls back. */
  lemma {:induction false} ReportRemembered(failedAt: FailedAt, events: seq<Event>, i: nat)
    requires InOrder(events) && i < |events| && events[i].Report?
    ensures var after := FailedAfter(failedAt, events); events[i].url in after && after[events[i].url] >= events[i].at
  {
    var n := |events| - 1;
    if i < n {
      var init := events[..n];
      assert init[i] == events[i];
      ReportRemembered(failedAt, init, i);
    }
  }

  /** A proxy reported at some time is not handed out again before the cooldown has passed. */
  lemma CooldownRespected(
    urls: seq<string>, start: nat, failedAt: FailedAt, cooldown: real, attempts: nat, events: seq<Event>, i: nat,
    j: nat)
    requires InOrder(events) && i < j < |events| && events[i].Report? && events[j].Request?
    requires events[i].url in ListAt(urls, start, failedAt, cooldown, attempts, events, j)
    ensures events[j].at >= events[i].at + cooldown
  {
    var url, before := events[i].url, events[..j];
    assert before[i] == events[i];
    ReportRemembered(failedAt, before, i);
    var order := Rotated(urls, StartAfter(urls, start, before));
    AliveMembers(order, FailedAfter(failedAt, before), cooldown, events[j].at);
    var alive := AliveOf(order, FailedAfter(failedAt, before), cooldown, events[j].at);
    assert url in alive;
  }

  /** A proxy that never failed is alive from clock reading 0 on. */
  lemma FreshProxyIsAlive(url: string, failedAt: FailedAt, cooldown: real, now: real)
    requires url !in failedAt
    ensures Alive(url, failedAt, cooldown, now) <==> now >= 0.0
  {
  }

  lemma {:induction false} NeverReported(failedAt: FailedAt, events: seq<Event>, url: string)
    requires url !in failedAt && forall e :: e in events && e.Report? ==> e.url != url
    ensures url !in FailedAfter(failedAt, events)
  {
    if events != [] {
      NeverReported(failedAt, events[..|events| - 1], url);
    }
  }

  /** With clock readings from 0 on, a proxy that is never reported heads a list in every such stretch. */
  lemma UnreportedProxyLeads(
    urls: seq<string>, start: nat, failedAt: FailedAt, cooldown: real, attempts: nat, events: seq<Event>, i: nat)
    requires start < |urls| && i < |urls| && attempts >= 1 && Requests(events) >= |urls|
    requires urls[i] !in failedAt
    requires forall e :: e in events ==> if e.Report? then e.url != urls[i] else e.at >= 0.0
    ensures exists j :: 0 <= j < |events| && Leads(urls, start, failedAt, cooldown, attempts, events, j, urls[i])
  {
    hide Alive, Leads, FailedAfter, Requests;
    forall j | 0 <= j < |events| && events[j].Request?
      ensures Alive(urls[i], FailedAfter(failedAt, events[..j]), cooldown, events[j].at)
    {
      assert events[j] in events;
      forall e | e in events[..j] && e.Report? ensures e.url != urls[i] {
        assert e in events;
      }
      NeverReported(failedAt, events[..j], urls[i]);
      FreshProxyIsAlive(urls[i], FailedAfter(failedAt, events[..j]), cooldown, events[j].at);
    }
    EveryProxyLeads(urls, start, failedAt, cooldown, attempts, events, i);
  }

  /** After a last report at some time a proxy is alive again exactly from the end of the cooldown on. */
  lemma {:induction false} AliveAgainIff(failedAt: FailedAt, events: seq<Event>, i: nat, cooldown: real, now: real)
    requires i < |events| && events[i].Report?
    requires forall j :: i < j < |events| && events[j].Report? ==> events[j].url != events[i].url
    ensures Alive(events[i].url, FailedAfter(failedAt, events), cooldown, now) <==> now >= events[i].at + cooldown
  {
    LastReport(failedAt, events, i);
  }

  lemma {:induction false} LastReport(failedAt: FailedAt, events: seq<Event>, i: nat)
    requires i < |events| && events[i].Report?
    requires forall j :: i < j < |events| && events[j].Report? ==> events[j].url != events[i].url
    ensures var after := FailedAfter(failedAt, events); events[i].url in after && after[events[i].url] == events[i].at
  {
    var n := |events| - 1;
    if i < n {
      assert events[..n][i] == events[i];
      LastReport(failedAt, events[..n], i);
    }
  }

  /** A send leaves the failure time of every proxy that it did not find failing as it was, and the others are
      recorded at the end of one of their own attempts. */
  lemma SendReportsOnlyFailures(failedAt: FailedAt, list: seq<string>, replies: seq<Reply>, url: string)
    requires |list| <= |replies|
    ensures var k, after := FirstWorking(replies, |list|), ReportsOver(failedAt, list, replies);
      if url in list[..k] then ReportedFor(after, list[..k], replies, url)
      else (url in after <==> url in failedAt) && (url in after ==> after[url] == failedAt[url])
  {
    hide ReportAll, FirstWorking;
    Reported(failedAt, list[..FirstWorking(replies, |list|)], replies, url);
  }

  // ---------------------------------------------------------------- sends as runs of requests and reports

  function ReportEvents(list: seq<string>, replies: seq<Reply>): seq<Event>
    requires |list| <= |replies|
  {
    if list == [] then []
    else
      var n := |list| - 1;
      ReportEvents(list[..n], replies) + [Report(list[n], replies[n].at)]
  }

  /** A request at `now` and the failures met while it was sent. */
  datatype Sending = Sending(now: real, replies: seq<Reply>)

  function SendEvents(list: seq<string>, s: Sending): seq<Event>
    requires |list| <= |s.replies|
  {
    [Request(s.now)] + ReportEvents(list[..FirstWorking(s.replies, |list|)], s.replies)
  }

  lemma {:induction false} ReportsAreEvents(
    urls: seq<string>, start: nat, failedAt: FailedAt, list: seq<string>, s: Sending)
    requires |list| <= |s.replies|
    ensures FailedAfter(failedAt, [Request(s.now)] + ReportEvents(list, s.replies))
         == ReportAll(failedAt, list, s.replies)
    ensures StartAfter(urls, start, [Request(s.now)] + ReportEvents(list, s.replies)) == NextStart(urls, start)
  {
    var events := [Request(s.now)] + ReportEvents(list, s.replies);
    if list == [] {
      assert events == [Request(s.now)] && events[..0] == [];
    } else {
      var n := |list| - 1;
      ReportsAreEvents(urls, start, failedAt, list[..n], s);
      assert events[..|events| - 1] == [Request(s.now)] + ReportEvents(list[..n], s.replies);
    }
  }

  lemma {:induction false} EventsConcat(urls: seq<string>, start: nat, failedAt: FailedAt, a: seq<Event>, b: seq<Event>)
    ensures StartAfter(urls, start, a + b) == StartAfter(urls, StartAfter(urls, start, a), b)
    ensures FailedAfter(failedAt, a + b) == FailedAfter(FailedAfter(failedAt, a), b)
  {
    if b == [] {
      assert a + b == a;
    } else {
      EventsConcat(urls, start, failedAt, a, b[..|b| - 1]);
      assert (a + b)[..|a + b| - 1] == a + b[..|b| - 1];
    }
  }

  /** Where a run of sends leaves the rotator. */
  datatype Standing = Standing(next: nat, failedAt: FailedAt)

  function AfterSends(urls: seq<string>, cooldown: real, attempts: nat, sends: seq<Sending>): Standing
    requires forall s :: s in sends ==> attempts <= |s.replies|
  {
    if sends == [] then Standing(0, map[])
    else
      var before, s := AfterSends(urls, cooldown, attempts, sends[..|sends| - 1]), sends[|sends| - 1];
      Standing(NextStart(urls, before.next),
               ReportsOver(before.failedAt, ListFor(urls, cooldown, attempts, before, s.now), s.replies))
  }

  function ListFor(urls: seq<string>, cooldown: real, attempts: nat, st: Standing, now: real): (list: seq<string>)
    ensures |list| <= attempts
  {
    CandidatesAt(urls, st.next, st.failedAt, cooldown, attempts, now)
  }

  /** The requests and reports a run of sends amounts to. */
  function EventsOf(urls: seq<string>, cooldown: real, attempts: nat, sends: seq<Sending>): seq<Event>
    requires forall s :: s in sends ==> attempts <= |s.replies|
  {
    if sends == [] then []
    else
      var init, s := sends[..|sends| - 1], sends[|sends| - 1];
      EventsOf(urls, cooldown, attempts, init)
      + SendEvents(ListFor(urls, cooldown, attempts, AfterSends(urls, cooldown, attempts, init), s.now), s)
  }

  /** Any run of sends leaves the rotator where its requests and reports, taken as events, leave it. */
  lemma {:induction false} SendsAreEvents(urls: seq<string>, cooldown: real, attempts: nat, sends: seq<Sending>)
    requires forall s :: s in sends ==> attempts <= |s.replies|
    ensures var events := EventsOf(urls, cooldown, attempts, sends);
      AfterSends(urls, cooldown, attempts, sends) == Standing(StartAfter(urls, 0, events), FailedAfter(map[], events))
  {
    hide FailedAfter, StartAfter, CandidatesAt, FirstWorking, ReportAll;
    if sends == [] {
      NoEvents(urls);
    } else {
      var init, s := sends[..|sends| - 1], sends[|sends| - 1];
      var before := AfterSends(urls, cooldown, attempts, init);
      var list := ListFor(urls, cooldown, attempts, before, s.now);
      SendsAreEvents(urls, cooldown, attempts, init);
      ReportsAreEvents(urls, before.next, before.failedAt, list[..FirstWorking(s.replies, |list|)], s);
      EventsConcat(urls, 0, map[], EventsOf(urls, cooldown, attempts, init), SendEvents(list, s));
    }
  }

  lemma NoEvents(urls: seq<string>)
    ensures StartAfter(urls, 0, []) == 0 && FailedAfter(map[], []) == map[]
  {
  }
}
