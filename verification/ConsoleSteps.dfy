/** Exactly what each step of the console shows (frontend/src/hooks/useLogs.ts). */
module ConsoleSteps {
  import opened Common
  import opened LogConsole

  /** Where the newest page of 100 begins in a log of `n` events. */
  function PageStart(n: nat): nat {
    if n > 100 then n - 100 else 0
  }

  /** The first load shows the newest 100 events, and offers more exactly when there are more. */
  lemma FirstLoadExact(log: seq<Event>)
    requires Ascending(log)
    ensures FirstLoaded(log) == View(Reversed(log[PageStart(|log|)..]), |log| > 100)
  {
    hide GetLogs, Reversed;
    PageBefore(log, |log|, None);
    assert log[PageStart(|log|)..|log|] == log[PageStart(|log|)..];
  }

  /** The newest page is full, and an id lies between it and what is shown, `log[..j]` being known. */
  ghost predicate StartsOver(log: seq<Event>, i: nat, j: nat)
    requires i <= j <= |log|
  {
    |log| >= 100 && log[PageStart(|log|)].id > (if i == j then 0 else log[j - 1].id) + 1
  }

  lemma RefreshedByPage(v: View, log: seq<Event>)
    requires Ascending(log)
    ensures var merged := MergeFresh(Reversed(log[PageStart(|log|)..]), v.events);
      Refreshed(v, log) == View(merged.events, v.hasMore || merged.reset)
  {
    hide GetLogs, Reversed, MergeFresh;
    PageBefore(log, |log|, None);
    assert log[PageStart(|log|)..|log|] == log[PageStart(|log|)..];
  }

  lemma ResetIff(log: seq<Event>, i: nat, j: nat)
    requires log != [] && i <= j <= |log|
    ensures MergeFresh(Reversed(log[PageStart(|log|)..]), Reversed(log[i..j])).reset <==> StartsOver(log, i, j)
  {
    hide Reversed, OlderThan;
    var p := PageStart(|log|);
    ReversedAt(log[p..]);
    ReversedAt(log[i..j]);
  }

  /** A refresh shows everything that was shown and all that came since, and offers more as before, except that
      it starts over from the newest page exactly when that page is full and does not reach what is shown. */
  lemma RefreshExact(v: View, log: seq<Event>, i: nat, j: nat)
    requires LogOk(log) && log != [] && Window(v, log, i, j)
    ensures var p := PageStart(|log|);
      Refreshed(v, log)
      == if StartsOver(log, i, j) then View(Reversed(log[p..]), true)
         else View(Reversed(log[if i < j && i < p then i else p..]), v.hasMore)
  {
    hide Reversed, OlderThan, LogOk, Ascending, MergeFresh, Refreshed, StartsOver;
    OkAscends(log);
    var p := PageStart(|log|);
    RefreshedByPage(v, log);
    MergedShape(log, p, v.events);
    ResetIff(log, i, j);
    if !StartsOver(log, i, j) {
      if i < j {
        MergedPageReaches(v, log, i, j);
      }
      JoinedAt(log, i, j, p);
    }
  }

  /** So a refresh loses nothing, and leaves `hasMore` alone, whenever the newest page overlaps what is shown. */
  lemma RefreshKeeps(v: View, log: seq<Event>, i: nat, j: nat)
    requires LogOk(log) && Window(v, log, i, j) && i < j && PageStart(|log|) < j
    ensures Refreshed(v, log).hasMore == v.hasMore
    ensures forall e :: e in v.events ==> e in Refreshed(v, log).events
  {
    hide Refreshed, Reversed, LogOk;
    OkAscends(log);
    RefreshExact(v, log, i, j);
    var p := PageStart(|log|);
    var from := if i < p then i else p;
    assert log[p].id <= log[j - 1].id;
    forall e | e in v.events ensures e in Reversed(log[from..]) {
      StretchInside(log, i, j, from, e);
    }
  }

  lemma StretchInside(log: seq<Event>, i: nat, j: nat, from: nat, e: Event)
    requires from <= i <= j <= |log| && e in Reversed(log[i..j])
    ensures e in Reversed(log[from..])
  {
    hide Reversed;
    ReversedAt(log[i..j]);
    ReversedAt(log[from..]);
    var k :| 0 <= k < j - i && Reversed(log[i..j])[k] == e;
    assert e == log[i..j][j - i - 1 - k] == log[j - 1 - k];
    assert Reversed(log[from..])[|log| - j + k] == log[from..][j - 1 - k - from] == e;
  }

  /** The newest event of the log is shown after every refresh and every first load. */
  lemma NewestIsShown(v: View, log: seq<Event>, i: nat, j: nat)
    requires LogOk(log) && log != [] && Window(v, log, i, j)
    ensures FirstLoaded(log).events != [] && FirstLoaded(log).events[0] == log[|log| - 1]
    ensures Refreshed(v, log).events != [] && Refreshed(v, log).events[0] == log[|log| - 1]
  {
    hide Refreshed, FirstLoaded, Reversed, LogOk;
    OkAscends(log);
    FirstLoadExact(log);
    RefreshExact(v, log, i, j);
    var p := PageStart(|log|);
    ReversedAt(log[p..]);
    ReversedAt(log[if i < j && i < p then i else p..]);
  }

  /** "Show more" adds the 100 events before the oldest shown, and offers more exactly when there are more. */
  lemma MoreExact(v: View, log: seq<Event>, i: nat, j: nat)
    requires LogOk(log) && Window(v, log, i, j) && i < j
    ensures MoreLoaded(v, log) == View(Reversed(log[PageStart(i)..j]), i > 100)
  {
    hide GetLogs, Reversed, OlderThan;
    OkAscends(log);
    ReversedAt(log[i..j]);
    assert v.events[|v.events| - 1] == log[i];
    PageBefore(log, i, Some(log[i].id));
    ReversedAt(log[PageStart(i)..i]);
    OlderThanAll(Reversed(log[PageStart(i)..i]), log[i].id);
    assert log[PageStart(i)..j] == log[PageStart(i)..i] + log[i..j];
    ReversedConcat(log[PageStart(i)..i], log[i..j]);
  }

  // ---------------------------------------------------------------- the offer of more

  /** The window, which never reaches beyond the newest page with its older end, and an honest offer of more. */
  ghost predicate Honest(s: State, i: nat, j: nat) {
    && Window(s.view, s.log, i, j) && i <= PageStart(|s.log|)
    && (s.view.hasMore <==> i < j && i > 0)
  }

  lemma HonestLoad(log: seq<Event>)
    requires LogOk(log)
    ensures Honest(State(log, FirstLoaded(log)), PageStart(|log|), |log|)
  {
    hide Reversed, LogOk, FirstLoaded;
    OkAscends(log);
    FirstLoadExact(log);
    assert log[PageStart(|log|)..|log|] == log[PageStart(|log|)..];
  }

  lemma HonestPoll(s: State, i: nat, j: nat) returns (lo: nat, hi: nat)
    requires LogOk(s.log) && Honest(s, i, j) && (s.log != [] ==> s.log[0].id == 1)
    ensures Honest(State(s.log, Refreshed(s.view, s.log)), lo, hi)
  {
    hide Reversed, Refreshed, LogOk;
    lo, hi := i, j;
    if s.log == [] {
      NothingPolled(s.view);
    } else {
      RefreshExact(s.view, s.log, i, j);
      var p := PageStart(|s.log|);
      hi := |s.log|;
      lo := if StartsOver(s.log, i, j) then p else if i < j && i < p then i else p;
      assert s.log[lo..hi] == s.log[lo..];
      ReversedAt(s.log[i..j]);
      if !StartsOver(s.log, i, j) && i == j {
        StartOfAll(s.log);
      }
    }
  }

  lemma NothingPolled(v: View)
    ensures Refreshed(v, []) == View(v.events, v.hasMore)
  {
    assert Newest([], None, None, None) == [];
  }

  lemma StartOfAll(log: seq<Event>)
    requires LogOk(log) && log != [] && log[0].id == 1
    ensures PageStart(|log|) > 0 ==> log[PageStart(|log|)].id > 1
  {
  }

  lemma HonestMore(s: State, i: nat, j: nat) returns (lo: nat)
    requires LogOk(s.log) && Honest(s, i, j)
    ensures Honest(State(s.log, MoreLoaded(s.view, s.log)), lo, j)
  {
    hide Reversed, LogOk, MoreLoaded;
    lo := i;
    if i < j {
      MoreExact(s.view, s.log, i, j);
      lo := PageStart(i);
    } else {
      NothingReversed();
      assert s.log[i..j] == [];
      NothingMore(s.view, s.log);
    }
  }

  lemma NothingMore(v: View, log: seq<Event>)
    requires v.events == []
    ensures MoreLoaded(v, log) == v
  {
  }

  /** With ids from 1 on, the console offers more exactly when something older than what it shows exists, after any
      sequence of steps. */
  lemma {:induction false} OffersMoreIff(steps: seq<Step>) returns (i: nat, j: nat)
    requires GrowsOnly(steps) && (After(steps).log != [] ==> After(steps).log[0].id == 1)
    ensures Honest(After(steps), i, j)
  {
    hide FirstLoaded, Refreshed, MoreLoaded, LogOk, Reversed;
    if steps == [] {
      NothingReversed();
      i, j := 0, 0;
    } else {
      LogPrefixOk(steps);
      var before := After(steps[..|steps| - 1]);
      i, j := OffersMoreIff(steps[..|steps| - 1]);
      match steps[|steps| - 1]
      case Append(e) =>
        assert (before.log + [e])[i..j] == before.log[i..j];
      case Load =>
        HonestLoad(before.log);
        i, j := PageStart(|before.log|), |before.log|;
      case Poll => i, j := HonestPoll(before, i, j);
      case More => i := HonestMore(before, i, j);
    }
  }

  // ---------------------------------------------------------------- the query

  /** The rows of a query are exactly the events that fit its filters and are older than the bound. */
  lemma QueryIff(log: seq<Event>, level: Option<string>, category: Option<string>, before: Option<nat>, e: Event)
    ensures e in Newest(log, level, category, before)
       <==> && e in log
            && (match level case None => true case Some(l) => e.level == l)
            && (match category case None => true case Some(c) => e.category == c)
            && (match before case None => true case Some(id) => e.id < id)
  {
    NewestMembers(log, level, category, before);
  }

  /** They come newest first, each once. */
  lemma {:induction false} QueryDescends(
    log: seq<Event>, level: Option<string>, category: Option<string>, before: Option<nat>)
    requires Ascending(log)
    ensures Descends(Newest(log, level, category, before))
  {
    hide Descends, Matches, Newest;
    if log == [] {
      NoRows(level, category, before);
      NothingDescends();
    } else {
      var init, last := log[..|log| - 1], log[|log| - 1];
      InitAscends(log);
      QueryDescends(init, level, category, before);
      NewestFromLast(log, level, category, before);
      var rest := Newest(init, level, category, before);
      forall e | e in rest ensures e.id < last.id {
        NewestMembers(init, level, category, before);
        BelowLast(log, e);
      }
      DescendsFrom(last, rest);
      assert [] + rest == rest;
    }
  }

  ghost predicate Descends(rows: seq<Event>) {
    forall a, b :: 0 <= a < b < |rows| ==> rows[a].id > rows[b].id
  }

  lemma NothingDescends()
    ensures Descends([])
  {
  }

  lemma DescendsFrom(e: Event, rest: seq<Event>)
    requires Descends(rest) && forall x :: x in rest ==> x.id < e.id
    ensures Descends([e] + rest)
  {
  }
}
