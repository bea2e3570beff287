/** The event log, its paged query, and the console that shows a window on it
    (app/event_log.py, app/logs_api.py, frontend/src/hooks/useLogs.ts). */
module LogConsole {
  import opened Common

  datatype Event = Event(id: nat, level: string, category: string, message: string)

  const PAGE_SIZE: nat := 100

  // ---------------------------------------------------------------- the query

  predicate Matches(e: Event, level: Option<string>, category: Option<string>, before: Option<nat>) {
    && (level.Some? ==> e.level == level.value)
    && (category.Some? ==> e.category == category.value)
    && (before.Some? ==> e.id < before.value)
  }

  /** Matching rows, newest first; the log is in id order. */
  function Newest(log: seq<Event>, level: Option<string>, category: Option<string>, before: Option<nat>): seq<Event> {
    if log == [] then []
    else
      var rest, last := Newest(log[..|log| - 1], level, category, before), log[|log| - 1];
      if Matches(last, level, category, before) then [last] + rest else rest
  }

  function ListEvents(
    log: seq<Event>, level: Option<string>, category: Option<string>, before: Option<nat>, limit: nat): seq<Event>
  {
    var rows := Newest(log, level, category, before);
    if |rows| <= limit then rows else rows[..limit]
  }

  datatype Page = Page(events: seq<Event>, hasMore: bool)

  /** One row more than asked for tells whether there are older ones. */
  function GetLogs(
    log: seq<Event>, level: Option<string>, category: Option<string>, before: Option<nat>, limit: nat): Page
  {
    var rows := ListEvents(log, level, category, before, limit + 1);
    Page(if |rows| <= limit then rows else rows[..limit], |rows| > limit)
  }

  lemma {:induction false} PageIsPrefix(
    log: seq<Event>, level: Option<string>, category: Option<string>, before: Option<nat>, limit: nat)
    ensures var rows, page := Newest(log, level, category, before), GetLogs(log, level, category, before, limit);
      page == if |rows| <= limit then Page(rows, false) else Page(rows[..limit], true)
  {
  }

  // ---------------------------------------------------------------- the console

  /** The part of `current` older than the fresh page. */
  function OlderThan(current: seq<Event>, id: nat): seq<Event> {
    if current == [] then []
    else
      var rest, last := OlderThan(current[..|current| - 1], id), current[|current| - 1];
      if last.id < id then rest + [last] else rest
  }

  datatype View = View(events: seq<Event>, hasMore: bool)

  datatype Merged = Merged(events: seq<Event>, reset: bool)

  /** The newest page on top of what is shown; a full page that does not reach it starts over. */
  function MergeFresh(page: seq<Event>, current: seq<Event>): Merged {
    if page == [] then Merged(current, false)
    else
      var oldestFresh := page[|page| - 1].id;
      var newestKnown := if current == [] then 0 else current[0].id;
      if |page| >= PAGE_SIZE && oldestFresh > newestKnown + 1 then Merged(page, true)
      else Merged(page + OlderThan(current, oldestFresh), false)
  }

  function FirstLoaded(log: seq<Event>): View {
    var page := GetLogs(log, None, None, None, PAGE_SIZE);
    View(page.events, page.hasMore)
  }

  function Refreshed(v: View, log: seq<Event>): View {
    var merged := MergeFresh(GetLogs(log, None, None, None, PAGE_SIZE).events, v.events);
    View(merged.events, v.hasMore || merged.reset)
  }

  function MoreLoaded(v: View, log: seq<Event>): View {
    if v.events == [] then v
    else
      var oldest := v.events[|v.events| - 1].id;
      MoreAnswered(v, oldest, GetLogs(log, None, None, Some(oldest), PAGE_SIZE))
  }

  /** What the answer to a request for events older than `asked` does to the view it arrives at. */
  function MoreAnswered(v: View, asked: nat, page: Page): View {
    View(v.events + OlderThan(page.events, asked), page.hasMore)
  }

  class Console {
    var events: seq<Event>
    var hasMore: bool

    constructor ()
      ensures events == [] && !hasMore
    {
      events, hasMore := [], false;
    }

    ghost function Shown(): View
      reads this
    {
      View(events, hasMore)
    }

    /** `log` is what the server holds when the query is answered. */
    method FirstLoad(log: seq<Event>)
      modifies this
      ensures Shown() == FirstLoaded(log)
    {
      events, hasMore := [], false;
      var page := GetLogs(log, None, None, None, PAGE_SIZE);
      events, hasMore := page.events, page.hasMore;
    }

    method Refresh(log: seq<Event>)
      modifies this
      ensures Shown() == Refreshed(old(Shown()), log)
    {
      var page := GetLogs(log, None, None, None, PAGE_SIZE);
      var merged := MergeFresh(page.events, events);
      if merged.reset {
        hasMore := true;
      }
      events := merged.events;
    }

    method LoadMore(log: seq<Event>)
      modifies this
      ensures Shown() == MoreLoaded(old(Shown()), log)
    {
      if events == [] {
        return;
      }
      var oldest := events[|events| - 1].id;
      var page := GetLogs(log, None, None, Some(oldest), PAGE_SIZE);
      events := events + OlderThan(page.events, oldest);
      hasMore := page.hasMore;
    }
  }

  // ---------------------------------------------------------------- paging

  ghost predicate Ascending(log: seq<Event>) {
    forall i, j :: 0 <= i < j < |log| ==> log[i].id < log[j].id
  }

  lemma {:induction false} NewestMembers(
    log: seq<Event>, level: Option<string>, category: Option<string>, before: Option<nat>)
    ensures forall e :: e in Newest(log, level, category, before) <==> e in log && Matches(e, level, category, before)
  {
    if log != [] {
      assert log == log[..|log| - 1] + [log[|log| - 1]];
      NewestMembers(log[..|log| - 1], level, category, before);
    }
  }

  /** Two bounds above every id of the log select the same rows. */
  lemma {:induction false} SameRows(
    log: seq<Event>, level: Option<string>, category: Option<string>, a: Option<nat>, b: Option<nat>)
    requires forall i :: 0 <= i < |log| ==> Matches(log[i], level, category, a) == Matches(log[i], level, category, b)
    ensures Newest(log, level, category, a) == Newest(log, level, category, b)
  {
    hide Matches;
    if log != [] {
      SameRows(log[..|log| - 1], level, category, a, b);
    }
  }

  lemma BelowLast(log: seq<Event>, e: Event)
    requires Ascending(log) && log != [] && e in log[..|log| - 1]
    ensures e.id < log[|log| - 1].id
  {
  }

  /** The last event of the log is the first row, if it matches at all. */
  lemma NewestFromLast(log: seq<Event>, level: Option<string>, category: Option<string>, before: Option<nat>)
    requires log != []
    ensures Newest(log, level, category, before)
         == (if Matches(log[|log| - 1], level, category, before) then [log[|log| - 1]] else [])
            + Newest(log[..|log| - 1], level, category, before)
  {
    hide Matches;
  }

  /** Asking for what is older than a row of the result gives the rows after it. */
  lemma {:induction false} NewestBefore(
    log: seq<Event>, level: Option<string>, category: Option<string>, before: Option<nat>, k: nat)
    requires Ascending(log) && k < |Newest(log, level, category, before)|
    ensures var rows := Newest(log, level, category, before);
      Newest(log, level, category, Some(rows[k].id)) == rows[k + 1..]
  {
    hide Newest, Ascending;
    if log == [] {
      NoRows(level, category, before);
    } else {
      var init, last := log[..|log| - 1], log[|log| - 1];
      InitAscends(log);
      NewestFromLast(log, level, category, before);
      NewestMembers(init, level, category, before);
      var row := Newest(log, level, category, before)[k];
      NewestFromLast(log, level, category, Some(row.id));
      if Matches(last, level, category, before) && k == 0 {
        forall e | e in init ensures e.id < last.id {
          BelowLast(log, e);
        }
        SameRows(init, level, category, before, Some(last.id));
      } else {
        var at := if Matches(last, level, category, before) then k - 1 else k;
        assert row == Newest(init, level, category, before)[at];
        BelowLast(log, row);
        NewestBefore(init, level, category, before, at);
      }
    }
  }

  lemma NoRows(level: Option<string>, category: Option<string>, before: Option<nat>)
    ensures Newest([], level, category, before) == []
  {
  }

  lemma InitAscends(log: seq<Event>)
    requires Ascending(log) && log != []
    ensures Ascending(log[..|log| - 1])
  {
  }

  /** All pages, each asked for with the smallest id of the one before, until there are no more. */
  ghost function AllPages(
    log: seq<Event>, level: Option<string>, category: Option<string>, before: Option<nat>, limit: nat): seq<Event>
    requires Ascending(log) && limit >= 1
    decreases |Newest(log, level, category, before)|
  {
    var page := GetLogs(log, level, category, before, limit);
    if !page.hasMore then page.events
    else
      NewestBefore(log, level, category, before, limit - 1);
      page.events + AllPages(log, level, category, Some(page.events[limit - 1].id), limit)
  }

  /** Paging to the end lists every matching event exactly once, newest first, for any filters and page size. */
  lemma {:induction false} PagingEnumerates(
    log: seq<Event>, level: Option<string>, category: Option<string>, before: Option<nat>, limit: nat)
    requires Ascending(log) && limit >= 1
    ensures AllPages(log, level, category, before, limit) == Newest(log, level, category, before)
    decreases |Newest(log, level, category, before)|
  {
    hide Newest, GetLogs;
    PageIsPrefix(log, level, category, before, limit);
    var rows, page := Newest(log, level, category, before), GetLogs(log, level, category, before, limit);
    if page.hasMore {
      NewestBefore(log, level, category, before, limit - 1);
      PagingEnumerates(log, level, category, Some(page.events[limit - 1].id), limit);
      assert rows == rows[..limit] + rows[limit..];
    }
  }

  // ---------------------------------------------------------------- the window

  function Reversed(log: seq<Event>): seq<Event> {
    if log == [] then [] else [log[|log| - 1]] + Reversed(log[..|log| - 1])
  }

  lemma {:induction false} ReversedAt(log: seq<Event>)
    ensures |Reversed(log)| == |log| && forall k :: 0 <= k < |log| ==> Reversed(log)[k] == log[|log| - 1 - k]
  {
    if log != [] {
      ReversedAt(log[..|log| - 1]);
    }
  }

  lemma {:induction false} ReversedConcat(a: seq<Event>, b: seq<Event>)
    ensures Reversed(a + b) == Reversed(b) + Reversed(a)
  {
    if b == [] {
      assert a + b == a;
    } else {
      ReversedConcat(a, b[..|b| - 1]);
      assert (a + b)[..|a + b| - 1] == a + b[..|b| - 1];
    }
  }

  lemma {:induction false} NewestIsReversed(log: seq<Event>)
    ensures Newest(log, None, None, None) == Reversed(log)
  {
    if log != [] {
      NewestIsReversed(log[..|log| - 1]);
    }
  }

  /** What is shown are the events of the log from `i` up to `j`, newest first, without a gap; and when the
      console says there is nothing more, `i` is the oldest event there is. */
  ghost predicate Window(v: View, log: seq<Event>, i: nat, j: nat) {
    && i <= j <= |log| && v.events == Reversed(log[i..j])
    && (v.events != [] && !v.hasMore ==> i == 0)
  }

  function Older(n: nat): nat {
    if n > PAGE_SIZE then n - PAGE_SIZE else 0
  }

  lemma ReversedSplit(log: seq<Event>, n: nat)
    requires n <= |log|
    ensures |Reversed(log)| == |log| && Reversed(log)[|log| - n..] == Reversed(log[..n])
    ensures Reversed(log)[..|log| - n] == Reversed(log[n..])
    ensures n < |log| ==> Reversed(log)[|log| - 1 - n] == log[n]
  {
    hide Reversed;
    assert log == log[..n] + log[n..];
    ReversedConcat(log[..n], log[n..]);
    ReversedAt(log);
    ReversedAt(log[..n]);
    ReversedAt(log[n..]);
  }

  /** The rows older than position `n`. */
  lemma RowsBefore(log: seq<Event>, n: nat, before: Option<nat>)
    requires Ascending(log) && n <= |log|
    requires if before.None? then n == |log| else n < |log| && before.value == log[n].id
    ensures Newest(log, None, None, before) == Reversed(log[..n])
  {
    hide Newest, Reversed;
    NewestIsReversed(log);
    ReversedSplit(log, n);
    if before.None? {
      assert log[..n] == log;
    } else {
      NewestBefore(log, None, None, None, |log| - 1 - n);
    }
  }

  /** The page of the events before position `n`. */
  lemma PageBefore(log: seq<Event>, n: nat, before: Option<nat>)
    requires Ascending(log) && n <= |log|
    requires if before.None? then n == |log| else n < |log| && before.value == log[n].id
    ensures GetLogs(log, None, None, before, PAGE_SIZE) == Page(Reversed(log[Older(n)..n]), n > PAGE_SIZE)
  {
    hide Newest, Reversed, GetLogs;
    RowsBefore(log, n, before);
    PageIsPrefix(log, None, None, before, PAGE_SIZE);
    ReversedSplit(log[..n], Older(n));
    assert log[..n][Older(n)..] == log[Older(n)..n];
  }

  lemma {:induction false} OlderThanAll(events: seq<Event>, id: nat)
    requires forall k :: 0 <= k < |events| ==> events[k].id < id
    ensures OlderThan(events, id) == events
  {
    if events != [] {
      OlderThanAll(events[..|events| - 1], id);
    }
  }

  lemma {:induction false} OlderThanConcat(a: seq<Event>, b: seq<Event>, id: nat)
    ensures OlderThan(a + b, id) == OlderThan(a, id) + OlderThan(b, id)
  {
    if b == [] {
      assert a + b == a;
    } else {
      OlderThanConcat(a, b[..|b| - 1], id);
      assert (a + b)[..|a + b| - 1] == a + b[..|b| - 1];
    }
  }

  lemma {:induction false} OlderThanNone(events: seq<Event>, id: nat)
    requires forall k :: 0 <= k < |events| ==> events[k].id >= id
    ensures OlderThan(events, id) == []
  {
    if events != [] {
      OlderThanNone(events[..|events| - 1], id);
    }
  }

  function Min(a: nat, b: nat): nat {
    if a < b then a else b
  }

  lemma NothingReversed()
    ensures Reversed([]) == []
  {
  }

  /** The shown events older than position `p` are a window of their own. */
  lemma OlderInWindow(log: seq<Event>, i: nat, j: nat, p: nat)
    requires Ascending(log) && i <= j <= |log| && p < |log|
    ensures OlderThan(Reversed(log[i..j]), log[p].id)
         == if Min(j, p) <= i then [] else Reversed(log[i..Min(j, p)])
  {
    hide Reversed, OlderThan, Ascending;
    var m := if Min(j, p) <= i then i else Min(j, p);
    if m == i {
      NothingReversed();
      assert log[i..m] == [];
    }
    assert log[i..j] == log[i..m] + log[m..j];
    ReversedConcat(log[i..m], log[m..j]);
    OlderThanConcat(Reversed(log[m..j]), Reversed(log[i..m]), log[p].id);
    FromThereNone(log, m, j, p);
    UpToThereAll(log, i, m, p);
  }

  lemma FromThereNone(log: seq<Event>, m: nat, j: nat, p: nat)
    requires Ascending(log) && m <= j <= |log| && p < |log| && (m < j ==> p <= m)
    ensures OlderThan(Reversed(log[m..j]), log[p].id) == []
  {
    hide Reversed, OlderThan;
    var part := log[m..j];
    ReversedAt(part);
    forall k | 0 <= k < |part| ensures Reversed(part)[k].id >= log[p].id {
      var at := j - 1 - k;
      assert Reversed(part)[k] == part[|part| - 1 - k] == log[at];
    }
    OlderThanNone(Reversed(part), log[p].id);
  }

  lemma UpToThereAll(log: seq<Event>, i: nat, m: nat, p: nat)
    requires Ascending(log) && i <= m <= |log| && p < |log| && (i < m ==> m <= p)
    ensures OlderThan(Reversed(log[i..m]), log[p].id) == Reversed(log[i..m])
  {
    hide Reversed, OlderThan;
    var part := log[i..m];
    ReversedAt(part);
    forall k | 0 <= k < |part| ensures Reversed(part)[k].id < log[p].id {
      var at := m - 1 - k;
      assert Reversed(part)[k] == part[|part| - 1 - k] == log[at];
    }
    OlderThanAll(Reversed(part), log[p].id);
  }

  // ---------------------------------------------------------------- over any sequence of steps

  datatype Step = Append(e: Event) | Load | Poll | More

  /** The server's log and what the console shows. */
  datatype State = State(log: seq<Event>, view: View)

  function Next(s: State, step: Step): State {
    match step
    case Append(e) => s.(log := s.log + [e])
    case Load => s.(view := FirstLoaded(s.log))
    case Poll => s.(view := Refreshed(s.view, s.log))
    case More => s.(view := MoreLoaded(s.view, s.log))
  }

  function After(steps: seq<Step>): State {
    if steps == [] then State([], View([], false))
    else Next(After(steps[..|steps| - 1]), steps[|steps| - 1])
  }

  /** Ids start at 1 and only grow. */
  ghost predicate LogOk(log: seq<Event>) {
    Ascending(log) && forall i :: 0 <= i < |log| ==> log[i].id >= 1
  }

  lemma LoadedWindow(log: seq<Event>)
    requires LogOk(log)
    ensures Window(FirstLoaded(log), log, Older(|log|), |log|)
  {
    hide GetLogs, Reversed;
    PageBefore(log, |log|, None);
  }

  /** A page that is merged without starting over reaches what was shown. */
  lemma MergedPageReaches(v: View, log: seq<Event>, i: nat, j: nat)
    requires LogOk(log) && log != [] && Window(v, log, i, j) && i < j
    requires !MergeFresh(Reversed(log[Older(|log|)..]), v.events).reset
    ensures Older(|log|) <= j
  {
    hide Reversed, OlderThan;
    var p := Older(|log|);
    ReversedAt(log[p..]);
    ReversedAt(log[i..j]);
    var page := Reversed(log[p..]);
    assert page[|page| - 1] == log[p] && v.events[0] == log[j - 1];
    GapBetween(log, j - 1, p);
  }

  lemma GapBetween(log: seq<Event>, a: nat, b: nat)
    requires Ascending(log) && a < |log| && b < |log|
    ensures a + 1 < b ==> log[a].id + 1 < log[b].id
  {
    if a + 1 < b {
      assert log[a].id < log[a + 1].id < log[b].id;
    }
  }

  /** With nothing shown, a page that does not start over begins at the oldest event. */
  lemma MergedPageIsAll(v: View, log: seq<Event>)
    requires LogOk(log) && log != [] && v.events == []
    requires !MergeFresh(Reversed(log[Older(|log|)..]), v.events).reset
    ensures Older(|log|) == 0
  {
    hide Reversed, OlderThan;
    var p := Older(|log|);
    ReversedAt(log[p..]);
    var page := Reversed(log[p..]);
    assert page[|page| - 1] == log[p];
    LaterIdsAreLarger(log, p);
  }

  lemma LaterIdsAreLarger(log: seq<Event>, p: nat)
    requires LogOk(log) && p < |log|
    ensures p > 0 ==> log[p].id > 1
  {
    if p > 0 {
      assert log[0].id < log[p].id;
    }
  }

  /** A refresh keeps the window gap-free: either the new page reaches it, or the view starts over. */
  lemma RefreshedWindow(v: View, log: seq<Event>, i: nat, j: nat) returns (lo: nat, hi: nat)
    requires LogOk(log) && Window(v, log, i, j)
    ensures Window(Refreshed(v, log), log, lo, hi)
  {
    hide GetLogs, Reversed, OlderThan, LogOk;
    var n := |log|;
    var p := Older(n);
    assert Ascending(log) by {
      OkAscends(log);
    }
    PageBefore(log, n, None);
    assert log[p..n] == log[p..];
    ReversedAt(log[p..]);
    if n == 0 {
      lo, hi := i, j;
      assert Refreshed(v, log) == v;
    } else {
      lo, hi := MergedWindow(v, log, i, j);
    }
  }

  lemma OkAscends(log: seq<Event>)
    requires LogOk(log)
    ensures Ascending(log)
  {
  }

  /** The page from position `p` on, and what a window that it reaches shows before that. */
  lemma JoinedAt(log: seq<Event>, i: nat, j: nat, p: nat)
    requires Ascending(log) && i <= j <= |log| && p < |log| && (i < j ==> p <= j)
    ensures Reversed(log[p..]) + OlderThan(Reversed(log[i..j]), log[p].id)
         == Reversed(log[if i < j && i < p then i else p..])
  {
    hide Reversed, OlderThan, Ascending;
    OlderInWindow(log, i, j, p);
    if i < j && i < p {
      assert log[i..] == log[i..p] + log[p..];
      ReversedConcat(log[i..p], log[p..]);
    }
  }

  lemma MergedShape(log: seq<Event>, p: nat, current: seq<Event>)
    requires p < |log|
    ensures var page := Reversed(log[p..]);
      MergeFresh(page, current).events
      == if MergeFresh(page, current).reset then page else page + OlderThan(current, log[p].id)
  {
    hide Reversed, OlderThan;
    ReversedAt(log[p..]);
  }

  lemma MergedWindow(v: View, log: seq<Event>, i: nat, j: nat) returns (lo: nat, hi: nat)
    requires LogOk(log) && log != [] && Window(v, log, i, j)
    ensures var merged := MergeFresh(Reversed(log[Older(|log|)..]), v.events);
      Window(View(merged.events, v.hasMore || merged.reset), log, lo, hi)
  {
    hide Reversed, OlderThan, LogOk, Ascending, MergeFresh;
    OkAscends(log);
    var p := Older(|log|);
    lo, hi := p, |log|;
    assert log[p..hi] == log[p..];
    MergedShape(log, p, v.events);
    if !MergeFresh(Reversed(log[p..]), v.events).reset {
      if i == j {
        NothingReversed();
        assert log[i..j] == [];
        MergedPageIsAll(v, log);
      } else {
        ReversedAt(log[i..j]);
        MergedPageReaches(v, log, i, j);
        lo := if i < p then i else p;
        assert log[lo..hi] == log[lo..];
      }
      JoinedAt(log, i, j, p);
    }
  }

  lemma MoreWindow(v: View, log: seq<Event>, i: nat, j: nat) returns (lo: nat, hi: nat)
    requires LogOk(log) && Window(v, log, i, j)
    ensures Window(MoreLoaded(v, log), log, lo, hi)
  {
    hide GetLogs, Reversed, OlderThan;
    lo, hi := i, j;
    if v.events != [] {
      ReversedAt(log[i..j]);
      assert v.events[|v.events| - 1] == log[i];
      PageBefore(log, i, Some(log[i].id));
      ReversedAt(log[Older(i)..i]);
      OlderThanAll(Reversed(log[Older(i)..i]), log[i].id);
      assert log[Older(i)..j] == log[Older(i)..i] + log[i..j];
      ReversedConcat(log[Older(i)..i], log[i..j]);
      lo := Older(i);
    }
  }

  ghost predicate GrowsOnly(steps: seq<Step>) {
    LogOk(After(steps).log)
  }

  lemma {:induction false} LogPrefixOk(steps: seq<Step>)
    requires steps != [] && GrowsOnly(steps)
    ensures GrowsOnly(steps[..|steps| - 1])
  {
    hide FirstLoaded, Refreshed, MoreLoaded;
    var before, now := After(steps[..|steps| - 1]).log, After(steps).log;
    if steps[|steps| - 1].Append? {
      assert forall i :: 0 <= i < |before| ==> before[i] == now[i];
    }
  }

  /** After any sequence of appends, first loads, polls and "show more", the console shows a gap-free
      window on the log. */
  lemma {:induction false} WindowAlways(steps: seq<Step>) returns (i: nat, j: nat)
    requires GrowsOnly(steps)
    ensures Window(After(steps).view, After(steps).log, i, j)
  {
    hide FirstLoaded, Refreshed, MoreLoaded, LogOk, Reversed;
    if steps == [] {
      NothingReversed();
      i, j := 0, 0;
    } else {
      LogPrefixOk(steps);
      i, j := WindowAlways(steps[..|steps| - 1]);
      var before := After(steps[..|steps| - 1]);
      match steps[|steps| - 1]
      case Append(e) =>
        assert (before.log + [e])[i..j] == before.log[i..j];
      case Load =>
        LoadedWindow(before.log);
        i, j := Older(|before.log|), |before.log|;
      case Poll => i, j := RefreshedWindow(before.view, before.log, i, j);
      case More => i, j := MoreWindow(before.view, before.log, i, j);
    }
  }

  /** What a window means for a reader: newest first without repeats, every event of the log between the
      oldest and the newest shown, and nothing older when the console offers no more. */
  ghost predicate GapFree(v: View, log: seq<Event>) {
    && (forall a, b :: 0 <= a < b < |v.events| ==> v.events[a].id > v.events[b].id)
    && (v.events != [] ==>
      forall e :: e in v.events <==> e in log && v.events[|v.events| - 1].id <= e.id <= v.events[0].id)
    && (v.events != [] && !v.hasMore ==> forall e :: e in log ==> e.id >= v.events[|v.events| - 1].id)
  }

  lemma ShownBetween(log: seq<Event>, i: nat, j: nat, e: Event)
    requires Ascending(log) && i < j <= |log|
    ensures e in Reversed(log[i..j]) <==> e in log && log[i].id <= e.id <= log[j - 1].id
  {
    hide Reversed;
    var part := log[i..j];
    ReversedAt(part);
    if e in Reversed(part) {
      var k :| 0 <= k < |part| && Reversed(part)[k] == e;
      var at := j - 1 - k;
      assert i <= at < j && part[|part| - 1 - k] == log[at];
      assert e == log[at] && e in log;
    }
    if e in log && log[i].id <= e.id <= log[j - 1].id {
      var k :| 0 <= k < |log| && log[k] == e;
      assert i <= k < j;
      var at := j - 1 - k;
      assert Reversed(part)[at] == part[|part| - 1 - at] == log[k];
    }
  }

  lemma WindowIsGapFree(v: View, log: seq<Event>, i: nat, j: nat)
    requires Ascending(log) && Window(v, log, i, j)
    ensures GapFree(v, log)
  {
    hide Reversed;
    var part := log[i..j];
    ReversedAt(part);
    if v.events != [] {
      assert v.events[|v.events| - 1] == part[0] == log[i] && v.events[0] == part[|part| - 1] == log[j - 1];
      forall e ensures e in v.events <==> e in log && log[i].id <= e.id <= log[j - 1].id {
        ShownBetween(log, i, j, e);
      }
    }
  }

  /** The console is gap-free after any sequence of steps. */
  lemma ConsoleIsGapFree(steps: seq<Step>)
    requires GrowsOnly(steps)
    ensures GapFree(After(steps).view, After(steps).log)
  {
    hide After, Window, GapFree;
    var i, j := WindowAlways(steps);
    WindowIsGapFree(After(steps).view, After(steps).log, i, j);
  }
}
