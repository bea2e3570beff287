/** "Show more" answered late, after the view has moved on (frontend/src/hooks/useLogs.ts). */
module LateAnswers {
  import opened Common
  import opened LogConsole

  /** The answer to a request made when `log[k]` was the oldest event shown and the log had `m` events. */
  ghost function LateAnswer(v: View, log: seq<Event>, k: nat, m: nat): View
    requires k < m <= |log|
  {
    MoreAnswered(v, log[k].id, GetLogs(log[..m], None, None, Some(log[k].id), PAGE_SIZE))
  }

  lemma LateAnswerShows(v: View, log: seq<Event>, k: nat, m: nat)
    requires Ascending(log) && k < m <= |log|
    ensures LateAnswer(v, log, k, m) == View(v.events + Reversed(log[Older(k)..k]), k > PAGE_SIZE)
  {
    hide GetLogs, Reversed, OlderThan;
    var was := log[..m];
    PageBefore(was, k, Some(log[k].id));
    assert was[Older(k)..k] == log[Older(k)..k];
    ReversedAt(log[Older(k)..k]);
    OlderThanAll(Reversed(log[Older(k)..k]), log[k].id);
  }

  /** An answer for what is older than something already older than the window leaves that something out. */
  lemma EarlierAnswerLeavesGap(v: View, log: seq<Event>, i: nat, j: nat, k: nat, after: View)
    requires Ascending(log) && k < i < j <= |log|
    requires after == View(Reversed(log[i..j]) + Reversed(log[Older(k)..k]), k > PAGE_SIZE)
    ensures !GapFree(after, log)
  {
    hide Reversed;
    ReversedEnds(log, i, j);
    var n := |after.events|;
    assert after.events[0] == log[j - 1];
    assert log[k] in log && log[k].id < log[i].id;
    if k == 0 {
      NothingReversed();
      assert log[0..0] == [];
      assert after.events[n - 1] == log[i];
    } else {
      ReversedEnds(log, Older(k), k);
      assert after.events[n - 1] == log[Older(k)];
      NotAmong(log, i, j, k);
      NotAmong(log, Older(k), k, k);
      assert log[k] !in after.events;
    }
  }

  lemma NotAmong(log: seq<Event>, i: nat, j: nat, k: nat)
    requires Ascending(log) && i <= j <= |log| && k < |log| && !(i <= k < j)
    ensures log[k] !in Reversed(log[i..j])
  {
    hide Reversed;
    var part := log[i..j];
    ReversedAt(part);
    forall at | 0 <= at < |part| ensures Reversed(part)[at] != log[k] {
      assert Reversed(part)[at] == part[|part| - 1 - at] == log[j - 1 - at];
    }
  }

  lemma ReversedEnds(log: seq<Event>, i: nat, j: nat)
    requires i < j <= |log|
    ensures |Reversed(log[i..j])| == j - i
    ensures Reversed(log[i..j])[0] == log[j - 1] && Reversed(log[i..j])[j - i - 1] == log[i]
  {
    hide Reversed;
    var part := log[i..j];
    ReversedAt(part);
    assert Reversed(part)[|part| - 1] == part[0] == log[i];
  }

  lemma RepeatIsNoWindow(v: View, log: seq<Event>, n: nat)
    requires 0 < n < |v.events| && v.events[n - 1].id <= v.events[n].id
    ensures !GapFree(v, log)
  {
  }

  /** An answer for what is older than something inside the window repeats what is shown. */
  lemma LaterAnswerRepeats(log: seq<Event>, i: nat, j: nat, k: nat, after: View)
    requires Ascending(log) && i < j <= |log| && i < k < |log|
    requires after == View(Reversed(log[i..j]) + Reversed(log[Older(k)..k]), k > PAGE_SIZE)
    ensures !GapFree(after, log)
  {
    hide Reversed, GapFree;
    ReversedEnds(log, i, j);
    ReversedEnds(log, Older(k), k);
    var n := j - i;
    assert after.events[n - 1] == log[i] && after.events[n] == log[k - 1];
    assert log[i].id <= log[k - 1].id;
    RepeatIsNoWindow(after, log, n);
  }

  /** A late answer keeps the view gap-free exactly when the oldest event shown is still the one it was asked
      for; the handler does not look. */
  lemma LateAnswerIff(v: View, log: seq<Event>, i: nat, j: nat, k: nat, m: nat)
    requires LogOk(log) && Window(v, log, i, j) && i < j && k < m <= |log|
    ensures GapFree(LateAnswer(v, log, k, m), log) <==> k == i
  {
    hide Reversed, GapFree, LateAnswer, MoreLoaded;
    OkAscends(log);
    LateAnswerShows(v, log, k, m);
    var after := LateAnswer(v, log, k, m);
    if k < i {
      EarlierAnswerLeavesGap(v, log, i, j, k, after);
    } else if k > i {
      LaterAnswerRepeats(log, i, j, k, after);
    } else {
      AnswerInTime(v, log, i, j, m);
      var lo, hi := MoreWindow(v, log, i, j);
      WindowIsGapFree(after, log, lo, hi);
    }
  }

  /** In time, it is the answer `loadMore` is about. */
  lemma AnswerInTime(v: View, log: seq<Event>, i: nat, j: nat, m: nat)
    requires Ascending(log) && Window(v, log, i, j) && i < j && i < m <= |log|
    ensures LateAnswer(v, log, i, m) == MoreLoaded(v, log)
  {
    hide Reversed, GetLogs, OlderThan, LateAnswer;
    ReversedAt(log[i..j]);
    assert v.events[|v.events| - 1] == log[i];
    LateAnswerShows(v, log, i, m);
    LateAnswerShows(v, log, i, |log|);
    assert log[..|log|] == log;
    AnswerNow(v, log, i);
  }

  lemma AnswerNow(v: View, log: seq<Event>, k: nat)
    requires k < |log|
    ensures LateAnswer(v, log, k, |log|)
         == MoreAnswered(v, log[k].id, GetLogs(log, None, None, Some(log[k].id), PAGE_SIZE))
  {
    assert log[..|log|] == log;
  }
}
