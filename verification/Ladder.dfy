/** The re-open ladder of services/cdc-reader/src/lib.rs: bounded backoff and
    two caps over the re-opens of a reader. Instants and durations are in
    milliseconds. */
module Ladder {

  const MAX_CONSECUTIVE: nat := 10
  const RATE_WINDOW: nat := 60_000
  const RATE_CAP: nat := 20
  const BASE_BACKOFF: nat := 1_000
  const MAX_BACKOFF: nat := 30_000

  datatype Verdict = Backoff(delay: nat) | Trip

  /** One re-open: when it happened and how many transactions its session committed. */
  datatype Reopen = Reopen(at: nat, commits: nat)

  function Pow2(n: nat): (p: nat)
    ensures p >= 1
  {
    if n == 0 then 1 else 2 * Pow2(n - 1)
  }

  /** The backoff of an unproductive streak. */
  function BackoffOf(streak: nat): nat {
    var shift := if streak <= 1 then 0 else if streak - 1 < 20 then streak - 1 else 20;
    var grown := BASE_BACKOFF * Pow2(shift);
    if grown < MAX_BACKOFF then grown else MAX_BACKOFF
  }

  // ----- What the history of re-opens calls for

  /** How many re-opens at the end of the history had no commit. */
  function Streak(history: seq<Reopen>): nat {
    if history == [] || history[|history| - 1].commits > 0 then 0
    else 1 + Streak(history[..|history| - 1])
  }

  predicate Recent(now: nat, at: nat) {
    now - at <= RATE_WINDOW
  }

  /** The instants of the history that lie at most one window before `now`. */
  function Window(history: seq<Reopen>, now: nat): seq<nat> {
    if history == [] then []
    else
      var last := history[|history| - 1].at;
      Window(history[..|history| - 1], now) + (if Recent(now, last) then [last] else [])
  }

  /** The window at the latest re-open. */
  function Held(history: seq<Reopen>): seq<nat> {
    if history == [] then [] else Window(history, history[|history| - 1].at)
  }

  predicate Sorted(s: seq<nat>) {
    forall i, j :: 0 <= i < j < |s| ==> s[i] <= s[j]
  }

  predicate Ascending(history: seq<Reopen>) {
    forall i, j :: 0 <= i < j < |history| ==> history[i].at <= history[j].at
  }

  /** The verdict on the latest re-open of a history. */
  function Judge(history: seq<Reopen>): Verdict
    requires history != []
  {
    if Streak(history) >= MAX_CONSECUTIVE || |Window(history, history[|history| - 1].at)| > RATE_CAP then Trip
    else Backoff(BackoffOf(Streak(history)))
  }

  // ----- The ladder

  /** Drop instants from the front while they are too old. */
  method Evict(instants: seq<nat>, now: nat) returns (kept: seq<nat>)
    requires Sorted(instants)
    ensures kept == Keep(instants, now)
  {
    kept := instants;
    while kept != [] && now - kept[0] > RATE_WINDOW
      invariant Sorted(kept)
      invariant Keep(kept, now) == Keep(instants, now)
      decreases |kept|
    {
      kept := kept[1..];
    }
    KeepAll(kept, now);
  }

  class ReopenLadder {
    var consecutiveFailures: nat
    var totalReopens: nat
    var windowReopens: seq<nat>
    ghost var history: seq<Reopen>

    /** The fields are what the whole history calls for. */
    ghost predicate Valid()
      reads this
    {
      && Ascending(history)
      && consecutiveFailures == Streak(history)
      && totalReopens == |history|
      && windowReopens == Held(history)
    }

    constructor ()
      ensures Valid() && history == []
    {
      consecutiveFailures, totalReopens, windowReopens, history := 0, 0, [], [];
    }

    /** Record a re-open. The clock does not run backwards. */
    method NoteReopen(now: nat, commits: nat) returns (verdict: Verdict)
      requires Valid()
      requires history != [] ==> history[|history| - 1].at <= now
      modifies this
      ensures Valid()
      ensures history == old(history) + [Reopen(now, commits)]
      ensures verdict == Judge(history)
    {
      history := history + [Reopen(now, commits)];
      ReopenFacts(old(history), now, commits);
      totalReopens := totalReopens + 1;
      if commits > 0 {
        consecutiveFailures := 0;
      } else {
        consecutiveFailures := consecutiveFailures + 1;
      }
      windowReopens := Evict(windowReopens + [now], now);
      if consecutiveFailures >= MAX_CONSECUTIVE {
        return Trip;
      }
      if |windowReopens| > RATE_CAP {
        return Trip;
      }
      var shift := if consecutiveFailures <= 1 then 0 else consecutiveFailures - 1;
      if shift > 20 {
        shift := 20;
      }
      var backoff := BASE_BACKOFF * Pow2(shift);
      verdict := Backoff(if backoff < MAX_BACKOFF then backoff else MAX_BACKOFF);
    }
  }

  // ----- The trailing window

  /** The instants of a list that are recent at `now`. */
  function Keep(s: seq<nat>, now: nat): seq<nat> {
    if s == [] then [] else (if Recent(now, s[0]) then [s[0]] else []) + Keep(s[1..], now)
  }

  lemma {:induction false} KeepAll(s: seq<nat>, now: nat)
    requires Sorted(s)
    requires s != [] ==> Recent(now, s[0])
    ensures Keep(s, now) == s
  {
    if s != [] {
      KeepAll(s[1..], now);
    }
  }

  lemma {:induction false} KeepSnoc(s: seq<nat>, x: nat, now: nat)
    ensures Keep(s + [x], now) == Keep(s, now) + (if Recent(now, x) then [x] else [])
  {
    if s == [] {
      assert (s + [x])[1..] == [];
    } else {
      KeepSnoc(s[1..], x, now);
      assert (s + [x])[1..] == s[1..] + [x];
    }
  }

  /** A later window is the recent part of an earlier one. */
  lemma {:induction false} WindowOfWindow(history: seq<Reopen>, earlier: nat, now: nat)
    requires earlier <= now
    ensures Keep(Window(history, earlier), now) == Window(history, now)
  {
    if history != [] {
      var rest, last := history[..|history| - 1], history[|history| - 1].at;
      WindowOfWindow(rest, earlier, now);
      if Recent(earlier, last) {
        KeepSnoc(Window(rest, earlier), last, now);
      } else {
        assert Window(history, earlier) == Window(rest, earlier);
        assert Window(history, now) == Window(rest, now);
      }
    }
  }

  lemma {:induction false} WindowAscends(history: seq<Reopen>, now: nat)
    requires Ascending(history)
    ensures Sorted(Window(history, now))
    ensures forall i :: 0 <= i < |Window(history, now)| ==> Window(history, now)[i] <= history[|history| - 1].at
  {
    if history != [] {
      var rest := history[..|history| - 1];
      assert Ascending(rest);
      WindowAscends(rest, now);
      if rest != [] {
        assert rest[|rest| - 1].at <= history[|history| - 1].at;
      }
    }
  }

  /** What one more re-open makes of the streak and the window. */
  lemma {:induction false} ReopenFacts(history: seq<Reopen>, now: nat, commits: nat)
    requires Ascending(history) && (history != [] ==> history[|history| - 1].at <= now)
    ensures var next := history + [Reopen(now, commits)];
            && Ascending(next)
            && Streak(next) == (if commits > 0 then 0 else Streak(history) + 1)
            && Held(next) == Keep(Held(history) + [now], now)
    ensures Sorted(Held(history) + [now])
  {
    var next := history + [Reopen(now, commits)];
    assert next[..|next| - 1] == history;
    if history == [] {
      assert Held(history) + [now] == [now];
      assert Window(next, now) == Window(history, now) + [now] == [now];
      KeepAll([now], now);
    } else {
      var last := history[|history| - 1].at;
      WindowAscends(history, last);
      WindowOfWindow(history, last, now);
      KeepSnoc(Held(history), now, now);
    }
  }

  // ----- Bounds

  lemma {:induction false} Pow2Grows(m: nat, n: nat)
    requires m <= n
    ensures Pow2(m) <= Pow2(n)
  {
    if m < n {
      Pow2Grows(m, n - 1);
    }
  }

  /** Every backoff lies between one second and thirty, and does not shrink as
      the streak grows. */
  lemma {:induction false} BackoffBounds(streak: nat, longer: nat)
    requires streak <= longer
    ensures BASE_BACKOFF <= BackoffOf(streak) <= BackoffOf(longer) <= MAX_BACKOFF
  {
    var a := if streak <= 1 then 0 else if streak - 1 < 20 then streak - 1 else 20;
    var b := if longer <= 1 then 0 else if longer - 1 < 20 then longer - 1 else 20;
    Pow2Grows(a, b);
  }

  lemma {:induction false} BackoffDoubles(streak: nat)
    requires streak >= 1
    ensures BackoffOf(1) == 1_000
    ensures BackoffOf(streak + 1) == if 2 * BackoffOf(streak) < 30_000 then 2 * BackoffOf(streak) else 30_000
  {
    assert Pow2(0) == 1;
    if streak - 1 < 20 {
      assert Pow2(streak) == 2 * Pow2(streak - 1);
    } else {
      assert Pow2(1) == 2 && Pow2(2) == 4 && Pow2(3) == 8 && Pow2(4) == 16 && Pow2(5) == 32;
      Pow2Grows(5, 20);
    }
  }

  /** The first commit-free re-open of a streak, and every one with a commit, backs
      off one second. Each further commit-free one backs off twice as long as the one
      before it, up to thirty seconds. */
  lemma {:induction false} BackoffGrows(history: seq<Reopen>)
    requires history != [] && Judge(history).Backoff?
    ensures var n := |history|;
            && (history[n - 1].commits > 0 || n == 1 || history[n - 2].commits > 0 ==> Judge(history) == Backoff(1_000))
            && (n >= 2 && history[n - 1].commits == 0 && history[n - 2].commits == 0 && Judge(history[..n - 1]).Backoff? ==>
                  var before := Judge(history[..n - 1]).delay;
                  Judge(history) == Backoff(if 2 * before < 30_000 then 2 * before else 30_000))
  {
    var n := |history|;
    var rest := history[..n - 1];
    assert Pow2(0) == 1;
    if history[n - 1].commits == 0 {
      assert Streak(history) == 1 + Streak(rest);
      if n >= 2 && history[n - 2].commits == 0 {
        assert rest[|rest| - 1] == history[n - 2] && Streak(rest) >= 1;
        BackoffDoubles(Streak(rest));
      }
    }
  }

  /** A run that goes on: no re-open so far has tripped the ladder. */
  ghost predicate Survives(history: seq<Reopen>) {
    forall n :: 0 < n <= |history| ==> Judge(history[..n]).Backoff?
  }

  /** The backoff requested over a run. */
  function Requested(history: seq<Reopen>): nat {
    if history == [] then 0
    else
      Requested(history[..|history| - 1]) +
      match Judge(history) { case Backoff(delay) => delay case Trip => 0 }
  }

  predicate CommitFree(history: seq<Reopen>) {
    forall i :: 0 <= i < |history| ==> history[i].commits == 0
  }

  lemma {:induction false} CommitFreeStreak(past: seq<Reopen>, free: seq<Reopen>)
    requires Streak(past) == 0 && CommitFree(free)
    ensures Streak(past + free) == |free|
  {
    if free == [] {
      assert past + free == past;
    } else {
      var rest := free[..|free| - 1];
      assert (past + free)[..|past + free| - 1] == past + rest;
      CommitFreeStreak(past, rest);
    }
  }

  lemma {:induction false} BackoffTable()
    ensures BackoffOf(0) == BackoffOf(1) == 1_000 && BackoffOf(2) == 2_000 && BackoffOf(3) == 4_000
    ensures BackoffOf(4) == 8_000 && BackoffOf(5) == 16_000
    ensures BackoffOf(6) == BackoffOf(7) == BackoffOf(8) == BackoffOf(9) == 30_000
  {
    assert Pow2(1) == 2;
    assert Pow2(2) == 4;
    assert Pow2(3) == 8;
    assert Pow2(4) == 16;
    assert Pow2(5) == 32;
    Pow2Grows(5, 6);
    Pow2Grows(5, 7);
    Pow2Grows(5, 8);
  }

  /** The backoff requested by the first `n` commit-free re-opens. */
  function CommitFreeTotal(n: nat): nat {
    if n == 0 then 0 else CommitFreeTotal(n - 1) + BackoffOf(n)
  }

  lemma {:induction false} SurvivesEarlier(history: seq<Reopen>)
    requires Survives(history) && history != []
    ensures Survives(history[..|history| - 1]) && Judge(history).Backoff?
  {
    var rest := history[..|history| - 1];
    assert history[..|history|] == history;
    forall n | 0 < n <= |rest| ensures Judge(rest[..n]).Backoff? {
      assert rest[..n] == history[..n];
    }
  }

  lemma {:induction false} CommitFreeRequested(past: seq<Reopen>, free: seq<Reopen>)
    requires Streak(past) == 0 && CommitFree(free) && Survives(past + free)
    ensures Requested(past + free) == Requested(past) + CommitFreeTotal(|free|)
  {
    if free == [] {
      assert past + free == past;
    } else {
      var rest := free[..|free| - 1];
      assert (past + free)[..|past + free| - 1] == past + rest;
      SurvivesEarlier(past + free);
      CommitFreeRequested(past, rest);
      CommitFreeStreak(past, free);
    }
  }

  /** From a zero streak, a run of commit-free sessions is over by its tenth
      re-open, asks for at most 151 seconds of backoff before it, and for exactly
      that when nine of them survive. */
  lemma {:induction false} CommitFreeRunEnds(past: seq<Reopen>, free: seq<Reopen>)
    requires Streak(past) == 0 && CommitFree(free)
    requires Survives(past + free)
    ensures |free| < 10
    ensures Requested(past + free) - Requested(past) <= 151_000
    ensures |free| == 9 ==> Requested(past + free) - Requested(past) == 151_000
  {
    CommitFreeStreak(past, free);
    if free != [] {
      assert (past + free)[..|past + free|] == past + free;
    }
    CommitFreeRequested(past, free);
    BackoffTable();
    assert CommitFreeTotal(3) == 7_000;
    assert CommitFreeTotal(5) == 31_000;
    assert CommitFreeTotal(7) == 91_000;
    assert CommitFreeTotal(9) == 151_000;
    CommitFreeTotalGrows(|free|, 9);
  }

  lemma {:induction false} CommitFreeTotalGrows(m: nat, n: nat)
    requires m <= n
    ensures CommitFreeTotal(m) <= CommitFreeTotal(n)
  {
    if m < n {
      CommitFreeTotalGrows(m, n - 1);
    }
  }

  /** How many re-opens fall into the closed interval. */
  function CountBetween(history: seq<Reopen>, from: nat, to: nat): nat {
    if history == [] then 0
    else
      CountBetween(history[..|history| - 1], from, to) +
      if from <= history[|history| - 1].at <= to then 1 else 0
  }

  lemma {:induction false} CountWithinWindow(history: seq<Reopen>, from: nat, to: nat, now: nat)
    requires now <= from + RATE_WINDOW
    ensures CountBetween(history, from, to) <= |Window(history, now)|
  {
    if history != [] {
      CountWithinWindow(history[..|history| - 1], from, to, now);
    }
  }

  /** A run that never trips has at most twenty re-opens in any minute, wherever
      that minute starts. */
  lemma {:induction false} RateIsBounded(history: seq<Reopen>, from: nat)
    requires Ascending(history) && Survives(history)
    ensures CountBetween(history, from, from + RATE_WINDOW) <= RATE_CAP
  {
    if history != [] {
      var rest, last := history[..|history| - 1], history[|history| - 1].at;
      if from <= last <= from + RATE_WINDOW {
        assert history[..|history|] == history;
        CountWithinWindow(history, from, from + RATE_WINDOW, last);
      } else {
        assert Ascending(rest);
        forall n | 0 < n <= |rest| ensures Judge(rest[..n]).Backoff? {
          assert rest[..n] == history[..n];
        }
        RateIsBounded(rest, from);
      }
    }
  }

  /** The verdict is Trip exactly when ten re-opens in a row had no commit or
      more than twenty lie in the last minute, counted over the full history. */
  lemma {:induction false} TripsExactly(history: seq<Reopen>)
    requires history != [] && Ascending(history)
    ensures Judge(history).Trip? <==>
            || (|history| >= 10 && forall i :: |history| - 10 <= i < |history| ==> history[i].commits == 0)
            || CountBetween(history, Max0(history[|history| - 1].at - 60_000), history[|history| - 1].at) > 20
  {
    StreakMeans(history, 10);
    var now := history[|history| - 1].at;
    WindowCounts(history, now);
  }

  function Max0(n: int): nat {
    if n < 0 then 0 else n
  }

  lemma {:induction false} StreakMeans(history: seq<Reopen>, n: nat)
    ensures Streak(history) >= n <==>
            n <= |history| && forall i :: |history| - n <= i < |history| ==> history[i].commits == 0
  {
    if n > 0 && history != [] {
      var rest := history[..|history| - 1];
      StreakMeans(rest, n - 1);
      assert forall i :: 0 <= i < |rest| ==> rest[i] == history[i];
    }
  }

  lemma {:induction false} WindowCounts(history: seq<Reopen>, now: nat)
    requires forall i :: 0 <= i < |history| ==> history[i].at <= now
    ensures |Window(history, now)| == CountBetween(history, Max0(now - RATE_WINDOW), now)
  {
    if history != [] {
      WindowCounts(history[..|history| - 1], now);
    }
  }
}
