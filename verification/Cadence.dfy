/** Attempt spacing and backoff of one entry, over every run of the shared loop. */
module Cadence {
  import opened SchedulerSpec

  /** Failures since the last success. */
  function Trailing(runs: seq<Run>): nat {
    if runs == [] || !runs[|runs| - 1].outcome.Raised? then 0 else Trailing(runs[..|runs| - 1]) + 1
  }

  /** Attempt j + 1 starts an interval after attempt j, and past its cooldown if that failed. */
  predicate Paced(c: Config, runs: seq<Run>) {
    forall j :: 0 <= j < |runs| - 1 ==> FollowsAt(c, runs, j)
  }

  predicate FollowsAt(c: Config, runs: seq<Run>, j: nat)
    requires j < |runs| - 1
  {
    TrailingLast(runs[..j + 1]);
    && runs[j + 1].start >= runs[j].start + c.interval as real
    && (runs[j].outcome.Raised? ==>
          runs[j + 1].start >= runs[j].outcome.at + Cooldown(Trailing(runs[..j + 1])))
  }

  lemma TrailingLast(runs: seq<Run>)
    requires runs != []
    ensures Trailing(runs) > 0 <==> runs[|runs| - 1].outcome.Raised?
  {
  }

  /** The entry's fields are what its history of attempts says, and the attempts are paced. */
  predicate Kept(c: Config, t: Track) {
    && t.health.failures == Trailing(t.runs)
    && (t.runs == [] ==> t.next == 0.0 && t.health.retryAt == 0.0)
    && (t.runs != [] ==>
          var last := t.runs[|t.runs| - 1];
          && !last.outcome.Exited?
          && t.next == last.start + c.interval as real
          && t.health.retryAt
             == if last.outcome.Raised? then last.outcome.at + Cooldown(Trailing(t.runs)) else 0.0)
    && Paced(c, t.runs)
  }

  lemma TrailingSnoc(runs: seq<Run>, r: Run)
    ensures Trailing(runs + [r]) == if r.outcome.Raised? then Trailing(runs) + 1 else 0
  {
    assert (runs + [r])[..|runs|] == runs;
  }

  lemma PacedSnoc(c: Config, runs: seq<Run>, r: Run)
    requires Paced(c, runs)
    requires runs != [] ==>
               var last := runs[|runs| - 1];
               && r.start >= last.start + c.interval as real
               && (last.outcome.Raised? ==> Trailing(runs) > 0
                                            && r.start >= last.outcome.at + Cooldown(Trailing(runs)))
    ensures Paced(c, runs + [r])
  {
    hide Cooldown, Trailing;
    var more := runs + [r];
    forall j | 0 <= j < |runs| ensures FollowsAt(c, more, j) {
      assert more[..j + 1] == runs[..j + 1];
      if j == |runs| - 1 {
        assert runs[..j + 1] == runs;
      } else {
        assert FollowsAt(c, runs, j);
      }
    }
  }

  lemma LoneTickKeeps(c: Config, t: Track, now: real, outcome: Collected)
    requires Kept(c, t)
    requires Due(c, t.next, t.health, now) ==> !Kills(t.health, outcome)
    ensures Kept(c, LoneTick(c, t, now, outcome))
  {
    hide Cooldown, Trailing, Paced;
    if Due(c, t.next, t.health, now) {
      var r := Run(now, outcome);
      if t.runs != [] {
        TrailingLast(t.runs);
      }
      PacedSnoc(c, t.runs, r);
      TrailingSnoc(t.runs, r);
    }
  }

  /** In the shared loop, with distinct names, every entry keeps its pace whatever the others
      do: `failures` is its run of failures since its last success, its attempts are at least its
      interval apart, and one after the k-th consecutive failure waits out the k-th cooldown. */
  lemma {:induction false} EveryEntryKeepsPace(configs: seq<Config>, ticks: seq<Tick>, i: nat)
    requires DistinctNames(configs) && i < |configs| && RunAll(configs, ticks).alive
    ensures Kept(configs[i], TrackOf(configs, RunAll(configs, ticks), i))
  {
    hide TickStep, LoneTick, Kept;
    if ticks == [] {
      FreshIsKept(configs, i);
    } else {
      var front, last := ticks[..|ticks| - 1], ticks[|ticks| - 1];
      var s := RunAll(configs, front);
      DeadStaysDead(configs, s, last);
      EveryEntryKeepsPace(configs, front, i);
      TickIsLoneTicks(configs, s, last, i);
      TickLives(configs, s, last);
      assert !EntryKills(configs, s, last, i);
      LoneTickKeeps(configs[i], TrackOf(configs, s, i), last.now, last.outcome(i));
    }
  }

  /** An entry with these attempts behind it may start at `now`. */
  predicate Ready(c: Config, runs: seq<Run>, now: real) {
    && !c.disabled
    && (runs == [] ==> now >= 0.0)
    && (runs != [] ==>
          var last := runs[|runs| - 1];
          && now >= last.start + c.interval as real
          && (if last.outcome.Raised?
              then TrailingLast(runs); now >= last.outcome.at + Cooldown(Trailing(runs))
              else now >= 0.0))
  }

  /** Exactly when an entry of the shared loop starts: at a tick where its interval and, after
      the k-th failure in a row, the k-th cooldown have passed; no sooner, and no later. */
  lemma StartsExactlyWhenReady(configs: seq<Config>, ticks: seq<Tick>, m: nat, i: nat)
    requires DistinctNames(configs) && i < |configs| && m < |ticks| && RunAll(configs, ticks[..m + 1]).alive
    ensures var before := RunAll(configs, ticks[..m]).runs[i];
            RunAll(configs, ticks[..m + 1]).runs[i]
            == if Ready(configs[i], before, ticks[m].now)
               then before + [Run(ticks[m].now, ticks[m].outcome(i))] else before
  {
    hide TickStep, Cooldown, Paced;
    assert ticks[..m + 1][..m] == ticks[..m];
    var s := RunAll(configs, ticks[..m]);
    DeadStaysDead(configs, s, ticks[m]);
    EveryEntryKeepsPace(configs, ticks[..m], i);
    TickIsLoneTicks(configs, s, ticks[m], i);
  }

  lemma {:induction false} AliveBefore(configs: seq<Config>, ticks: seq<Tick>, m: nat)
    requires m <= |ticks| && RunAll(configs, ticks).alive
    ensures RunAll(configs, ticks[..m]).alive
    decreases |ticks|
  {
    hide TickStep;
    if m == |ticks| {
      assert ticks[..m] == ticks;
    } else {
      var n := |ticks| - 1;
      DeadStaysDead(configs, RunAll(configs, ticks[..n]), ticks[n]);
      assert ticks[..n][..m] == ticks[..m];
      AliveBefore(configs, ticks[..n], m);
    }
  }

  /** The next attempt falls on the first tick at which the entry is ready: in particular a
      collector that raised is retried, on the first tick past its cooldown. */
  lemma {:induction false} RetriedAtFirstReadyTick(configs: seq<Config>, ticks: seq<Tick>, a: nat, b: nat, i: nat)
    requires DistinctNames(configs) && i < |configs| && a <= b < |ticks| && RunAll(configs, ticks).alive
    requires var runs := RunAll(configs, ticks[..a]).runs[i];
             && (forall k :: a <= k < b ==> !Ready(configs[i], runs, ticks[k].now))
             && Ready(configs[i], runs, ticks[b].now)
    ensures RunAll(configs, ticks[..b + 1]).runs[i]
         == RunAll(configs, ticks[..a]).runs[i] + [Run(ticks[b].now, ticks[b].outcome(i))]
    decreases b - a
  {
    hide Ready, RunAll;
    AliveBefore(configs, ticks, a + 1);
    StartsExactlyWhenReady(configs, ticks, a, i);
    if a == b {
    } else {
      RetriedAtFirstReadyTick(configs, ticks, a + 1, b, i);
    }
  }

  lemma FreshIsKept(configs: seq<Config>, i: nat)
    requires i < |configs|
    ensures Kept(configs[i], TrackOf(configs, Initial(configs), i))
  {
  }

  // ---- How long failures keep a collector away ----

  lemma {:induction false} Pow2Grows(a: nat, b: nat)
    requires a <= b
    ensures Pow2(a) <= Pow2(b)
  {
    if a < b {
      Pow2Grows(a, b - 1);
    }
  }

  /** Five minutes, doubling, capped at an hour from the fifth failure on. */
  lemma CooldownTable(k: nat)
    requires k >= 1
    ensures Cooldown(k) == if k == 1 then 300.0 else if k == 2 then 600.0
                           else if k == 3 then 1200.0 else if k == 4 then 2400.0 else 3600.0
  {
    assert Pow2(1) == 2 && Pow2(2) == 4;
    assert Pow2(3) == 8 && Pow2(4) == 16;
    if k >= 5 {
      Pow2Grows(4, k - 1);
    }
  }

  /** The least total of n consecutive cooldowns. */
  function LeastWait(n: nat): real {
    if n == 0 then 0.0
    else if n == 1 then 300.0
    else if n == 2 then 900.0
    else if n == 3 then 2100.0
    else 4500.0 + 3600.0 * (n - 4) as real
  }

  predicate Failing(runs: seq<Run>, i: nat, n: nat) {
    i + n <= |runs|
    && forall k :: i <= k < i + n ==> runs[k].outcome.Raised? && runs[k].outcome.at >= runs[k].start
  }

  lemma {:induction false} TrailingAtLeast(runs: seq<Run>, i: nat, n: nat)
    requires Failing(runs, i, n)
    ensures Trailing(runs[..i + n]) >= n
  {
    if n == 0 {
    } else {
      TrailingAtLeast(runs, i, n - 1);
      assert runs[..i + n][..i + n - 1] == runs[..i + n - 1];
    }
  }

  /** n consecutive failures and the next attempt span at least 300, 900, 2100 seconds for
      n = 1, 2, 3, and 4500 + 3600 (n - 4) from n = 4 on. */
  lemma {:induction false} FailuresSpan(c: Config, runs: seq<Run>, i: nat, n: nat)
    requires Paced(c, runs) && Failing(runs, i, n) && i + n < |runs|
    ensures runs[i + n].start - runs[i].start >= LeastWait(n)
  {
    hide Cooldown;
    if n == 0 {
    } else {
      FailuresSpan(c, runs, i, n - 1);
      assert FollowsAt(c, runs, i + n - 1);
      TrailingAtLeast(runs, i, n);
      CooldownTable(Trailing(runs[..i + n]));
    }
  }

  /** The same of the shared loop: a collector that keeps failing is left alone at least that long. */
  lemma SharedFailuresSpan(configs: seq<Config>, ticks: seq<Tick>, e: nat, i: nat, n: nat)
    requires DistinctNames(configs) && e < |configs| && RunAll(configs, ticks).alive
    requires Failing(RunAll(configs, ticks).runs[e], i, n) && i + n < |RunAll(configs, ticks).runs[e]|
    ensures RunAll(configs, ticks).runs[e][i + n].start - RunAll(configs, ticks).runs[e][i].start
         >= LeastWait(n)
  {
    EveryEntryKeepsPace(configs, ticks, e);
    FailuresSpan(configs[e], RunAll(configs, ticks).runs[e], i, n);
  }

  /** The failure that ends the loop comes late: an entry due again after 1024 failures in a row
      began the first of them at least 4500 + 3600 * 1020 s (42 days) before, given only that each
      handler read the clock no earlier than its attempt started. */
  lemma OverflowComesLate(configs: seq<Config>, ticks: seq<Tick>, e: nat, now: real)
    requires DistinctNames(configs) && e < |configs| && RunAll(configs, ticks).alive
    requires var s := RunAll(configs, ticks);
             && DueFlags(configs, s, now)[e] && s.healths[e].failures >= OVERFLOWING
             && forall r :: r in s.runs[e] && r.outcome.Raised? ==> r.outcome.at >= r.start
    ensures var runs := RunAll(configs, ticks).runs[e];
            |runs| >= OVERFLOWING
            && now - runs[|runs| - OVERFLOWING].start >= 4500.0 + 3600.0 * 1020.0
  {
    hide Cooldown, Trailing, RunAll;
    var s, c := RunAll(configs, ticks), configs[e];
    var runs, t := s.runs[e], TrackOf(configs, s, e);
    EveryEntryKeepsPace(configs, ticks, e);
    TrailingAtMost(runs);
    TrailingRaised(runs, OVERFLOWING);
    var i := |runs| - OVERFLOWING;
    var more := runs + [Run(now, Exited)];
    TrailingLast(runs);
    PacedSnoc(c, runs, Run(now, Exited));
    assert Failing(more, i, OVERFLOWING);
    FailuresSpan(c, more, i, OVERFLOWING);
  }

  lemma {:induction false} TrailingRaised(runs: seq<Run>, n: nat)
    requires n <= Trailing(runs)
    ensures n <= |runs| && forall k :: |runs| - n <= k < |runs| ==> runs[k].outcome.Raised?
  {
    if n == 0 {
    } else {
      TrailingRaised(runs[..|runs| - 1], n - 1);
    }
  }

  lemma {:induction false} TrailingAtMost(runs: seq<Run>)
    ensures Trailing(runs) <= |runs|
  {
    if runs == [] {
    } else {
      TrailingAtMost(runs[..|runs| - 1]);
    }
  }
}
