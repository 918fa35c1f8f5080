/** `Scheduler.run_once` and `run_forever`, against the tick-by-tick specification. */
module Scheduler {
  import opened Prelude
  import opened Assembly
  import opened SchedulerSpec

  class Scheduler {
    const entries: seq<Entry>

    constructor (entries: seq<Entry>)
      ensures this.entries == entries
    {
      this.entries := entries;
    }

    ghost predicate Valid() {
      forall i, j :: 0 <= i < j < |entries| ==> entries[i] != entries[j]
    }

    function Configs(): (r: seq<Config>)
      ensures |r| == |entries|
    {
      seq(|entries|, i requires 0 <= i < |entries| => entries[i].config)
    }

    ghost function Healths(): (r: seq<Health>)
      reads entries
      ensures |r| == |entries|
    {
      seq(|entries|, i requires 0 <= i < |entries| reads entries => entries[i].State())
    }

    /** One included entry: its collection, and the merge of what it returned. */
    method RunAndMerge(entry: Entry, outcome: Collected, result: Result) returns (escaped: bool)
      modifies entry, result
      ensures entry.State() == AfterRun(old(entry.State()), outcome)
      ensures escaped <==> Kills(old(entry.State()), outcome)
      ensures !escaped ==>
                var before := old(result.Contents());
                result.Contents() == if !outcome.Returned? then before
                                     else Merged(before, entry.config.name, entry.config.custom, outcome.c)
    {
      var payload;
      payload, escaped := entry.Run(outcome);
      if payload.Some? {
        var ok := result.Merge(entry.config.name, entry.config.custom, payload.value);
        escaped := !ok;
      }
    }

    /** `run_once`; None when an exception left it. `runs` is the start log so far. */
    method RunOnce(included: seq<bool>, tick: Tick, ghost runs: seq<seq<Run>>)
      returns (batch: Option<Batch>, ghost pass: Pass)
      requires Valid() && |included| == |runs| == |entries|
      modifies entries
      ensures pass == Once(Configs(), Pass(old(Healths()), runs, Some(EMPTY)), included, tick, |entries|)
      ensures Healths() == pass.healths && batch == pass.batch
    {
      hide AfterRun, Merged, Kills;
      ghost var start := Pass(Healths(), runs, Some(EMPTY));
      var result := new Result();
      pass := start;
      for i := 0 to |entries|
        invariant pass == Once(Configs(), start, included, tick, i)
        invariant Healths() == pass.healths && pass.batch == Some(result.Contents())
        invariant fresh(result)
      {
        pass := Once(Configs(), start, included, tick, i + 1);
        if !entries[i].config.disabled && included[i] {
          ghost var before := Healths();
          ExitedKills(before[i], tick.outcome(i));
          var escaped := RunAndMerge(entries[i], tick.outcome(i), result);
          assert Healths() == before[i := AfterRun(before[i], tick.outcome(i))];
          if escaped {
            OnceStops(Configs(), start, included, tick, i + 1, |entries|);
            return None, pass;
          }
        }
      }
      return Some(result.Contents()), pass;
    }

    method DueEntries(nextRun: map<string, real>, now: real) returns (due: seq<bool>)
      ensures |due| == |entries|
      ensures forall i :: 0 <= i < |due| ==>
                due[i] == Due(entries[i].config, NextOf(nextRun, entries[i].config.name), entries[i].State(), now)
    {
      due := [];
      for i := 0 to |entries|
        invariant |due| == i
        invariant forall k :: 0 <= k < i ==>
                    due[k] == Due(entries[k].config, NextOf(nextRun, entries[k].config.name), entries[k].State(), now)
      {
        var e := entries[i];
        due := due + [!e.config.disabled && now >= NextOf(nextRun, e.config.name) && now >= e.retryAt];
      }
    }

    method PushOut(nextRun: map<string, real>, due: seq<bool>, now: real) returns (r: map<string, real>)
      requires |due| == |entries|
      ensures r == Pushed(Configs(), nextRun, due, now, |entries|)
    {
      r := nextRun;
      for i := 0 to |entries|
        invariant r == Pushed(Configs(), nextRun, due, now, i)
      {
        if due[i] {
          r := r[entries[i].config.name := now + entries[i].config.interval as real];
        }
      }
    }

    /** `run_forever` until `should_stop` (or an escaped exception): `sent` is what was handed to the sink. */
    method RunForever(ticks: seq<Tick>) returns (sent: seq<Batch>, alive: bool, ghost s: Sched)
      requires Valid()
      modifies entries
      ensures s == RunFrom(Configs(), Initial(Configs()).(healths := old(Healths())), ticks)
      ensures Healths() == s.healths && sent == s.sent && alive == s.alive
    {
      hide Once, Pushed;
      ghost var start := Initial(Configs()).(healths := Healths());
      var nextRun := map c | c in Configs() :: c.name := 0.0;
      sent, alive, s := [], true, start;
      for k := 0 to |ticks|
        invariant s == RunFrom(Configs(), start, ticks[..k])
        invariant alive && s.alive && s.sent == sent && s.nextRun == nextRun && Healths() == s.healths
      {
        var tick := ticks[k];
        assert ticks[..k + 1][..k] == ticks[..k];
        var due := DueEntries(nextRun, tick.now);
        assert due == DueFlags(Configs(), s, tick.now);
        if true in due {
          nextRun := PushOut(nextRun, due, tick.now);
          var batch, pass := RunOnce(due, tick, s.runs);
          s := TickStep(Configs(), s, tick);
          if batch.None? {
            alive := false;
            DeadFor(Configs(), start, ticks, k + 1);
            return;
          }
          if WorthSending(batch.value) {
            sent := sent + [batch.value];
            if tick.sinkRaises(batch.value) {
              alive := false;
              DeadFor(Configs(), start, ticks, k + 1);
              return;
            }
          }
        }
      }
      assert ticks[..|ticks|] == ticks;
    }
  }

  lemma {:induction false} OnceStops(
    configs: seq<Config>, p: Pass, included: seq<bool>, tick: Tick, n: nat, m: nat)
    requires n <= m <= |configs| == |included| == |p.healths| == |p.runs|
    requires Once(configs, p, included, tick, n).batch.None?
    ensures Once(configs, p, included, tick, m) == Once(configs, p, included, tick, n)
  {
    hide Kills, Merged, AfterRun;
    if n < m {
      OnceStops(configs, p, included, tick, n, m - 1);
    }
  }

  lemma {:induction false} DeadFor(configs: seq<Config>, s: Sched, ticks: seq<Tick>, n: nat)
    requires Fits(configs, s) && n <= |ticks|
    requires !RunFrom(configs, s, ticks[..n]).alive
    ensures RunFrom(configs, s, ticks) == RunFrom(configs, s, ticks[..n])
    decreases |ticks|
  {
    if n < |ticks| {
      assert ticks[..|ticks| - 1][..n] == ticks[..n];
      DeadFor(configs, s, ticks[..|ticks| - 1], n);
    } else {
      assert ticks[..n] == ticks;
    }
  }
}
