/** The single-threaded collection loop: due selection, isolation with backoff, assembly. */
module SchedulerSpec {
  import opened Prelude
  import opened Assembly

  /** A collector's registry entry, but for its backoff state. */
  datatype Config = Config(name: string, interval: int, custom: bool, disabled: bool)

  /** How one `collect()` ends: a return, an `Exception` with the clock as the handler reads it,
      or an exception of another kind, such as SystemExit, which the handler does not catch. */
  datatype Collected = Returned(c: Contribution) | Raised(at: real) | Exited

  datatype Health = Health(failures: nat, retryAt: real)

  const BACKOFF_BASE := 300.0
  const BACKOFF_MAX := 3600.0

  function Pow2(n: nat): nat {
    if n == 0 then 1 else 2 * Pow2(n - 1)
  }

  function Cooldown(failures: nat): real
    requires failures >= 1
  {
    var c := BACKOFF_BASE * Pow2(failures - 1) as real;
    if c < BACKOFF_MAX then c else BACKOFF_MAX
  }

  /** From this many failures on, one more makes `2 ** (failures - 1)` too large for a float:
      the handler itself raises, after counting the failure and before setting the retry time. */
  const OVERFLOWING := 1024

  function AfterRun(h: Health, c: Collected): Health {
    match c
    case Returned(_) => Health(0, 0.0)
    case Raised(at) =>
      Health(h.failures + 1, if h.failures >= OVERFLOWING then h.retryAt else at + Cooldown(h.failures + 1))
    case Exited => h
  }

  /** A collection that takes the whole loop down with it. */
  predicate Kills(h: Health, c: Collected) {
    match c
    case Returned(c) => !Mergeable(c)
    case Raised(_) => h.failures >= OVERFLOWING
    case Exited => true
  }

  class Entry {
    const config: Config
    var failures: nat
    var retryAt: real

    constructor (config: Config)
      ensures this.config == config && State() == Health(0, 0.0)
    {
      this.config := config;
      failures, retryAt := 0, 0.0;
    }

    function State(): Health
      reads this
    {
      Health(failures, retryAt)
    }

    /** `_run_entry`; `escaped` when an exception leaves it. */
    method Run(outcome: Collected) returns (payload: Option<Contribution>, escaped: bool)
      modifies this
      ensures State() == AfterRun(old(State()), outcome)
      ensures payload == if outcome.Returned? then Some(outcome.c) else None
      ensures escaped <==> !outcome.Returned? && Kills(old(State()), outcome)
    {
      match outcome
      case Returned(c) =>
        failures := 0;
        retryAt := 0.0;
        return Some(c), false;
      case Raised(at) =>
        failures := failures + 1;
        if failures - 1 >= OVERFLOWING {
          return None, true;
        }
        retryAt := at + Cooldown(failures);
        return None, false;
      case Exited =>
        return None, true;
    }
  }

  // ---- One pass ----

  /** One started collection. */
  datatype Run = Run(start: real, outcome: Collected)

  /** A tick of the loop: the clock, how each entry's collector would end, and on which payloads
      the sink would raise. */
  datatype Tick = Tick(now: real, outcome: nat -> Collected, sinkRaises: Batch -> bool)

  /** A pass in progress; `batch` is None once an exception has left it. */
  datatype Pass = Pass(healths: seq<Health>, runs: seq<seq<Run>>, batch: Option<Batch>)

  /** The first n entries of a pass over those included. */
  function Once(configs: seq<Config>, p: Pass, included: seq<bool>, tick: Tick, n: nat): (r: Pass)
    requires n <= |configs| == |included| == |p.healths| == |p.runs|
    ensures |r.healths| == |p.healths| && |r.runs| == |p.runs|
  {
    if n == 0 then p
    else
      var i := n - 1;
      var q := Once(configs, p, included, tick, i);
      if q.batch.None? || configs[i].disabled || !included[i] then q
      else
        var c := tick.outcome(i);
        Pass(q.healths[i := AfterRun(q.healths[i], c)],
             q.runs[i := q.runs[i] + [Run(tick.now, c)]],
             if Kills(q.healths[i], c) then None
             else if c.Raised? then q.batch
             else Some(Merged(q.batch.value, configs[i].name, configs[i].custom, c.c)))
  }

  // ---- The loop ----

  datatype Sched = Sched(
    nextRun: map<string, real>, healths: seq<Health>, runs: seq<seq<Run>>, sent: seq<Batch>, alive: bool)

  predicate Fits(configs: seq<Config>, s: Sched) {
    |s.healths| == |s.runs| == |configs|
  }

  function NextOf(nextRun: map<string, real>, name: string): real {
    if name in nextRun then nextRun[name] else 0.0
  }

  predicate Due(c: Config, next: real, h: Health, now: real) {
    !c.disabled && now >= next && now >= h.retryAt
  }

  function DueFlags(configs: seq<Config>, s: Sched, now: real): (due: seq<bool>)
    requires Fits(configs, s)
    ensures |due| == |configs|
    ensures forall i :: 0 <= i < |due| ==>
              due[i] == Due(configs[i], NextOf(s.nextRun, configs[i].name), s.healths[i], now)
  {
    seq(|configs|, i requires 0 <= i < |configs| =>
      Due(configs[i], NextOf(s.nextRun, configs[i].name), s.healths[i], now))
  }

  /** `next_run` after the first n entries of the due list were pushed out. */
  function Pushed(configs: seq<Config>, nextRun: map<string, real>, due: seq<bool>, now: real, n: nat)
    : map<string, real>
    requires n <= |configs| == |due|
  {
    if n == 0 then nextRun
    else
      var m := Pushed(configs, nextRun, due, now, n - 1);
      if due[n - 1] then m[configs[n - 1].name := now + configs[n - 1].interval as real] else m
  }

  predicate WorthSending(b: Batch) {
    b.metrics != map[] || b.inventory != map[]
  }

  /** The pass a tick makes over the due entries. */
  function PassOf(configs: seq<Config>, s: Sched, tick: Tick): (p: Pass)
    requires Fits(configs, s)
    ensures |p.healths| == |p.runs| == |configs|
  {
    Once(configs, Pass(s.healths, s.runs, Some(EMPTY)), DueFlags(configs, s, tick.now), tick, |configs|)
  }

  /** The specification of one turn of `run_forever`; `sent` is what was handed to the sink. */
  function TickStep(configs: seq<Config>, s: Sched, tick: Tick): (r: Sched)
    requires Fits(configs, s)
    ensures Fits(configs, r)
  {
    var due := DueFlags(configs, s, tick.now);
    if !s.alive || true !in due then s
    else
      var p := PassOf(configs, s, tick);
      var handed := p.batch.Some? && WorthSending(p.batch.value);
      Sched(Pushed(configs, s.nextRun, due, tick.now, |configs|), p.healths, p.runs,
            if handed then s.sent + [p.batch.value] else s.sent,
            p.batch.Some? && !(handed && tick.sinkRaises(p.batch.value)))
  }

  /** The sink raises on what this tick hands it. */
  predicate SinkRaises(configs: seq<Config>, s: Sched, tick: Tick)
    requires Fits(configs, s)
  {
    var p := PassOf(configs, s, tick);
    && s.alive && true in DueFlags(configs, s, tick.now)
    && p.batch.Some? && WorthSending(p.batch.value) && tick.sinkRaises(p.batch.value)
  }

  /** A due entry's collection takes the loop down. */
  predicate EntryKills(configs: seq<Config>, s: Sched, tick: Tick, i: nat)
    requires Fits(configs, s) && i < |configs|
  {
    DueFlags(configs, s, tick.now)[i] && Kills(s.healths[i], tick.outcome(i))
  }

  function Initial(configs: seq<Config>): (s: Sched)
    ensures Fits(configs, s)
  {
    Sched(map c | c in configs :: c.name := 0.0,
          seq(|configs|, _ => Health(0, 0.0)), seq(|configs|, _ => []), [], true)
  }

  function RunFrom(configs: seq<Config>, s: Sched, ticks: seq<Tick>): (r: Sched)
    requires Fits(configs, s)
    ensures Fits(configs, r)
  {
    if ticks == [] then s
    else TickStep(configs, RunFrom(configs, s, ticks[..|ticks| - 1]), ticks[|ticks| - 1])
  }

  /** The loop over freshly discovered entries. */
  function RunAll(configs: seq<Config>, ticks: seq<Tick>): (s: Sched)
    ensures Fits(configs, s)
  {
    RunFrom(configs, Initial(configs), ticks)
  }

  /** No two enabled entries share a name. */
  predicate DistinctNames(configs: seq<Config>) {
    forall i, j :: 0 <= i < j < |configs| && !configs[i].disabled && !configs[j].disabled
                   ==> configs[i].name != configs[j].name
  }

  // ---- One entry's view ----

  /** What the loop holds about one entry; a disabled one has no use for its slot. */
  datatype Track = Track(next: real, health: Health, runs: seq<Run>)

  function TrackOf(configs: seq<Config>, s: Sched, i: nat): Track
    requires Fits(configs, s) && i < |configs|
  {
    Track(if configs[i].disabled then 0.0 else NextOf(s.nextRun, configs[i].name), s.healths[i], s.runs[i])
  }

  function LoneTick(c: Config, t: Track, now: real, outcome: Collected): Track {
    if !Due(c, t.next, t.health, now) then t
    else Track(now + c.interval as real, AfterRun(t.health, outcome), t.runs + [Run(now, outcome)])
  }

  lemma {:induction false} OnceTouches(configs: seq<Config>, p: Pass, included: seq<bool>, tick: Tick, n: nat, i: nat)
    requires n <= |configs| == |included| == |p.healths| == |p.runs| && i < |configs|
    requires forall k :: 0 <= k < n && included[k] ==> !configs[k].disabled
    requires p.batch.Some?
    ensures var q := Once(configs, p, included, tick, n);
            && (q.batch.Some? <==> forall k :: 0 <= k < n && included[k] ==> !Kills(p.healths[k], tick.outcome(k)))
            && (q.batch.Some? ==>
                  if i < n && included[i] then
                    && q.healths[i] == AfterRun(p.healths[i], tick.outcome(i))
                    && q.runs[i] == p.runs[i] + [Run(tick.now, tick.outcome(i))]
                  else q.healths[i] == p.healths[i] && q.runs[i] == p.runs[i])
  {
    if n == 0 {
    } else {
      OnceTouches(configs, p, included, tick, n - 1, i);
      OnceTouches(configs, p, included, tick, n - 1, n - 1);
      hide Kills, Merged, AfterRun;
      ExitedKills(p.healths[n - 1], tick.outcome(n - 1));
    }
  }

  lemma ExitedKills(h: Health, c: Collected)
    ensures c.Exited? ==> Kills(h, c)
  {
  }

  lemma {:induction false} PushedTouches(
    configs: seq<Config>, nextRun: map<string, real>, due: seq<bool>, now: real, n: nat, i: nat)
    requires n <= |configs| == |due| && i < |configs| && DistinctNames(configs) && !configs[i].disabled
    requires forall k :: 0 <= k < |due| && due[k] ==> !configs[k].disabled
    ensures NextOf(Pushed(configs, nextRun, due, now, n), configs[i].name)
         == if i < n && due[i] then now + configs[i].interval as real else NextOf(nextRun, configs[i].name)
  {
    if n == 0 {
    } else {
      PushedTouches(configs, nextRun, due, now, n - 1, i);
    }
  }

  /** One tick, entry by entry: each moves as it would alone, unless one of them, or the sink,
      ends the loop. */
  lemma TickIsLoneTicks(configs: seq<Config>, s: Sched, tick: Tick, i: nat)
    requires Fits(configs, s) && DistinctNames(configs) && s.alive && i < |configs|
    requires TickStep(configs, s, tick).alive
    ensures TrackOf(configs, TickStep(configs, s, tick), i)
         == LoneTick(configs[i], TrackOf(configs, s, i), tick.now, tick.outcome(i))
  {
    hide Kills, AfterRun, Once, Pushed;
    var due := DueFlags(configs, s, tick.now);
    TickTouches(configs, s, tick, i);
    if true in due && !configs[i].disabled {
      PushedTouches(configs, s.nextRun, due, tick.now, |configs|, i);
    }
  }

  /** Health and attempts of one entry after a tick the loop survives, whatever the names. */
  lemma TickTouches(configs: seq<Config>, s: Sched, tick: Tick, i: nat)
    requires Fits(configs, s) && s.alive && i < |configs| && TickStep(configs, s, tick).alive
    ensures var r, due := TickStep(configs, s, tick), DueFlags(configs, s, tick.now)[i];
            && r.healths[i] == (if due then AfterRun(s.healths[i], tick.outcome(i)) else s.healths[i])
            && r.runs[i] == (if due then s.runs[i] + [Run(tick.now, tick.outcome(i))] else s.runs[i])
  {
    hide Kills, AfterRun, Once, Pushed;
    var due := DueFlags(configs, s, tick.now);
    if true in due {
      OnceTouches(configs, Pass(s.healths, s.runs, Some(EMPTY)), due, tick, |configs|, i);
    } else {
      assert !due[i];
    }
  }

  lemma PassLives(configs: seq<Config>, s: Sched, tick: Tick)
    requires Fits(configs, s) && true in DueFlags(configs, s, tick.now)
    ensures PassOf(configs, s, tick).batch.Some?
       <==> forall i :: 0 <= i < |configs| ==> !EntryKills(configs, s, tick, i)
  {
    hide Kills, Once;
    var due := DueFlags(configs, s, tick.now);
    forall k | 0 <= k < |configs|
      ensures EntryKills(configs, s, tick, k) <==> due[k] && Kills(s.healths[k], tick.outcome(k))
    {
    }
    OnceTouches(configs, Pass(s.healths, s.runs, Some(EMPTY)), due, tick, |configs|, 0);
  }

  /** What ends the loop at a tick. */
  lemma TickLives(configs: seq<Config>, s: Sched, tick: Tick)
    requires Fits(configs, s) && s.alive
    ensures TickStep(configs, s, tick).alive
       <==> !SinkRaises(configs, s, tick) && forall i :: 0 <= i < |configs| ==> !EntryKills(configs, s, tick, i)
  {
    hide Kills, Once, Pushed, WorthSending;
    var due := DueFlags(configs, s, tick.now);
    if true in due {
      PassLives(configs, s, tick);
    } else {
      assert forall k :: 0 <= k < |due| ==> !due[k];
    }
  }

  // ---- Independence ----

  /** The tick as entry i sees it, with a sink that takes everything. */
  function View(tick: Tick, i: nat): Tick {
    Tick(tick.now, _ => tick.outcome(i), _ => false)
  }

  function Project(ticks: seq<Tick>, i: nat): (r: seq<Tick>)
    ensures |r| == |ticks|
  {
    seq(|ticks|, k requires 0 <= k < |ticks| => View(ticks[k], i))
  }

  function Alone(configs: seq<Config>, ticks: seq<Tick>, i: nat): (s: Sched)
    requires i < |configs|
    ensures Fits([configs[i]], s)
  {
    RunAll([configs[i]], Project(ticks, i))
  }

  lemma AloneStep(configs: seq<Config>, ticks: seq<Tick>, i: nat)
    requires i < |configs| && ticks != []
    ensures var m := |ticks| - 1;
            Alone(configs, ticks, i)
            == TickStep([configs[i]], Alone(configs, ticks[..m], i), View(ticks[m], i))
  {
    var lone := Project(ticks, i);
    assert lone[..|lone| - 1] == Project(ticks[..|ticks| - 1], i);
  }

  /** The same entry, in the same state, kills here exactly when it kills alone. */
  lemma KillsAlone(configs: seq<Config>, s: Sched, lone: Sched, i: nat, tick: Tick)
    requires Fits(configs, s) && i < |configs| && Fits([configs[i]], lone) && lone.alive
    requires TrackOf(configs, s, i) == TrackOf([configs[i]], lone, 0)
    ensures TickStep([configs[i]], lone, View(tick, i)).alive <==> !EntryKills(configs, s, tick, i)
  {
    hide Kills, TickStep;
    TickLives([configs[i]], lone, View(tick, i));
    assert EntryKills([configs[i]], lone, View(tick, i), 0) <==> EntryKills(configs, s, tick, i);
  }

  lemma DeadStaysDead(configs: seq<Config>, s: Sched, tick: Tick)
    requires Fits(configs, s)
    ensures TickStep(configs, s, tick).alive ==> s.alive
  {
  }

  /** Every collector is scheduled independently: with distinct names, while the shared loop
      lives, each entry's next run, failures, retry time and every collection it started are
      those of a loop running that entry alone, whatever the others returned or raised. */
  lemma {:induction false} Independent(configs: seq<Config>, ticks: seq<Tick>, i: nat)
    requires DistinctNames(configs) && i < |configs| && RunAll(configs, ticks).alive
    ensures Alone(configs, ticks, i).alive
    ensures TrackOf(configs, RunAll(configs, ticks), i) == TrackOf([configs[i]], Alone(configs, ticks, i), 0)
  {
    hide TickStep, Kills, LoneTick, EntryKills;
    if ticks == [] {
    } else {
      var front, last := ticks[..|ticks| - 1], ticks[|ticks| - 1];
      var s, lone := RunAll(configs, front), Alone(configs, front, i);
      DeadStaysDead(configs, s, last);
      Independent(configs, front, i);
      AloneStep(configs, ticks, i);
      TickLives(configs, s, last);
      KillsAlone(configs, s, lone, i, last);
      TickIsLoneTicks(configs, s, last, i);
      TickIsLoneTicks([configs[i]], lone, View(last, i), 0);
    }
  }

  /** The sink raised on something a run handed it. */
  predicate SinkFailed(configs: seq<Config>, ticks: seq<Tick>) {
    exists n :: 0 <= n < |ticks| && SinkRaises(configs, RunAll(configs, ticks[..n]), ticks[n])
  }

  /** The shared loop ends exactly when the sink raises or some collector would have ended a loop
      of its own. */
  lemma {:induction false} DiesOnlyOfOne(configs: seq<Config>, ticks: seq<Tick>)
    requires DistinctNames(configs)
    ensures RunAll(configs, ticks).alive
       <==> !SinkFailed(configs, ticks)
            && forall i :: 0 <= i < |configs| ==> Alone(configs, ticks, i).alive
  {
    hide TickStep, Kills, Alone, SinkFailed;
    if RunAll(configs, ticks).alive {
      LivesExactlyWhile(configs, ticks);
      NoFailure(configs, ticks);
      forall i | 0 <= i < |configs| ensures Alone(configs, ticks, i).alive {
        Independent(configs, ticks, i);
      }
    } else if !SinkFailed(configs, ticks) {
      var i := Culprit(configs, ticks);
    }
  }

  lemma NoFailure(configs: seq<Config>, ticks: seq<Tick>)
    requires forall n :: 0 <= n < |ticks| ==> !EndsAt(configs, ticks, n)
    ensures !SinkFailed(configs, ticks)
  {
    forall n | 0 <= n < |ticks| ensures !SinkRaises(configs, RunAll(configs, ticks[..n]), ticks[n]) {
      assert !EndsAt(configs, ticks, n);
    }
  }

  lemma SinkFailedLater(configs: seq<Config>, ticks: seq<Tick>)
    requires ticks != []
    ensures SinkFailed(configs, ticks[..|ticks| - 1]) ==> SinkFailed(configs, ticks)
  {
    hide SinkRaises, RunAll;
    var front := ticks[..|ticks| - 1];
    if n :| 0 <= n < |front| && SinkRaises(configs, RunAll(configs, front[..n]), front[n]) {
      assert front[..n] == ticks[..n];
      assert SinkRaises(configs, RunAll(configs, ticks[..n]), ticks[n]);
    }
  }

  lemma {:induction false} Culprit(configs: seq<Config>, ticks: seq<Tick>) returns (i: nat)
    requires DistinctNames(configs) && !RunAll(configs, ticks).alive && !SinkFailed(configs, ticks)
    ensures i < |configs| && !Alone(configs, ticks, i).alive
  {
    hide TickStep, Kills, Alone, EntryKills, SinkRaises;
    var front, last := ticks[..|ticks| - 1], ticks[|ticks| - 1];
    var s := RunAll(configs, front);
    SinkFailedLater(configs, ticks);
    if !s.alive {
      i := Culprit(configs, front);
      AloneStep(configs, ticks, i);
      DeadStaysDead([configs[i]], Alone(configs, front, i), View(last, i));
    } else {
      TickLives(configs, s, last);
      assert !SinkRaises(configs, RunAll(configs, ticks[..|ticks| - 1]), ticks[|ticks| - 1]);
      i :| 0 <= i < |configs| && EntryKills(configs, s, last, i);
      Independent(configs, front, i);
      AloneStep(configs, ticks, i);
      KillsAlone(configs, s, Alone(configs, front, i), i, last);
    }
  }

  /** Tick n ends the loop: a due collection kills it, or the sink raises. */
  predicate EndsAt(configs: seq<Config>, ticks: seq<Tick>, n: nat)
    requires n < |ticks|
  {
    var s := RunAll(configs, ticks[..n]);
    || SinkRaises(configs, s, ticks[n])
    || exists i :: 0 <= i < |configs| && EntryKills(configs, s, ticks[n], i)
  }

  /** What can end the loop, in full: the sink raising, or a due collection that returns what
      `_merge` cannot take, exits, or raises once more after 1024 failures in a row. */
  lemma {:induction false} LivesExactlyWhile(configs: seq<Config>, ticks: seq<Tick>)
    ensures RunAll(configs, ticks).alive <==> forall n :: 0 <= n < |ticks| ==> !EndsAt(configs, ticks, n)
  {
    hide TickStep, Kills, EntryKills, SinkRaises;
    if ticks == [] {
    } else {
      var m := |ticks| - 1;
      LivesExactlyWhile(configs, ticks[..m]);
      DeadStaysDead(configs, RunAll(configs, ticks[..m]), ticks[m]);
      if RunAll(configs, ticks[..m]).alive {
        TickLives(configs, RunAll(configs, ticks[..m]), ticks[m]);
      }
      assert RunAll(configs, ticks).alive
        <==> RunAll(configs, ticks[..m]).alive && !EndsAt(configs, ticks, m);
      forall n | 0 <= n < m ensures EndsAt(configs, ticks[..m], n) <==> EndsAt(configs, ticks, n) {
        assert ticks[..m][..n] == ticks[..n];
      }
    }
  }

  /** The fatal collections in full: an exit; a raise after 1024 failures in a row; a payload that is
      no dict or has a section of the wrong type, a metric key that is no string, a sensor that
      cannot be read, or a numeric reading in C, rpm, V, W or A without an id. */
  lemma KillsExactly(h: Health, c: Collected)
    ensures Kills(h, c)
       <==> match c
            case Exited => true
            case Raised(_) => h.failures >= 1024
            case Returned(NoDict) => true
            case Returned(Contribution(metrics, sensors, inventory)) =>
              || metrics.Broken? || sensors.Broken? || inventory.Broken?
              || (exists i :: 0 <= i < |metrics.items| && metrics.items[i].0.NoString?)
              || (exists i :: 0 <= i < |sensors.items| && Fatal(sensors.items[i]))
  {
    if c.Returned? && c.c.Contribution? && c.c.sensors.Section? {
      forall i | 0 <= i < |c.c.sensors.items|
        ensures Fatal(c.c.sensors.items[i]) <==> !Readable(c.c.sensors.items[i])
      {
      }
    }
  }

  predicate Fatal(s: Reading) {
    s.Unreadable? || (s.unit in {"C", "rpm", "V", "W", "A"} && s.value.Number? && s.id.None?)
  }

  // ---- Inputs that end the loop ----

  /** The minimal plugin of the project's own README: a temperature without an id. */
  const EXOTIC := Contribution(
    Section([(Name("temp_board2"), Number(47.5))]),
    Section([Sensor(None, "C", Number(47.5), "Board #2")]), Section([]))

  /** One tick with that plugin ends the loop. */
  lemma DocumentedPluginEndsLoop()
    ensures !RunAll([Config("my_exotic", 60, true, false)], [Tick(0.0, _ => Returned(EXOTIC), _ => false)]).alive
  {
    var configs := [Config("my_exotic", 60, true, false)];
    var ticks := [Tick(0.0, _ => Returned(EXOTIC), _ => false)];
    LivesExactlyWhile(configs, ticks);
    assert !Readable(EXOTIC.sensors.items[0]);
    assert ticks[..0] == [];
    assert EntryKills(configs, RunAll(configs, ticks[..0]), ticks[0], 0);
    assert EndsAt(configs, ticks, 0);
  }

  const FLAKY := Config("flaky", 60, false, false)

  function HourlyTick(k: nat): Tick {
    var now := 3600.0 * k as real;
    Tick(now, _ => Raised(now), _ => false)
  }

  /** n ticks an hour apart, at each of which the collector raises. */
  function HourlyFailures(n: nat): (ticks: seq<Tick>)
    ensures |ticks| == n
  {
    seq(n, k requires 0 <= k < n => HourlyTick(k))
  }

  lemma HourlyFront(n: nat)
    requires n > 0
    ensures HourlyFailures(n)[..n - 1] == HourlyFailures(n - 1) && HourlyFailures(n)[n - 1] == HourlyTick(n - 1)
  {
  }

  /** A collector that always raises is survived for 1024 attempts, and ends the loop at the
      next one. */
  lemma {:induction false} EndlessFailureEndsLoop(n: nat)
    ensures RunAll([FLAKY], HourlyFailures(n)).alive <==> n <= 1024
    ensures n <= 1024 ==> FailedHourly(TrackOf([FLAKY], RunAll([FLAKY], HourlyFailures(n)), 0), n)
  {
    if n == 0 {
      NoFailureYet();
    } else {
      hide TickStep, FailedHourly, HourlyTick, HourlyFailures, TrackOf, RunAll;
      EndlessFailureEndsLoop(n - 1);
      HourlyRun(n);
      var s := RunAll([FLAKY], HourlyFailures(n - 1));
      DeadStaysDead([FLAKY], s, HourlyTick(n - 1));
      if s.alive {
        HourlyStep(s, n - 1);
      }
    }
  }

  lemma NoFailureYet()
    ensures RunAll([FLAKY], HourlyFailures(0)).alive
    ensures FailedHourly(TrackOf([FLAKY], RunAll([FLAKY], HourlyFailures(0)), 0), 0)
  {
  }

  lemma HourlyRun(n: nat)
    requires n > 0
    ensures RunAll([FLAKY], HourlyFailures(n))
         == TickStep([FLAKY], RunAll([FLAKY], HourlyFailures(n - 1)), HourlyTick(n - 1))
  {
    hide TickStep;
    HourlyFront(n);
  }

  /** After k failures on the hour the entry is due again at hour k. */
  predicate FailedHourly(t: Track, k: nat) {
    t.health.failures == k && t.next <= 3600.0 * k as real && t.health.retryAt <= 3600.0 * k as real
  }

  lemma HourlyStep(s: Sched, k: nat)
    requires Fits([FLAKY], s) && s.alive && FailedHourly(TrackOf([FLAKY], s, 0), k)
    ensures TickStep([FLAKY], s, HourlyTick(k)).alive <==> k < OVERFLOWING
    ensures k < OVERFLOWING ==> FailedHourly(TrackOf([FLAKY], TickStep([FLAKY], s, HourlyTick(k)), 0), k + 1)
  {
    hide TickStep, Cooldown;
    TickLives([FLAKY], s, HourlyTick(k));
    assert EntryKills([FLAKY], s, HourlyTick(k), 0) <==> k >= OVERFLOWING;
    if k < OVERFLOWING {
      CooldownAtMostHour(k + 1);
      TickIsLoneTicks([FLAKY], s, HourlyTick(k), 0);
    }
  }

  lemma CooldownAtMostHour(k: nat)
    requires k >= 1
    ensures Cooldown(k) <= 3600.0
  {
  }

  // ---- Why names must be distinct ----

  /** Every entry's track is always that of a loop of its own. */
  ghost predicate AllIndependent(configs: seq<Config>) {
    forall i: nat, ticks: seq<Tick> :: i < |configs| && RunAll(configs, ticks).alive ==>
      TrackOf(configs, RunAll(configs, ticks), i) == TrackOf([configs[i]], Alone(configs, ticks, i), 0)
  }

  /** Every entry always starts the collections a loop of its own would. */
  ghost predicate SameAttempts(configs: seq<Config>) {
    forall i: nat, ticks: seq<Tick> :: i < |configs| && RunAll(configs, ticks).alive ==>
      RunAll(configs, ticks).runs[i] == Alone(configs, ticks, i).runs[0]
  }

  /** The largest interval, in absolute value. */
  function Reach(configs: seq<Config>): (b: int)
    ensures b >= 0 && forall c :: c in configs ==> -b <= c.interval <= b
  {
    if configs == [] then 0
    else
      var rest, v := Reach(configs[1..]), configs[0].interval;
      var size := if v < 0 then -v else v;
      if size > rest then size else rest
  }

  /** A slot some due entry writes ends within its intervals of `now`; others stay. */
  lemma {:induction false} PushedSlot(
    configs: seq<Config>, nextRun: map<string, real>, due: seq<bool>, now: real, n: nat, name: string, lo: int, hi: int)
    requires n <= |configs| == |due|
    requires forall k :: 0 <= k < n && due[k] ==> lo <= configs[k].interval <= hi
    ensures var slot := NextOf(Pushed(configs, nextRun, due, now, n), name);
            if exists k :: 0 <= k < n && due[k] && configs[k].name == name
            then now + lo as real <= slot <= now + hi as real
            else slot == NextOf(nextRun, name)
  {
    if n == 0 {
    } else {
      PushedSlot(configs, nextRun, due, now, n - 1, name, lo, hi);
      if due[n - 1] && configs[n - 1].name == name {
        assert exists k :: 0 <= k < n && due[k] && configs[k].name == name;
      } else if k :| 0 <= k < n && due[k] && configs[k].name == name {
        assert k < n - 1;
      }
    }
  }

  lemma SlotAfter(configs: seq<Config>, s: Sched, tick: Tick, j: nat, lo: int, hi: int)
    requires Fits(configs, s) && s.alive && j < |configs| && DueFlags(configs, s, tick.now)[j]
    requires forall c :: c in configs && !c.disabled ==> lo <= c.interval <= hi
    ensures tick.now + lo as real <= NextOf(TickStep(configs, s, tick).nextRun, configs[j].name)
                                  <= tick.now + hi as real
  {
    hide Once, Pushed;
    PushedSlot(configs, s.nextRun, DueFlags(configs, s, tick.now), tick.now, |configs|, configs[j].name, lo, hi);
  }

  const NOTHING := Returned(Contribution(Section([]), Section([]), Section([])))

  /** A tick at which entry i ends as given, the others return nothing, and the sink is silent. */
  function Quiet(now: real, i: nat, outcome: Collected): Tick {
    Tick(now, k => if k == i then outcome else NOTHING, _ => false)
  }

  lemma QuietLives(configs: seq<Config>, s: Sched, now: real, i: nat, outcome: Collected)
    requires Fits(configs, s) && s.alive && i < |configs|
    requires outcome == NOTHING || (outcome.Raised? && s.healths[i].failures == 0)
    ensures TickStep(configs, s, Quiet(now, i, outcome)).alive
  {
    hide TickStep;
    TickLives(configs, s, Quiet(now, i, outcome));
  }

  /** A moment far past every interval. */
  function Late(configs: seq<Config>): real {
    4.0 * Reach(configs) as real + 300.0
  }

  /** Entry i fails at 0, and is still cooling down when the others come round again. */
  function FirstFailure(configs: seq<Config>, i: nat): Tick {
    Quiet(0.0, i, Raised(Late(configs) - 299.5))
  }

  function OthersAgain(configs: seq<Config>, i: nat): Tick {
    Quiet(Late(configs), i, NOTHING)
  }

  function ItsTurn(configs: seq<Config>, i: nat): Tick {
    Quiet(Late(configs) + 0.75, i, NOTHING)
  }

  lemma FirstCooldown()
    ensures Cooldown(1) == 300.0
  {
    assert Pow2(0) == 1;
  }

  lemma AfterFailure(configs: seq<Config>, i: nat, j: nat) returns (s: Sched)
    requires i < |configs| && j < |configs| && i != j && !configs[i].disabled && !configs[j].disabled
    ensures Fits(configs, s) && s.alive && s == RunAll(configs, [FirstFailure(configs, i)])
    ensures s.healths[i] == Health(1, Late(configs) + 0.5) && |s.runs[i]| == 1
    ensures s.healths[j] == Health(0, 0.0)
    ensures NextOf(s.nextRun, configs[j].name) <= Reach(configs) as real
  {
    hide TickStep, Cooldown, Kills, Reach;
    var s0, tick, b := Initial(configs), FirstFailure(configs, i), Reach(configs);
    assert [tick][..0] == [];
    assert RunFrom(configs, s0, [tick][..0]) == s0;
    s := TickStep(configs, s0, tick);
    assert DueFlags(configs, s0, 0.0)[i] && DueFlags(configs, s0, 0.0)[j];
    QuietLives(configs, s0, 0.0, i, Raised(Late(configs) - 299.5));
    TickTouches(configs, s0, tick, i);
    TickTouches(configs, s0, tick, j);
    SlotAfter(configs, s0, tick, j, -b, b);
    FirstCooldown();
  }

  lemma AfterOthers(configs: seq<Config>, i: nat, j: nat, lo: int) returns (s: Sched)
    requires i < |configs| && j < |configs| && i != j && !configs[i].disabled && !configs[j].disabled
    requires configs[i].name == configs[j].name && -Reach(configs) <= lo
    requires forall c :: c in configs && !c.disabled ==> lo <= c.interval
    ensures Fits(configs, s) && s.alive
    ensures s == RunAll(configs, [FirstFailure(configs, i), OthersAgain(configs, i)])
    ensures s.healths[i] == Health(1, Late(configs) + 0.5) && |s.runs[i]| == 1
    ensures NextOf(s.nextRun, configs[i].name) >= Late(configs) + lo as real
  {
    hide TickStep, Cooldown, Kills, Reach;
    var t0, t1 := FirstFailure(configs, i), OthersAgain(configs, i);
    var s1 := AfterFailure(configs, i, j);
    assert [t0, t1][..1] == [t0];
    s := TickStep(configs, s1, t1);
    assert DueFlags(configs, s1, t1.now)[j] && !DueFlags(configs, s1, t1.now)[i];
    QuietLives(configs, s1, t1.now, i, NOTHING);
    TickTouches(configs, s1, t1, i);
    SlotAfter(configs, s1, t1, j, lo, Reach(configs));
  }

  lemma AloneAfterOthers(configs: seq<Config>, i: nat) returns (s: Sched)
    requires i < |configs| && !configs[i].disabled
    ensures Fits([configs[i]], s) && s.alive
    ensures s == Alone(configs, [FirstFailure(configs, i), OthersAgain(configs, i)], i)
    ensures var t := TrackOf([configs[i]], s, 0);
            && t.next == configs[i].interval as real && t.health == Health(1, Late(configs) + 0.5)
            && |t.runs| == 1
  {
    hide TickStep, Kills, Cooldown, Reach;
    var t0, t1, one := FirstFailure(configs, i), OthersAgain(configs, i), [configs[i]];
    assert [t0][..0] == [] && [t0, t1][..1] == [t0];
    AloneStep(configs, [t0], i);
    AloneStep(configs, [t0, t1], i);
    var s0 := Alone(configs, [], i);
    var s1 := TickStep(one, s0, View(t0, i));
    s := TickStep(one, s1, View(t1, i));
    LoneLives(one, s0, View(t0, i));
    TickIsLoneTicks(one, s0, View(t0, i), 0);
    FirstCooldown();
    LoneLives(one, s1, View(t1, i));
    TickIsLoneTicks(one, s1, View(t1, i), 0);
  }

  lemma LoneLives(one: seq<Config>, s: Sched, tick: Tick)
    requires |one| == 1 && Fits(one, s) && s.alive && forall b :: !tick.sinkRaises(b)
    requires tick.outcome(0) == NOTHING || (tick.outcome(0).Raised? && s.healths[0].failures == 0)
    ensures TickStep(one, s, tick).alive
  {
    hide TickStep;
    TickLives(one, s, tick);
  }

  /** Exactly when the shared loop is a set of independent loops: no two enabled entries share a
      name, whatever their intervals. */
  lemma IndependentExactly(configs: seq<Config>)
    ensures AllIndependent(configs) <==> DistinctNames(configs)
  {
    hide TickStep, RunAll, Alone, TrackOf;
    if DistinctNames(configs) {
      forall i: nat, ticks: seq<Tick> | i < |configs| && RunAll(configs, ticks).alive
        ensures TrackOf(configs, RunAll(configs, ticks), i) == TrackOf([configs[i]], Alone(configs, ticks, i), 0)
      {
        Independent(configs, ticks, i);
      }
    } else {
      var i, j :| 0 <= i < j < |configs| && !configs[i].disabled && !configs[j].disabled
                  && configs[i].name == configs[j].name;
      TracksPart(configs, i, j);
    }
  }

  lemma TracksPart(configs: seq<Config>, i: nat, j: nat)
    requires i < |configs| && j < |configs| && i != j && !configs[i].disabled && !configs[j].disabled
    requires configs[i].name == configs[j].name
    ensures var ticks := [FirstFailure(configs, i), OthersAgain(configs, i)];
            && RunAll(configs, ticks).alive
            && TrackOf(configs, RunAll(configs, ticks), i) != TrackOf([configs[i]], Alone(configs, ticks, i), 0)
  {
    hide TickStep, RunAll, Alone;
    var s := AfterOthers(configs, i, j, -Reach(configs));
    var lone := AloneAfterOthers(configs, i);
    assert configs[i] in configs;
  }

  /** With positive intervals it shows in what is collected: the same condition decides whether
      every entry always starts the collections a loop of its own would. */
  lemma SameAttemptsExactly(configs: seq<Config>)
    requires forall c :: c in configs && !c.disabled ==> c.interval >= 1
    ensures SameAttempts(configs) <==> DistinctNames(configs)
  {
    hide TickStep, RunAll, Alone;
    if DistinctNames(configs) {
      forall i: nat, ticks: seq<Tick> | i < |configs| && RunAll(configs, ticks).alive
        ensures RunAll(configs, ticks).runs[i] == Alone(configs, ticks, i).runs[0]
      {
        Independent(configs, ticks, i);
      }
    } else {
      var i, j :| 0 <= i < j < |configs| && !configs[i].disabled && !configs[j].disabled
                  && configs[i].name == configs[j].name;
      AttemptIsLost(configs, i, j);
    }
  }

  /** Any two enabled entries of one name: the one pushes out the other, which loses an attempt
      it would have made alone. */
  lemma AttemptIsLost(configs: seq<Config>, i: nat, j: nat)
    requires i < |configs| && j < |configs| && i != j && !configs[i].disabled && !configs[j].disabled
    requires configs[i].name == configs[j].name
    requires forall c :: c in configs && !c.disabled ==> c.interval >= 1
    ensures var ticks := [FirstFailure(configs, i), OthersAgain(configs, i), ItsTurn(configs, i)];
            && RunAll(configs, ticks).alive
            && |RunAll(configs, ticks).runs[i]| == 1 && |Alone(configs, ticks, i).runs[0]| == 2
  {
    hide TickStep, Kills, Reach;
    var t2 := ItsTurn(configs, i);
    var two := [FirstFailure(configs, i), OthersAgain(configs, i)];
    var three := [FirstFailure(configs, i), OthersAgain(configs, i), t2];
    assert three[..2] == two;
    var s := AfterOthers(configs, i, j, 1);
    QuietLives(configs, s, t2.now, i, NOTHING);
    TickTouches(configs, s, t2, i);
    var lone := AloneAfterOthers(configs, i);
    AloneStep(configs, three, i);
    LoneLives([configs[i]], lone, View(t2, i));
    TickIsLoneTicks([configs[i]], lone, View(t2, i), 0);
    assert configs[i] in configs;
  }

  const FAST := Config("gpu", 10, false, false)
  const SLOW := Config("gpu", 100, false, false)

  /** An example without failures: the slower of two entries of one name postpones the faster,
      which alone would have run again after ten seconds. */
  lemma SharedNamesInterfere(c: Collected)
    requires !Kills(Health(0, 0.0), c)
    ensures var ticks := [Tick(0.0, _ => c, _ => false), Tick(10.0, _ => c, _ => false)];
            && |RunAll([FAST, SLOW], ticks).runs[0]| == 1
            && (c.Returned? ==> |Alone([FAST, SLOW], ticks, 0).runs[0]| == 2)
  {
    hide TickStep, Kills;
    var t0, t1 := Tick(0.0, _ => c, _ => false), Tick(10.0, _ => c, _ => false);
    var ticks := [t0, t1];
    assert ticks[..1] == [t0] && [t0][..0] == [];
    var configs := [FAST, SLOW];
    assert RunFrom(configs, Initial(configs), [t0][..0]) == Initial(configs);
    assert RunAll(configs, [t0]) == TickStep(configs, Initial(configs), t0);
    SharedFirstTick(t0, c);
    NobodyDue([FAST, SLOW], RunAll([FAST, SLOW], [t0]), t1);
    if c.Returned? {
      LoneFastRunsTwice(ticks, t0, t1, c);
    }
  }

  lemma NobodyDue(configs: seq<Config>, s: Sched, tick: Tick)
    requires Fits(configs, s)
    ensures (forall i :: 0 <= i < |configs| ==> !DueFlags(configs, s, tick.now)[i])
            ==> TickStep(configs, s, tick) == s
  {
  }

  lemma SharedFirstTick(t0: Tick, c: Collected)
    requires t0.now == 0.0 && t0.outcome(0) == c
    requires !Kills(Health(0, 0.0), c) && t0.outcome(1) == c
    ensures var s := TickStep([FAST, SLOW], Initial([FAST, SLOW]), t0);
            s.nextRun == map["gpu" := 100.0] && |s.runs[0]| == 1
  {
    hide Once, Kills, AfterRun;
    var s0 := Initial([FAST, SLOW]);
    var due := DueFlags([FAST, SLOW], s0, 0.0);
    assert due == [true, true];
    assert s0.nextRun.Keys == {"gpu"};
    assert Pushed([FAST, SLOW], s0.nextRun, due, 0.0, 1) == s0.nextRun["gpu" := 10.0];
    OnceTouches([FAST, SLOW], Pass(s0.healths, s0.runs, Some(EMPTY)), due, t0, 2, 0);
    assert Pushed([FAST, SLOW], s0.nextRun, due, 0.0, 2)
        == Pushed([FAST, SLOW], s0.nextRun, due, 0.0, 1)["gpu" := 100.0];
  }

  lemma LoneFastRunsTwice(ticks: seq<Tick>, t0: Tick, t1: Tick, c: Collected)
    requires ticks == [t0, t1] && t0.now == 0.0 && t1.now == 10.0
    requires t0.outcome(0) == t1.outcome(0) == c && c.Returned? && !Kills(Health(0, 0.0), c)
    ensures |Alone([FAST, SLOW], ticks, 0).runs[0]| == 2
  {
    hide TickStep, Kills;
    var configs := [FAST, SLOW];
    assert ticks[..1] == [t0] && [t0][..0] == [];
    var s0 := Alone(configs, [], 0);
    var u0, u1 := View(t0, 0), View(t1, 0);
    AloneStep(configs, [t0], 0);
    AloneStep(configs, ticks, 0);
    TickLives([FAST], s0, u0);
    TickIsLoneTicks([FAST], s0, u0, 0);
    var s1 := TickStep([FAST], s0, u0);
    TickLives([FAST], s1, u1);
    TickIsLoneTicks([FAST], s1, u1, 0);
  }
}
