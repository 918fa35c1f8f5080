/** The payload of one pass as a closed form of what its collectors returned. */
module Payloads {
  import opened Prelude
  import opened Assembly
  import opened SchedulerSpec

  /** Entry i contributes to the pass. */
  predicate Contributes(configs: seq<Config>, included: seq<bool>, tick: Tick, i: nat)
    requires i < |configs| == |included|
  {
    !configs[i].disabled && included[i] && tick.outcome(i).Returned?
  }

  function AllWrites(configs: seq<Config>, included: seq<bool>, tick: Tick, n: nat): seq<(string, Value)>
    requires n <= |configs| == |included|
  {
    if n == 0 then []
    else
      var front, i := AllWrites(configs, included, tick, n - 1), n - 1;
      if Contributes(configs, included, tick, i)
      then front + Writes(configs[i].name, configs[i].custom, tick.outcome(i).c) else front
  }

  function AllSensors(configs: seq<Config>, included: seq<bool>, tick: Tick, n: nat): seq<Reading>
    requires n <= |configs| == |included|
  {
    if n == 0 then []
    else
      var front, i := AllSensors(configs, included, tick, n - 1), n - 1;
      if Contributes(configs, included, tick, i) then front + SensorsOf(tick.outcome(i).c) else front
  }

  function AllInventory(configs: seq<Config>, included: seq<bool>, tick: Tick, n: nat): seq<(string, Inventory)>
    requires n <= |configs| == |included|
  {
    if n == 0 then []
    else
      var front, i := AllInventory(configs, included, tick, n - 1), n - 1;
      if Contributes(configs, included, tick, i) then front + InventoryOf(tick.outcome(i).c) else front
  }

  lemma {:induction false} PassIsFold(configs: seq<Config>, p: Pass, included: seq<bool>, tick: Tick, n: nat)
    requires n <= |configs| == |included| == |p.healths| == |p.runs| && p.batch == Some(EMPTY)
    requires Once(configs, p, included, tick, n).batch.Some?
    ensures Once(configs, p, included, tick, n).batch.value
         == Batch(Put(map[], AllWrites(configs, included, tick, n)),
                  AllSensors(configs, included, tick, n),
                  PutInventory(map[], AllInventory(configs, included, tick, n)))
  {
    hide Put, PutInventory, Writes, AfterRun;
    if n == 0 {
      EmptyPuts();
    } else {
      var i := n - 1;
      PassIsFold(configs, p, included, tick, i);
      if Contributes(configs, included, tick, i) {
        PutConcat(map[], AllWrites(configs, included, tick, i),
                  Writes(configs[i].name, configs[i].custom, tick.outcome(i).c));
        PutInventoryConcat(map[], AllInventory(configs, included, tick, i), InventoryOf(tick.outcome(i).c));
      }
    }
  }

  lemma EmptyPuts()
    ensures Put(map[], []) == map[] && PutInventory(map[], []) == map[]
  {
  }

  /** A metric key of an assembled payload holds the last value written to it, over all prefixed
      collector metrics and sensor mirrors in entry order. */
  lemma MetricIsLastWrite(configs: seq<Config>, p: Pass, included: seq<bool>, tick: Tick, key: string)
    requires |configs| == |included| == |p.healths| == |p.runs| && p.batch == Some(EMPTY)
    requires Once(configs, p, included, tick, |configs|).batch.Some?
    ensures var m := Once(configs, p, included, tick, |configs|).batch.value.metrics;
            var w := AllWrites(configs, included, tick, |configs|);
            && (key in m <==> exists i :: 0 <= i < |w| && w[i].0 == key)
            && (key in m ==> exists i :: LastWrite(w, i, key, m[key]))
  {
    hide Once, AllWrites, AllSensors, AllInventory;
    PassIsFold(configs, p, included, tick, |configs|);
    PutIsLastWrite(AllWrites(configs, included, tick, |configs|), key);
  }

  /** An inventory key holds its last value if that is no list, else all its lists since then,
      concatenated in entry order; the sensor list is the concatenation of all. */
  lemma InventoryIsCombined(configs: seq<Config>, p: Pass, included: seq<bool>, tick: Tick, key: string)
    requires |configs| == |included| == |p.healths| == |p.runs| && p.batch == Some(EMPTY)
    requires Once(configs, p, included, tick, |configs|).batch.Some?
    ensures var b := Once(configs, p, included, tick, |configs|).batch.value;
            var vs := ValuesFor(AllInventory(configs, included, tick, |configs|), key);
            && (key in b.inventory <==> vs != [])
            && (key in b.inventory ==> b.inventory[key] == Combined(vs))
            && b.sensors == AllSensors(configs, included, tick, |configs|)
  {
    hide Once, AllWrites, AllSensors, AllInventory;
    PassIsFold(configs, p, included, tick, |configs|);
    PutInventoryIsCombined(AllInventory(configs, included, tick, |configs|), key);
  }

  /** A pass reaches the sink exactly when some collector wrote a metric, a mirrored sensor or an
      inventory key: sensors that mirror to no metric are not sent on their own. */
  lemma SentExactlyWhen(configs: seq<Config>, p: Pass, included: seq<bool>, tick: Tick)
    requires |configs| == |included| == |p.healths| == |p.runs| && p.batch == Some(EMPTY)
    requires Once(configs, p, included, tick, |configs|).batch.Some?
    ensures WorthSending(Once(configs, p, included, tick, |configs|).batch.value)
       <==> AllWrites(configs, included, tick, |configs|) != []
            || AllInventory(configs, included, tick, |configs|) != []
  {
    hide Once, AllWrites, AllSensors, AllInventory;
    PassIsFold(configs, p, included, tick, |configs|);
    PutFills(AllWrites(configs, included, tick, |configs|));
    PutInventoryFills(AllInventory(configs, included, tick, |configs|));
  }

  lemma PutFills(writes: seq<(string, Value)>)
    ensures Put(map[], writes) != map[] <==> writes != []
  {
    if writes != [] {
      assert writes[|writes| - 1].0 in Put(map[], writes);
    }
  }

  lemma PutInventoryFills(items: seq<(string, Inventory)>)
    ensures PutInventory(map[], items) != map[] <==> items != []
  {
    if items != [] {
      assert items[|items| - 1].0 in PutInventory(map[], items);
    }
  }

  // ---- What reaches the sink ----

  /** The payload of a tick, put together from what the due entries returned. */
  function TickBatch(configs: seq<Config>, s: Sched, tick: Tick): Batch
    requires Fits(configs, s)
  {
    var due := DueFlags(configs, s, tick.now);
    Batch(Put(map[], AllWrites(configs, due, tick, |configs|)),
          AllSensors(configs, due, tick, |configs|),
          PutInventory(map[], AllInventory(configs, due, tick, |configs|)))
  }

  /** No due collection ends the loop, and some due entry wrote a metric, a mirrored sensor or an
      inventory key. */
  predicate Hands(configs: seq<Config>, s: Sched, tick: Tick)
    requires Fits(configs, s)
  {
    var due := DueFlags(configs, s, tick.now);
    && s.alive && (forall i :: 0 <= i < |configs| ==> !EntryKills(configs, s, tick, i))
    && (AllWrites(configs, due, tick, |configs|) != [] || AllInventory(configs, due, tick, |configs|) != [])
  }

  lemma {:induction false} NoneDueNoneWritten(configs: seq<Config>, due: seq<bool>, tick: Tick, n: nat)
    requires n <= |configs| == |due| && true !in due
    ensures AllWrites(configs, due, tick, n) == [] && AllInventory(configs, due, tick, n) == []
  {
    if n > 0 {
      NoneDueNoneWritten(configs, due, tick, n - 1);
      assert due[n - 1] in due;
    }
  }

  /** One tick hands the sink exactly its payload when there is one worth handing over, and nothing
      otherwise; it is survived exactly when no due collection is fatal and the sink takes it. */
  lemma TickSends(configs: seq<Config>, s: Sched, tick: Tick)
    requires Fits(configs, s)
    ensures var handed := Hands(configs, s, tick);
            var r := TickStep(configs, s, tick);
            && r.sent == (if handed then s.sent + [TickBatch(configs, s, tick)] else s.sent)
            && (r.alive <==> s.alive && (forall i :: 0 <= i < |configs| ==> !EntryKills(configs, s, tick, i))
                             && !(handed && tick.sinkRaises(TickBatch(configs, s, tick))))
  {
    hide Once, Kills, Put, PutInventory, AllWrites, AllSensors, AllInventory, WorthSending, Pushed;
    var due := DueFlags(configs, s, tick.now);
    if s.alive {
      TickLives(configs, s, tick);
      if true in due {
        PassLives(configs, s, tick);
        var start := Pass(s.healths, s.runs, Some(EMPTY));
        if PassOf(configs, s, tick).batch.Some? {
          PassIsFold(configs, start, due, tick, |configs|);
          SentExactlyWhen(configs, start, due, tick);
        }
      } else {
        NoneDueNoneWritten(configs, due, tick, |configs|);
      }
    }
  }

  /** The payloads of a run, tick by tick. */
  function Handed(configs: seq<Config>, ticks: seq<Tick>): seq<Batch> {
    if ticks == [] then []
    else
      var front, last := ticks[..|ticks| - 1], ticks[|ticks| - 1];
      var s := RunAll(configs, front);
      Handed(configs, front) + if Hands(configs, s, last) then [TickBatch(configs, s, last)] else []
  }

  /** Over every run the sink is handed the payload of each tick that has one, in order, and
      nothing else. */
  lemma {:induction false} RunSends(configs: seq<Config>, ticks: seq<Tick>)
    ensures RunAll(configs, ticks).sent == Handed(configs, ticks)
  {
    hide TickStep, Hands, TickBatch;
    if ticks == [] {
    } else {
      RunSends(configs, ticks[..|ticks| - 1]);
      TickSends(configs, RunAll(configs, ticks[..|ticks| - 1]), ticks[|ticks| - 1]);
    }
  }

  lemma {:induction false} WritesAreKept(
    configs: seq<Config>, included: seq<bool>, tick: Tick, n: nat, i: nat, w: (string, Value))
    requires i < n <= |configs| == |included| && Contributes(configs, included, tick, i)
    requires w in Writes(configs[i].name, configs[i].custom, tick.outcome(i).c)
    ensures w in AllWrites(configs, included, tick, n)
  {
    hide Writes;
    if i < n - 1 {
      WritesAreKept(configs, included, tick, n - 1, i, w);
    }
  }

  /** Whatever is collected is delivered: at every tick of a run that the loop survives, a metric
      returned by a collection started there is in the one payload handed over at that tick, under
      its own key or, from a custom collector, behind `custom.<name>.`. */
  lemma CollectedReachesSink(
    configs: seq<Config>, ticks: seq<Tick>, m: nat, i: nat, c: Contribution, j: nat)
    requires m < |ticks| && i < |configs| && RunAll(configs, ticks[..m + 1]).alive
    requires RunAll(configs, ticks[..m + 1]).runs[i] != RunAll(configs, ticks[..m]).runs[i]
    requires ticks[m].outcome(i) == Returned(c) && c.Contribution? && c.metrics.Section?
    requires j < |c.metrics.items| && c.metrics.items[j].0.Name?
    ensures var b := TickBatch(configs, RunAll(configs, ticks[..m]), ticks[m]);
            && RunAll(configs, ticks[..m + 1]).sent == RunAll(configs, ticks[..m]).sent + [b]
            && (if configs[i].custom then "custom." + configs[i].name + "." else "") + c.metrics.items[j].0.text
               in b.metrics
  {
    hide TickStep, AllWrites, AllInventory, AllSensors, Put, PutInventory, Writes, EntryKills, RunFrom;
    var s, tick := RunAll(configs, ticks[..m]), ticks[m];
    RunExtends(configs, ticks, m);
    var due := DueFlags(configs, s, tick.now);
    StartedWasDue(configs, s, tick, i);
    TickSends(configs, s, tick);
    var prefix := if configs[i].custom then "custom." + configs[i].name + "." else "";
    var w := (prefix + c.metrics.items[j].0.text, c.metrics.items[j].1);
    MetricIsWritten(configs[i].name, configs[i].custom, c, j);
    WritesAreKept(configs, due, tick, |configs|, i, w);
    PutIsLastWrite(AllWrites(configs, due, tick, |configs|), w.0);
  }

  lemma RunExtends(configs: seq<Config>, ticks: seq<Tick>, m: nat)
    requires m < |ticks|
    ensures RunAll(configs, ticks[..m + 1]) == TickStep(configs, RunAll(configs, ticks[..m]), ticks[m])
  {
    hide TickStep;
    assert ticks[..m + 1][..m] == ticks[..m];
  }

  lemma StartedWasDue(configs: seq<Config>, s: Sched, tick: Tick, i: nat)
    requires Fits(configs, s) && i < |configs| && TickStep(configs, s, tick).alive
    requires TickStep(configs, s, tick).runs[i] != s.runs[i]
    ensures s.alive && DueFlags(configs, s, tick.now)[i]
    ensures forall k :: 0 <= k < |configs| ==> !EntryKills(configs, s, tick, k)
  {
    hide TickStep, EntryKills, SinkRaises;
    DeadStaysDead(configs, s, tick);
    TickTouches(configs, s, tick, i);
    TickLives(configs, s, tick);
  }

  lemma MetricIsWritten(name: string, custom: bool, c: Contribution, j: nat)
    requires c.Contribution? && c.metrics.Section?
    requires j < |c.metrics.items| && c.metrics.items[j].0.Name?
    ensures ((if custom then "custom." + name + "." else "") + c.metrics.items[j].0.text, c.metrics.items[j].1)
            in Writes(name, custom, c)
  {
    hide Mirrors;
    var w := Writes(name, custom, c);
    assert w[j] == (Prefix(name, custom) + c.metrics.items[j].0.text, c.metrics.items[j].1);
  }
}
