/** Payload assembly: `_merge` edits the shared result in place, one collector at a time. */
module Assembly {
  import opened Prelude

  datatype Value = Number(r: real) | Other(text: string)

  /** A dict key; `prefix + key` raises for one that is no string. */
  datatype Key = Name(text: string) | NoString

  /** The keys of a sensor reading that `_merge` looks at, `rest` being the others; or an element
      whose `get` or unit lookup raises. */
  datatype Reading =
    | Sensor(id: Option<string>, unit: string, value: Value, rest: string)
    | Unreadable

  /** An inventory value: a list, or anything else. */
  datatype Inventory = Items(items: seq<string>) | Plain(text: string)

  /** One part of a payload in iteration order, empty when missing or falsy; or a value of the
      wrong type, whose test or iteration raises. */
  datatype Section<T> = Section(items: seq<T>) | Broken

  /** What `collect` returned. */
  datatype Contribution =
    | Contribution(
        metrics: Section<(Key, Value)>, sensors: Section<Reading>, inventory: Section<(string, Inventory)>)
    | NoDict

  datatype Batch = Batch(
    metrics: map<string, Value>, sensors: seq<Reading>, inventory: map<string, Inventory>)

  const SENSOR_METRIC: map<string, string> := map[
    "C" := "sensor.temp", "rpm" := "sensor.fan", "V" := "sensor.volt",
    "W" := "sensor.power", "A" := "sensor.curr"]

  const EMPTY := Batch(map[], [], map[])

  function Prefix(name: string, custom: bool): string {
    if custom then "custom." + name + "." else ""
  }

  predicate Mirrored(s: Reading) {
    s.Sensor? && s.unit in SENSOR_METRIC && s.value.Number?
  }

  /** A mirrored sensor without an id: `sensor['id']` raises. */
  predicate LacksId(s: Reading) {
    Mirrored(s) && s.id.None?
  }

  predicate Readable(s: Reading) {
    s.Sensor? && !LacksId(s)
  }

  /** The payloads `_merge` gets through. */
  predicate Mergeable(c: Contribution) {
    && c.Contribution? && c.metrics.Section? && c.sensors.Section? && c.inventory.Section?
    && (forall i :: 0 <= i < |c.metrics.items| ==> c.metrics.items[i].0.Name?)
    && (forall i :: 0 <= i < |c.sensors.items| ==> Readable(c.sensors.items[i]))
  }

  function ItemsOf<T>(s: Section<T>): seq<T> {
    if s.Section? then s.items else []
  }

  function MetricsOf(c: Contribution): seq<(Key, Value)> {
    if c.NoDict? then [] else ItemsOf(c.metrics)
  }

  function SensorsOf(c: Contribution): seq<Reading> {
    if c.NoDict? then [] else ItemsOf(c.sensors)
  }

  function InventoryOf(c: Contribution): seq<(string, Inventory)> {
    if c.NoDict? then [] else ItemsOf(c.inventory)
  }

  function KeyText(k: Key): string {
    if k.Name? then k.text else ""
  }

  function MirrorKey(s: Reading): string
    requires Mirrored(s) && s.id.Some?
  {
    SENSOR_METRIC[s.unit] + "[" + s.id.value + "]"
  }

  // ---- The metric and inventory writes a contribution stands for, in order ----

  function Prefixed(prefix: string, metrics: seq<(Key, Value)>): (w: seq<(string, Value)>)
    ensures |w| == |metrics|
  {
    seq(|metrics|, i requires 0 <= i < |metrics| => (prefix + KeyText(metrics[i].0), metrics[i].1))
  }

  function Mirrors(sensors: seq<Reading>): seq<(string, Value)> {
    if sensors == [] then []
    else
      var front, s := Mirrors(sensors[..|sensors| - 1]), sensors[|sensors| - 1];
      if Mirrored(s) && s.id.Some? then front + [(MirrorKey(s), s.value)] else front
  }

  function Writes(name: string, custom: bool, c: Contribution): seq<(string, Value)> {
    Prefixed(Prefix(name, custom), MetricsOf(c)) + Mirrors(SensorsOf(c))
  }

  function Put(m: map<string, Value>, writes: seq<(string, Value)>): map<string, Value> {
    if writes == [] then m
    else
      var last := writes[|writes| - 1];
      Put(m, writes[..|writes| - 1])[last.0 := last.1]
  }

  function Combine(m: map<string, Inventory>, key: string, value: Inventory): Inventory {
    if key in m && m[key].Items? && value.Items? then Items(m[key].items + value.items) else value
  }

  function PutInventory(m: map<string, Inventory>, items: seq<(string, Inventory)>): map<string, Inventory> {
    if items == [] then m
    else
      var m', last := PutInventory(m, items[..|items| - 1]), items[|items| - 1];
      m'[last.0 := Combine(m', last.0, last.1)]
  }

  /** The specification of `_merge` when it does not raise. */
  function Merged(b: Batch, name: string, custom: bool, c: Contribution): Batch {
    Batch(Put(b.metrics, Writes(name, custom, c)), b.sensors + SensorsOf(c),
          PutInventory(b.inventory, InventoryOf(c)))
  }

  class Result {
    var metrics: map<string, Value>
    var sensors: seq<Reading>
    var inventory: map<string, Inventory>

    function Contents(): Batch
      reads this
    {
      Batch(metrics, sensors, inventory)
    }

    constructor ()
      ensures Contents() == EMPTY
    {
      metrics, sensors, inventory := map[], [], map[];
    }

    /** `_merge`; `false` when it raises. */
    method Merge(name: string, custom: bool, c: Contribution) returns (ok: bool)
      modifies this
      ensures ok == Mergeable(c)
      ensures ok ==> Contents() == Merged(old(Contents()), name, custom, c)
    {
      if c.NoDict? || c.metrics.Broken? {
        return false;
      }
      ok := MergeMetrics(Prefix(name, custom), c.metrics.items);
      if !ok || c.sensors.Broken? {
        return false;
      }
      ok := MergeSensors(c.sensors.items);
      if !ok || c.inventory.Broken? {
        return false;
      }
      PutConcat(old(metrics), Prefixed(Prefix(name, custom), c.metrics.items), Mirrors(c.sensors.items));
      MergeInventory(c.inventory.items);
    }

    method MergeMetrics(prefix: string, items: seq<(Key, Value)>) returns (ok: bool)
      modifies `metrics
      ensures ok <==> forall k :: 0 <= k < |items| ==> items[k].0.Name?
      ensures ok ==> metrics == Put(old(metrics), Prefixed(prefix, items))
    {
      ghost var writes := Prefixed(prefix, items);
      for i := 0 to |items|
        invariant forall k :: 0 <= k < i ==> items[k].0.Name?
        invariant metrics == Put(old(metrics), writes[..i])
      {
        assert writes[..i + 1][..i] == writes[..i];
        if items[i].0.NoString? {
          return false;
        }
        metrics := metrics[prefix + items[i].0.text := items[i].1];
      }
      assert writes[..|items|] == writes;
      return true;
    }

    method MergeSensors(items: seq<Reading>) returns (ok: bool)
      modifies `metrics, `sensors
      ensures ok <==> forall k :: 0 <= k < |items| ==> Readable(items[k])
      ensures ok ==> metrics == Put(old(metrics), Mirrors(items)) && sensors == old(sensors) + items
    {
      hide Put, Mirrors;
      MirrorsSnoc(items);
      for i := 0 to |items|
        invariant forall k :: 0 <= k < i ==> Readable(items[k])
        invariant metrics == Put(old(metrics), Mirrors(items[..i]))
        invariant sensors == old(sensors) + items[..i]
      {
        var sensor := items[i];
        sensors := sensors + [sensor];
        if sensor.Unreadable? {
          return false;
        }
        if Mirrored(sensor) {
          if sensor.id.None? {
            return false;
          }
          PutSnoc(old(metrics), Mirrors(items[..i]), (MirrorKey(sensor), sensor.value));
          metrics := metrics[MirrorKey(sensor) := sensor.value];
        }
      }
      assert items[..|items|] == items;
      return true;
    }

    method MergeInventory(items: seq<(string, Inventory)>)
      modifies `inventory
      ensures inventory == PutInventory(old(inventory), items)
    {
      for i := 0 to |items|
        invariant inventory == PutInventory(old(inventory), items[..i])
      {
        assert items[..i + 1][..i] == items[..i];
        var (key, value) := items[i];
        if key in inventory && inventory[key].Items? && value.Items? {
          inventory := inventory[key := Items(inventory[key].items + value.items)];
        } else {
          inventory := inventory[key := value];
        }
      }
      assert items[..|items|] == items;
    }
  }

  lemma MirrorsSnoc(items: seq<Reading>)
    ensures forall m :: Put(m, Mirrors(items[..0])) == m
    ensures forall i :: 0 <= i < |items| ==>
              Mirrors(items[..i + 1])
              == if Mirrored(items[i]) && items[i].id.Some?
                 then Mirrors(items[..i]) + [(MirrorKey(items[i]), items[i].value)] else Mirrors(items[..i])
  {
    forall i | 0 <= i < |items| ensures items[..i + 1][..i] == items[..i] && items[..i + 1][i] == items[i] {
    }
  }

  /** The keys written for a contribution: its metrics in order, behind `custom.<name>.` for a custom
      collector, then its mirrored sensors. */
  lemma WritesAre(name: string, custom: bool, metrics: seq<(Key, Value)>, sensors: seq<Reading>,
                  inventory: seq<(string, Inventory)>)
    requires forall i :: 0 <= i < |metrics| ==> metrics[i].0.Name?
    ensures var c := Contribution(Section(metrics), Section(sensors), Section(inventory));
            var w := Writes(name, custom, c);
            && |w| == |metrics| + |Mirrors(sensors)| && w[|metrics|..] == Mirrors(sensors)
            && (forall i :: 0 <= i < |metrics| ==>
                  w[i] == ((if custom then "custom." + name + "." else "") + metrics[i].0.text, metrics[i].1))
            && SensorsOf(c) == sensors && InventoryOf(c) == inventory
  {
    hide Mirrors;
  }

  /** What one more sensor mirrors to: only numeric readings in C, rpm, V, W and A have a metric. */
  lemma MirrorKeys(front: seq<Reading>, id: string, unit: string, value: Value, rest: string)
    ensures var w := Mirrors(front + [Sensor(Some(id), unit, value, rest)]);
            if !value.Number? then w == Mirrors(front)
            else if unit == "C" then w == Mirrors(front) + [("sensor.temp" + "[" + id + "]", value)]
            else if unit == "rpm" then w == Mirrors(front) + [("sensor.fan" + "[" + id + "]", value)]
            else if unit == "V" then w == Mirrors(front) + [("sensor.volt" + "[" + id + "]", value)]
            else if unit == "W" then w == Mirrors(front) + [("sensor.power" + "[" + id + "]", value)]
            else if unit == "A" then w == Mirrors(front) + [("sensor.curr" + "[" + id + "]", value)]
            else w == Mirrors(front)
  {
    var s := Sensor(Some(id), unit, value, rest);
    assert (front + [s])[..|front|] == front;
    UnitKeys(unit);
  }

  lemma UnitKeys(unit: string)
    ensures unit in SENSOR_METRIC <==> unit in {"C", "rpm", "V", "W", "A"}
    ensures SENSOR_METRIC["C"] == "sensor.temp" && SENSOR_METRIC["rpm"] == "sensor.fan"
    ensures SENSOR_METRIC["V"] == "sensor.volt" && SENSOR_METRIC["W"] == "sensor.power"
    ensures SENSOR_METRIC["A"] == "sensor.curr"
  {
  }

  lemma PutSnoc(m: map<string, Value>, writes: seq<(string, Value)>, w: (string, Value))
    ensures Put(m, writes + [w]) == Put(m, writes)[w.0 := w.1]
  {
    assert (writes + [w])[..|writes|] == writes;
  }

  lemma {:induction false} PutConcat(m: map<string, Value>, a: seq<(string, Value)>, b: seq<(string, Value)>)
    ensures Put(m, a + b) == Put(Put(m, a), b)
  {
    if b == [] {
      assert a + b == a;
    } else {
      assert (a + b)[..|a + b| - 1] == a + b[..|b| - 1];
      PutConcat(m, a, b[..|b| - 1]);
    }
  }

  lemma {:induction false} PutInventoryConcat(
    m: map<string, Inventory>, a: seq<(string, Inventory)>, b: seq<(string, Inventory)>)
    ensures PutInventory(m, a + b) == PutInventory(PutInventory(m, a), b)
  {
    if b == [] {
      assert a + b == a;
    } else {
      assert (a + b)[..|a + b| - 1] == a + b[..|b| - 1];
      PutInventoryConcat(m, a, b[..|b| - 1]);
    }
  }

  // ---- Closed forms ----

  /** Write i is the last to the key, and writes v. */
  predicate LastWrite(writes: seq<(string, Value)>, i: nat, key: string, v: Value) {
    && i < |writes| && writes[i] == (key, v)
    && forall j :: i < j < |writes| ==> writes[j].0 != key
  }

  /** A key of the metrics holds its last write. */
  lemma {:induction false} PutIsLastWrite(writes: seq<(string, Value)>, key: string)
    ensures key in Put(map[], writes) <==> exists i :: 0 <= i < |writes| && writes[i].0 == key
    ensures key in Put(map[], writes) ==> exists i :: LastWrite(writes, i, key, Put(map[], writes)[key])
  {
    if writes == [] {
    } else {
      var front, last := writes[..|writes| - 1], writes[|writes| - 1];
      PutIsLastWrite(front, key);
      if last.0 == key {
        assert LastWrite(writes, |writes| - 1, key, last.1);
      } else if key in Put(map[], front) {
        var v := Put(map[], front)[key];
        var i :| LastWrite(front, i, key, v);
        assert LastWrite(writes, i, key, v);
      }
    }
  }

  function ValuesFor(items: seq<(string, Inventory)>, key: string): seq<Inventory> {
    if items == [] then []
    else
      var front, last := ValuesFor(items[..|items| - 1], key), items[|items| - 1];
      if last.0 == key then front + [last.1] else front
  }

  /** The concatenated lists since the last value that is not a list. */
  function TrailingItems(vs: seq<Inventory>): seq<string> {
    if vs == [] || vs[|vs| - 1].Plain? then []
    else TrailingItems(vs[..|vs| - 1]) + vs[|vs| - 1].items
  }

  function Combined(vs: seq<Inventory>): Inventory
    requires vs != []
  {
    if vs[|vs| - 1].Plain? then vs[|vs| - 1] else Items(TrailingItems(vs))
  }

  /** An inventory key holds its last value if that is no list, else the concatenation of its
      lists since the last value that was none. */
  lemma {:induction false} PutInventoryIsCombined(items: seq<(string, Inventory)>, key: string)
    ensures key in PutInventory(map[], items) <==> ValuesFor(items, key) != []
    ensures key in PutInventory(map[], items) ==>
              PutInventory(map[], items)[key] == Combined(ValuesFor(items, key))
  {
    if items == [] {
    } else {
      var front, last := items[..|items| - 1], items[|items| - 1];
      PutInventoryIsCombined(front, key);
      if last.0 == key {
        CombinedSnoc(ValuesFor(front, key), last.1);
      }
    }
  }

  lemma CombinedSnoc(vs: seq<Inventory>, v: Inventory)
    ensures Combined(vs + [v])
         == if v.Plain? then v
            else if vs == [] || vs[|vs| - 1].Plain? then v
            else Items(Combined(vs).items + v.items)
  {
    assert (vs + [v])[..|vs|] == vs;
    if v.Items? {
      assert TrailingItems(vs + [v]) == TrailingItems(vs) + v.items;
      assert [] + v.items == v.items;
    }
  }
}
