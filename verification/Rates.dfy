/** Counter-to-rate conversion, and what its rates add up to. */
module Rates {
  import opened Prelude

  /** One sample: the clock `rates` reads, the one `prime` reads after it, the counters. */
  datatype Sample = Sample(now: real, primed: real, values: map<string, real>)

  /** `_at` and `_values` */
  datatype Tracker = Tracker(at: Option<real>, values: map<string, real>)

  function Max0(x: real): real {
    if x > 0.0 then x else 0.0
  }

  function Previous(t: Tracker, key: string, value: real): real {
    if key in t.values then t.values[key] else value
  }

  predicate Skips(t: Tracker, s: Sample) {
    t.at.None? || s.now <= t.at.value
  }

  /** The result of `rates`. */
  function RatesOf(t: Tracker, s: Sample): map<string, real> {
    if Skips(t, s) then map[]
    else
      var dt := s.now - t.at.value;
      map k | k in s.values :: Max0((s.values[k] - Previous(t, k, s.values[k])) / dt)
  }

  function Primed(s: Sample): Tracker {
    Tracker(Some(s.primed), s.values)
  }

  class RateTracker {
    var at: Option<real>
    var values: map<string, real>

    constructor ()
      ensures State() == Tracker(None, map[])
    {
      at, values := None, map[];
    }

    function State(): Tracker
      reads this
    {
      Tracker(at, values)
    }

    method Prime(values: map<string, real>, clock: real)
      modifies this
      ensures State() == Tracker(Some(clock), values)
    {
      at := Some(clock);
      this.values := values;
    }

    method Rates(s: Sample) returns (r: map<string, real>)
      modifies this
      ensures r == RatesOf(old(State()), s) && State() == Primed(s)
    {
      if at.None? || s.now <= at.value {
        Prime(s.values, s.primed);
        return map[];
      }
      var dt := s.now - at.value;
      r := map k | k in s.values ::
             Max0((s.values[k] - (if k in values then values[k] else s.values[k])) / dt);
      Prime(s.values, s.primed);
    }
  }

  /** The rates between two samples: nothing on a clock that has not advanced; else one rate for each
      counter of the later sample, 0 for a counter not seen before or fallen since, and otherwise
      the one that covers the increment. The first sample of all yields nothing. */
  lemma RatesBetween(a: Sample, b: Sample)
    ensures RatesOf(Tracker(None, map[]), a) == map[]
    ensures var r := RatesOf(Primed(a), b);
            if b.now <= a.primed then r == map[]
            else
              && r.Keys == b.values.Keys
              && forall k :: k in b.values ==>
                   if k in a.values && b.values[k] >= a.values[k]
                   then r[k] * (b.now - a.primed) == b.values[k] - a.values[k]
                   else r[k] == 0.0
  {
    if b.now > a.primed {
      forall k | k in b.values
        ensures RatesOf(Primed(a), b)[k] * (b.now - a.primed)
             == Max0(b.values[k] - (if k in a.values then a.values[k] else b.values[k]))
        ensures k !in a.values || b.values[k] <= a.values[k] ==> RatesOf(Primed(a), b)[k] == 0.0
      {
        var d := b.values[k] - (if k in a.values then a.values[k] else b.values[k]);
        Quotient(d, b.now - a.primed);
      }
    }
  }

  lemma Quotient(d: real, dt: real)
    requires dt > 0.0
    ensures Max0(d / dt) * dt == Max0(d)
    ensures d <= 0.0 ==> Max0(d / dt) == 0.0
  {
    if d > 0.0 {
      assert d / dt > 0.0;
    } else {
      assert d / dt <= 0.0;
    }
  }

  // ---- A run of samples ----

  /** Each reading comes after the prime before it, and the key is always there. */
  predicate Advancing(samples: seq<Sample>, key: string) {
    && (forall i :: 0 <= i < |samples| ==> key in samples[i].values)
    && (forall i :: 0 < i < |samples| ==> samples[i - 1].primed < samples[i].now)
  }

  /** What the rates reported after the first sample add up to over the time each covers. */
  function Moved(samples: seq<Sample>, key: string): real
    requires Advancing(samples, key)
  {
    if |samples| < 2 then 0.0
    else
      var n := |samples| - 1;
      var dt := samples[n].now - samples[n - 1].primed;
      Moved(samples[..n], key) + RatesOf(Primed(samples[n - 1]), samples[n])[key] * dt
  }

  function Increments(samples: seq<Sample>, key: string): real
    requires Advancing(samples, key)
  {
    if |samples| < 2 then 0.0
    else
      var n := |samples| - 1;
      Increments(samples[..n], key) + Max0(samples[n].values[key] - samples[n - 1].values[key])
  }

  /** How far the counter fell at its resets. */
  function Drops(samples: seq<Sample>, key: string): real
    requires Advancing(samples, key)
  {
    if |samples| < 2 then 0.0
    else
      var n := |samples| - 1;
      Drops(samples[..n], key) + Max0(samples[n - 1].values[key] - samples[n].values[key])
  }

  lemma QuotientTimes(x: real, dt: real)
    requires dt > 0.0
    ensures Max0(x / dt) * dt == Max0(x)
  {
    assert x / dt * dt == x;
    assert x / dt > 0.0 <==> x > 0.0;
  }

  /** One rate times the time it covers is the positive part of the increment. */
  lemma RateStep(a: Sample, b: Sample, key: string)
    requires key in a.values && key in b.values && a.primed < b.now
    ensures key in RatesOf(Primed(a), b)
    ensures RatesOf(Primed(a), b)[key] * (b.now - a.primed) == Max0(b.values[key] - a.values[key])
  {
    QuotientTimes(b.values[key] - a.values[key], b.now - a.primed);
  }

  lemma PrefixAdvances(samples: seq<Sample>, key: string, n: nat)
    requires Advancing(samples, key) && n <= |samples|
    ensures Advancing(samples[..n], key)
  {
  }

  /** No rate is ever negative, whatever the counters do. */
  lemma RatesNonNegative(t: Tracker, s: Sample)
    ensures forall k :: k in RatesOf(t, s) ==> RatesOf(t, s)[k] >= 0.0
  {
  }

  lemma MovedStep(samples: seq<Sample>, key: string)
    requires Advancing(samples, key) && |samples| >= 2
    ensures var n := |samples| - 1;
            Advancing(samples[..n], key)
            && Moved(samples, key) == Moved(samples[..n], key)
                                      + Max0(samples[n].values[key] - samples[n - 1].values[key])
  {
    hide RatesOf, Max0;
    var n := |samples| - 1;
    PrefixAdvances(samples, key, n);
    RateStep(samples[n - 1], samples[n], key);
  }

  lemma {:induction false} MovedIsIncrements(samples: seq<Sample>, key: string)
    requires Advancing(samples, key)
    ensures Moved(samples, key) == Increments(samples, key)
  {
    if |samples| < 2 {
    } else {
      hide RatesOf, Max0;
      MovedStep(samples, key);
      MovedIsIncrements(samples[..|samples| - 1], key);
    }
  }

  lemma {:induction false} IncrementsTelescope(samples: seq<Sample>, key: string)
    requires Advancing(samples, key) && |samples| > 0
    ensures Increments(samples, key) == samples[|samples| - 1].values[key] - samples[0].values[key]
                                        + Drops(samples, key)
  {
    if |samples| < 2 {
    } else {
      PrefixAdvances(samples, key, |samples| - 1);
      IncrementsTelescope(samples[..|samples| - 1], key);
    }
  }

  /** Conservation: the rates times the time they cover add up to the positive increments, that
      is to last minus first plus what the resets took away. */
  lemma RatesConserve(samples: seq<Sample>, key: string)
    requires Advancing(samples, key) && |samples| > 0
    ensures Moved(samples, key) == Increments(samples, key)
    ensures Moved(samples, key) == samples[|samples| - 1].values[key] - samples[0].values[key]
                                   + Drops(samples, key)
  {
    hide Moved, Increments, Drops;
    MovedIsIncrements(samples, key);
    IncrementsTelescope(samples, key);
  }

  /** A counter that never falls is reported in full. */
  lemma SteadyCounter(samples: seq<Sample>, key: string)
    requires Advancing(samples, key) && |samples| > 0
    requires forall i :: 0 < i < |samples| ==> samples[i - 1].values[key] <= samples[i].values[key]
    ensures Moved(samples, key) == samples[|samples| - 1].values[key] - samples[0].values[key]
  {
    RatesConserve(samples, key);
    NoDrops(samples, key);
  }

  lemma {:induction false} NoDrops(samples: seq<Sample>, key: string)
    requires Advancing(samples, key)
    requires forall i :: 0 < i < |samples| ==> samples[i - 1].values[key] <= samples[i].values[key]
    ensures Drops(samples, key) == 0.0
  {
    if |samples| < 2 {
    } else {
      PrefixAdvances(samples, key, |samples| - 1);
      NoDrops(samples[..|samples| - 1], key);
    }
  }
}
