/** The store-and-forward queue as a state machine whose steps are the points between which the
    process can die: a committed push, a peek, one delivery, a committed ack. A crash keeps the
    table and forgets the drain in progress. */
module CrashSteps {
  import opened DiskQueue

  datatype Phase =
    | Idle
    | Draining(batch: seq<Row>, sent: nat, stopped: bool)

  datatype Process = Process(table: Table, phase: Phase)

  datatype Step =
    | Store(payload: Payload, at: Clock)
    | Peek(limit: int)
    | Deliver(done: bool)
    | Ack
    | Crash

  predicate Enabled(p: Process, step: Step) {
    match step
    case Store(_, _) => p.phase.Idle?
    case Peek(_) => p.phase.Idle?
    case Deliver(_) => p.phase.Draining? && !p.phase.stopped && p.phase.sent < |p.phase.batch|
    case Ack =>
      p.phase.Draining? && p.phase.sent <= |p.phase.batch|
      && (p.phase.stopped || p.phase.sent == |p.phase.batch|)
    case Crash => true
  }

  function Next(p: Process, lim: Limits, step: Step): Process
    requires Enabled(p, step)
  {
    match step
    case Store(payload, at) => p.(table := PushTable(p.table, lim, payload, at))
    case Peek(limit) =>
      var batch := p.table.rows[..BatchSize(p.table.rows, limit)];
      if batch == [] then p else p.(phase := Draining(batch, 0, false))
    case Deliver(done) =>
      p.(phase := if done then p.phase.(sent := p.phase.sent + 1) else p.phase.(stopped := true))
    case Ack =>
      Process(p.table.(rows := Without(p.table.rows, Ids(p.phase.batch[..p.phase.sent]))), Idle)
    case Crash => p.(phase := Idle)
  }

  /** What a run leaves behind: the process, the rows it ever committed, the ids whose delivery
      was accepted or permanently rejected, in order, the rows trimmed, and how often it died
      inside a drain. */
  datatype World = World(
    process: Process, stored: set<Row>, finished: seq<nat>, trimmed: set<Row>, crashes: nat)

  function Advance(w: World, lim: Limits, step: Step): World
    requires Enabled(w.process, step)
  {
    var w' := w.(process := Next(w.process, lim, step));
    match step
    case Store(payload, at) =>
      var before := Elements(w.process.table.rows) + {RowFor(w.process.table, payload, at.arrival)};
      w'.(stored := w.stored + before,
          trimmed := w.trimmed + (before - Elements(w'.process.table.rows)))
    case Deliver(true) =>
      w'.(finished := w.finished + [w.process.phase.batch[w.process.phase.sent].id])
    case Crash => if w.process.phase.Draining? then w'.(crashes := w.crashes + 1) else w'
    case _ => w'
  }

  function Elements(rows: seq<Row>): set<Row> {
    set r | r in rows
  }

  function Start(t: Table): World {
    World(Process(t, Idle), Elements(t.rows), [], {}, 0)
  }

  predicate CanRun(w: World, lim: Limits, steps: seq<Step>)
    decreases |steps|
  {
    steps == [] || (Enabled(w.process, steps[0]) && CanRun(Advance(w, lim, steps[0]), lim, steps[1..]))
  }

  function Run(w: World, lim: Limits, steps: seq<Step>): World
    requires CanRun(w, lim, steps)
    decreases |steps|
  {
    if steps == [] then w else Run(Advance(w, lim, steps[0]), lim, steps[1..])
  }

  lemma {:induction false} RunSnoc(w: World, lim: Limits, steps: seq<Step>, step: Step)
    requires CanRun(w, lim, steps) && Enabled(Run(w, lim, steps).process, step)
    ensures CanRun(w, lim, steps + [step])
    ensures Run(w, lim, steps + [step]) == Advance(Run(w, lim, steps), lim, step)
    decreases |steps|
  {
    hide Enabled, Advance;
    if steps == [] {
      assert (steps + [step])[1..] == [];
    } else {
      assert (steps + [step])[1..] == steps[1..] + [step];
      RunSnoc(Advance(w, lim, steps[0]), lim, steps[1..], step);
    }
  }

  // ---- Invariant ----

  /** Every id below comes from a committed row; a drain in progress holds a prefix of the table. */
  predicate Sound(w: World) {
    && ValidTable(w.process.table)
    && (w.process.phase.Draining? ==>
          && w.process.phase.batch <= w.process.table.rows
          && w.process.phase.sent <= |w.process.phase.batch|)
    && (forall id :: id in w.finished ==> id < w.process.table.nextId)
    && (w.process.phase.Draining? ==>
          forall i :: 0 <= i < w.process.phase.sent ==> w.process.phase.batch[i].id in w.finished)
  }

  /** Nothing committed is ever lost: it is queued, or its delivery finished, or it was trimmed. */
  predicate Accounted(w: World) {
    forall r :: r in w.stored ==> r in w.process.table.rows || r.id in w.finished || r in w.trimmed
  }

  lemma AdvanceSound(w: World, lim: Limits, step: Step)
    requires Sound(w) && Enabled(w.process, step)
    ensures Sound(Advance(w, lim, step))
  {
    hide PushTable, Without, RowFor;
    match step
    case Store(payload, at) =>
      PushKeepsValid(w.process.table, lim, payload, at);
      PushedRows(w.process.table, lim, payload, at);
    case Ack =>
      WithoutKeepsOrder(w.process.table.rows, Ids(w.process.phase.batch[..w.process.phase.sent]));
    case _ =>
  }

  /** A committed push trims aged rows, and of the others only the oldest beyond the cap. */
  lemma TrimsAgedOrOldest(w: World, lim: Limits, payload: Payload, at: Clock)
    requires w.process.phase.Idle?
    ensures var cutoff := Cutoff(lim, at.trim);
            var f := Fresh(w.process.table.rows + [RowFor(w.process.table, payload, at.arrival)], cutoff);
            forall r :: r in Advance(w, lim, Store(payload, at)).trimmed - w.trimmed ==>
              || r.ts < cutoff
              || (|f| > lim.maxRows && r in f[..if lim.maxRows < 0 then |f| else |f| - lim.maxRows])
  {
    var t := w.process.table;
    var rows, cutoff := t.rows + [RowFor(t, payload, at.arrival)], Cutoff(lim, at.trim);
    var f := Fresh(rows, cutoff);
    PushKeepsUpToCap(t, lim, payload, at);
    hide PushTable, RowFor, Fresh, Cutoff;
    var k := if lim.maxRows < 0 then |f| else if |f| <= lim.maxRows then 0 else |f| - lim.maxRows;
    assert f == f[..k] + f[k..];
    forall r | r in Advance(w, lim, Store(payload, at)).trimmed - w.trimmed
      ensures r.ts < cutoff || (|f| > lim.maxRows && r in f[..if lim.maxRows < 0 then |f| else |f| - lim.maxRows])
    {
      assert r in rows && r !in f[k..];
    }
  }

  lemma AdvanceAccounted(w: World, lim: Limits, step: Step)
    requires Sound(w) && Accounted(w) && Enabled(w.process, step)
    ensures Accounted(Advance(w, lim, step))
  {
  }

  /** Crash safety, first half: over every run with crashes anywhere, a payload whose push
      committed is still queued until it was accepted, permanently rejected or trimmed. */
  lemma {:induction false} NothingLost(w: World, lim: Limits, steps: seq<Step>)
    requires Sound(w) && Accounted(w) && CanRun(w, lim, steps)
    ensures Sound(Run(w, lim, steps)) && Accounted(Run(w, lim, steps))
    decreases |steps|
  {
    if steps == [] {
    } else {
      AdvanceSound(w, lim, steps[0]);
      AdvanceAccounted(w, lim, steps[0]);
      NothingLost(Advance(w, lim, steps[0]), lim, steps[1..]);
    }
  }

  // ---- Duplicates ----

  /** Deliveries that finished a row already finished before. */
  function Resends(finished: seq<nat>): nat {
    if finished == [] then 0
    else
      var last := |finished| - 1;
      Resends(finished[..last]) + if finished[last] in finished[..last] then 1 else 0
  }

  function Count(rows: seq<Row>, ids: seq<nat>): nat {
    if rows == [] then 0 else (if rows[0].id in ids then 1 else 0) + Count(rows[1..], ids)
  }

  function SentSoFar(p: Phase): nat {
    if p.Draining? then p.sent else 0
  }

  /** Queued rows finished already but not yet re-sent by the drain in progress. */
  function Dirty(w: World): nat
    requires SentSoFar(w.process.phase) <= |w.process.table.rows|
  {
    Count(w.process.table.rows[SentSoFar(w.process.phase)..], w.finished)
  }

  lemma {:induction false} CountConcat(a: seq<Row>, b: seq<Row>, ids: seq<nat>)
    ensures Count(a + b, ids) == Count(a, ids) + Count(b, ids)
  {
    if a == [] {
      assert a + b == b;
    } else {
      assert (a + b)[1..] == a[1..] + b;
      CountConcat(a[1..], b, ids);
    }
  }

  lemma {:induction false} CountBound(rows: seq<Row>, ids: seq<nat>)
    ensures Count(rows, ids) <= |rows|
  {
    if rows == [] {
    } else {
      CountBound(rows[1..], ids);
    }
  }

  lemma {:induction false} CountSame(rows: seq<Row>, ids: seq<nat>, id: nat)
    requires forall r :: r in rows ==> r.id != id
    ensures Count(rows, ids + [id]) == Count(rows, ids)
  {
    if rows == [] {
    } else {
      CountSame(rows[1..], ids, id);
    }
  }

  lemma {:induction false} CountFresh(rows: seq<Row>, cutoff: int, ids: seq<nat>)
    ensures Count(Fresh(rows, cutoff), ids) <= Count(rows, ids)
  {
    if rows == [] {
    } else {
      CountFresh(rows[1..], cutoff, ids);
      if rows[0].ts >= cutoff {
        CountConcat([rows[0]], Fresh(rows[1..], cutoff), ids);
      }
    }
  }

  lemma CountSuffix(rows: seq<Row>, k: nat, ids: seq<nat>)
    requires k <= |rows|
    ensures Count(rows, ids) == Count(rows[..k], ids) + Count(rows[k..], ids)
  {
    CountConcat(rows[..k], rows[k..], ids);
    assert rows[..k] + rows[k..] == rows;
  }

  lemma CountPush(t: Table, lim: Limits, p: Payload, at: Clock, ids: seq<nat>)
    requires forall id :: id in ids ==> id < t.nextId
    ensures Count(PushTable(t, lim, p, at).rows, ids) <= Count(t.rows, ids)
  {
    var row := RowFor(t, p, at.arrival);
    var kept := Fresh(t.rows + [row], Cutoff(lim, at.trim));
    CountConcat(t.rows, [row], ids);
    CountFresh(t.rows + [row], Cutoff(lim, at.trim), ids);
    CountSuffix(kept, Overflow(|kept|, lim.maxRows), ids);
  }

  /** Each crash inside a drain adds at most one batch to the rows that may be sent again. */
  predicate Bounded(w: World, batch: nat) {
    && Sound(w)
    && (w.process.phase.Draining? ==> |w.process.phase.batch| <= batch)
    && Resends(w.finished) + Dirty(w) <= batch * w.crashes
  }

  predicate PeeksAtMost(steps: seq<Step>, batch: nat) {
    forall i :: 0 <= i < |steps| && steps[i].Peek? ==> 0 <= steps[i].limit <= batch
  }

  lemma DeliverBounded(w: World, lim: Limits, batch: nat)
    requires Bounded(w, batch) && Enabled(w.process, Deliver(true))
    ensures Bounded(Advance(w, lim, Deliver(true)), batch)
  {
    var w' := Advance(w, lim, Deliver(true));
    AdvanceSound(w, lim, Deliver(true));
    var rows, k := w.process.table.rows, w.process.phase.sent;
    assert rows[k] == w.process.phase.batch[k];
    assert rows[k..][1..] == rows[k + 1..];
    CountSame(rows[k + 1..], w.finished, rows[k].id);
    assert w'.finished[..|w.finished|] == w.finished;
  }

  lemma OneMoreCrash(batch: nat, crashes: nat)
    ensures batch * (crashes + 1) == batch * crashes + batch
  {
  }

  lemma CrashBounded(w: World, lim: Limits, batch: nat)
    requires Bounded(w, batch)
    ensures Bounded(Advance(w, lim, Crash), batch)
  {
    hide Count, Resends, ValidTable;
    var rows, k := w.process.table.rows, SentSoFar(w.process.phase);
    CountSuffix(rows, k, w.finished);
    CountBound(rows[..k], w.finished);
    assert rows[0..] == rows;
    OneMoreCrash(batch, w.crashes);
  }

  lemma AckBounded(w: World, lim: Limits, batch: nat)
    requires Bounded(w, batch) && Enabled(w.process, Ack)
    ensures Bounded(Advance(w, lim, Ack), batch)
  {
    AdvanceSound(w, lim, Ack);
    var rows, k := w.process.table.rows, w.process.phase.sent;
    assert w.process.phase.batch[..k] == rows[..k];
    AckPrefix(rows, k);
    assert rows[k..][0..] == rows[k..];
  }

  lemma AdvanceBounded(w: World, lim: Limits, step: Step, batch: nat)
    requires Bounded(w, batch) && Enabled(w.process, step)
    requires step.Peek? ==> 0 <= step.limit <= batch
    ensures Bounded(Advance(w, lim, step), batch)
  {
    AdvanceSound(w, lim, step);
    match step
    case Store(payload, at) =>
      CountPush(w.process.table, lim, payload, at, w.finished);
      var rows := PushTable(w.process.table, lim, payload, at).rows;
      assert rows[0..] == rows && w.process.table.rows[0..] == w.process.table.rows;
    case Deliver(done) =>
      if done {
        DeliverBounded(w, lim, batch);
      }
    case Ack => AckBounded(w, lim, batch);
    case Crash => CrashBounded(w, lim, batch);
    case Peek(_) =>
  }

  /** Crash safety, second half: the deliveries that repeat a finished row number at most one
      batch per crash inside a drain, over every run. */
  lemma {:induction false} ResendsPerCrash(w: World, lim: Limits, steps: seq<Step>, batch: nat)
    requires Bounded(w, batch) && CanRun(w, lim, steps) && PeeksAtMost(steps, batch)
    ensures Bounded(Run(w, lim, steps), batch)
    ensures Resends(Run(w, lim, steps).finished) <= batch * Run(w, lim, steps).crashes
    decreases |steps|
  {
    if steps == [] {
    } else {
      AdvanceBounded(w, lim, steps[0], batch);
      ResendsPerCrash(Advance(w, lim, steps[0]), lim, steps[1..], batch);
    }
  }

  lemma StartIsSound(t: Table, batch: nat)
    requires ValidTable(t)
    ensures Sound(Start(t)) && Accounted(Start(t)) && Bounded(Start(t), batch)
  {
    CountNone(t.rows);
    assert t.rows[0..] == t.rows;
  }

  lemma {:induction false} CountNone(rows: seq<Row>)
    ensures Count(rows, []) == 0
  {
    if rows == [] {
    } else {
      CountNone(rows[1..]);
    }
  }

  /** Crash safety of the queue as opened: both halves, from any stored table, over every run
      whose drains peek at most `batch` rows. */
  lemma CrashSafety(t: Table, lim: Limits, steps: seq<Step>, batch: nat)
    requires ValidTable(t) && CanRun(Start(t), lim, steps) && PeeksAtMost(steps, batch)
    ensures var w := Run(Start(t), lim, steps);
            && (forall r :: r in w.stored ==> r in w.process.table.rows || r.id in w.finished || r in w.trimmed)
            && Resends(w.finished) <= batch * w.crashes
  {
    hide Sound, Bounded, Run, CanRun;
    StartIsSound(t, batch);
    NothingLost(Start(t), lim, steps);
    ResendsPerCrash(Start(t), lim, steps, batch);
  }
}
