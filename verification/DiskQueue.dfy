/** The on-disk queue: an SQLite table as a sequence of rows in id order. */
module DiskQueue {
  import opened Prelude

  /** A pushed payload; `ts` is the key the queue reads, `body` the rest of the JSON text. */
  datatype Payload = Payload(ts: Option<int>, body: string)

  datatype Row = Row(id: nat, ts: int, payload: Payload)

  datatype Limits = Limits(maxRows: int, maxAge: real)

  /** The stored table; AUTOINCREMENT never reuses an id below `nextId`. */
  datatype Table = Table(rows: seq<Row>, nextId: nat)

  /** The two clock readings of one `push`: the default timestamp, then the trim. */
  datatype Clock = Clock(arrival: real, trim: real)

  predicate Increasing(rows: seq<Row>) {
    forall i, j :: 0 <= i < j < |rows| ==> rows[i].id < rows[j].id
  }

  predicate ValidTable(t: Table) {
    Increasing(t.rows) && forall i :: 0 <= i < |t.rows| ==> t.rows[i].id < t.nextId
  }

  /** `int(x)` */
  function Truncate(x: real): int {
    if x >= 0.0 then x.Floor else -((-x).Floor)
  }

  function Cutoff(lim: Limits, now: real): int {
    Truncate(now - lim.maxAge)
  }

  /** The rows a `DELETE ... WHERE ts < cutoff` leaves. */
  function Fresh(rows: seq<Row>, cutoff: int): (kept: seq<Row>)
    ensures forall r :: r in kept <==> r in rows && r.ts >= cutoff
    ensures |kept| <= |rows|
  {
    if rows == [] then []
    else if rows[0].ts < cutoff then Fresh(rows[1..], cutoff)
    else [rows[0]] + Fresh(rows[1..], cutoff)
  }

  /** The rows that deleting the given ids leaves. */
  function Without(rows: seq<Row>, ids: set<nat>): (kept: seq<Row>)
    ensures forall r :: r in kept <==> r in rows && r.id !in ids
  {
    if rows == [] then []
    else if rows[0].id in ids then Without(rows[1..], ids)
    else [rows[0]] + Without(rows[1..], ids)
  }

  /** How many of n rows the row cap drops. */
  function Overflow(n: nat, maxRows: int): (over: nat)
    ensures over <= n
  {
    if n - maxRows <= 0 then 0 else if maxRows < 0 then n else n - maxRows
  }

  function Newest(rows: seq<Row>, maxRows: int): seq<Row> {
    rows[Overflow(|rows|, maxRows)..]
  }

  function RowFor(t: Table, p: Payload, arrival: real): Row {
    Row(t.nextId, if p.ts.Some? then p.ts.value else Truncate(arrival), p)
  }

  /** The specification of `push`: insert, drop the aged, drop the oldest beyond the cap. */
  function PushTable(t: Table, lim: Limits, p: Payload, at: Clock): Table {
    Table(Newest(Fresh(t.rows + [RowFor(t, p, at.arrival)], Cutoff(lim, at.trim)), lim.maxRows),
          t.nextId + 1)
  }

  function Ids(rows: seq<Row>): set<nat> {
    set r | r in rows :: r.id
  }

  function IdSet(ids: seq<nat>): set<nat> {
    set i | i in ids
  }

  class DiskQueue {
    var rows: seq<Row>
    var nextId: nat
    const limits: Limits

    ghost predicate Valid()
      reads this
    {
      ValidTable(Contents())
    }

    function Contents(): Table
      reads this
    {
      Table(rows, nextId)
    }

    /** Opening a database: whatever an earlier run stored, untrimmed. */
    constructor (stored: Table, limits: Limits)
      requires ValidTable(stored)
      ensures Valid() && Contents() == stored && this.limits == limits
    {
      rows, nextId := stored.rows, stored.nextId;
      this.limits := limits;
    }

    method Push(payload: Payload, at: Clock)
      requires Valid()
      modifies this
      ensures Valid() && Contents() == PushTable(old(Contents()), limits, payload, at)
      ensures |rows| <= if limits.maxRows < 0 then 0 else limits.maxRows
    {
      rows := rows + [RowFor(Contents(), payload, at.arrival)];
      nextId := nextId + 1;
      Trim(at.trim);
    }

    method Trim(now: real)
      requires Valid()
      modifies `rows
      ensures Valid() && rows == Newest(Fresh(old(rows), Cutoff(limits, now)), limits.maxRows)
    {
      hide Fresh, Cutoff;
      FreshKeepsOrder(rows, Cutoff(limits, now));
      rows := Fresh(rows, Cutoff(limits, now));
      var over := |rows| - limits.maxRows;
      if over > 0 {
        rows := rows[if over > |rows| then |rows| else over..];
      }
    }

    /** Oldest rows first; SQLite reads a negative limit as no limit. */
    method Peek(limit: int) returns (batch: seq<Row>)
      ensures batch <= rows && |batch| == (if limit < 0 || limit > |rows| then |rows| else limit)
      ensures Valid() ==> forall b, r :: b in batch && r in rows[|batch|..] ==> b.id < r.id
    {
      return rows[..BatchSize(rows, limit)];
    }

    method Ack(ids: seq<nat>)
      requires Valid()
      modifies `rows
      ensures Valid() && rows == Without(old(rows), IdSet(ids))
    {
      assert IdSet(ids[..0]) == {};
      WithoutNothing(rows);
      for k := 0 to |ids|
        invariant rows == Without(old(rows), IdSet(ids[..k]))
      {
        WithoutTwice(old(rows), IdSet(ids[..k]), {ids[k]});
        assert IdSet(ids[..k + 1]) == IdSet(ids[..k]) + {ids[k]};
        rows := Without(rows, {ids[k]});
      }
      assert ids[..|ids|] == ids;
      WithoutKeepsOrder(old(rows), IdSet(ids));
    }
  }

  function BatchSize(rows: seq<Row>, limit: int): (n: nat)
    ensures n <= |rows|
  {
    if limit < 0 || limit > |rows| then |rows| else limit
  }

  lemma IncreasingCons(r: Row, rows: seq<Row>)
    requires Increasing(rows) && forall x :: x in rows ==> r.id < x.id
    ensures Increasing([r] + rows)
  {
  }

  lemma IncreasingTail(rows: seq<Row>)
    requires rows != [] && Increasing(rows)
    ensures Increasing(rows[1..]) && forall x :: x in rows[1..] ==> rows[0].id < x.id
  {
  }

  lemma {:induction false} FreshKeepsOrder(rows: seq<Row>, cutoff: int)
    requires Increasing(rows)
    ensures Increasing(Fresh(rows, cutoff))
  {
    if rows == [] {
    } else {
      hide Increasing;
      IncreasingTail(rows);
      FreshKeepsOrder(rows[1..], cutoff);
      IncreasingCons(rows[0], Fresh(rows[1..], cutoff));
    }
  }

  lemma PushKeepsValid(t: Table, lim: Limits, p: Payload, at: Clock)
    requires ValidTable(t)
    ensures ValidTable(PushTable(t, lim, p, at))
  {
    hide Cutoff, Fresh;
    FreshKeepsOrder(t.rows + [RowFor(t, p, at.arrival)], Cutoff(lim, at.trim));
  }

  lemma PushedRows(t: Table, lim: Limits, p: Payload, at: Clock)
    ensures PushTable(t, lim, p, at).nextId == t.nextId + 1
    ensures forall r :: r in PushTable(t, lim, p, at).rows ==> r in t.rows || r == RowFor(t, p, at.arrival)
  {
    hide Cutoff;
  }

  /** The row a payload gets: the next id, and its own `ts` or else the whole second of arrival,
      rounded towards zero. */
  lemma NewRow(t: Table, p: Payload, arrival: real)
    ensures var row := RowFor(t, p, arrival);
            && row.id == t.nextId && row.payload == p
            && (p.ts.Some? ==> row.ts == p.ts.value)
            && (p.ts.None? && arrival >= 0.0 ==> row.ts as real <= arrival < (row.ts + 1) as real)
            && (p.ts.None? && arrival < 0.0 ==> (row.ts - 1) as real < arrival <= row.ts as real)
  {
  }

  lemma NewestRows(rows: seq<Row>, maxRows: int)
    ensures Newest(rows, maxRows)
         == if maxRows < 0 then [] else if |rows| <= maxRows then rows else rows[|rows| - maxRows..]
  {
  }

  /** The cap keeps as much as it allows: after a push the table is all the unaged rows while they
      number at most `maxRows`, and the newest `maxRows` of them otherwise. */
  lemma PushKeepsUpToCap(t: Table, lim: Limits, p: Payload, at: Clock)
    ensures var f := Fresh(t.rows + [RowFor(t, p, at.arrival)], Cutoff(lim, at.trim));
            PushTable(t, lim, p, at)
            == Table(if lim.maxRows < 0 then [] else if |f| <= lim.maxRows then f else f[|f| - lim.maxRows..],
                     t.nextId + 1)
  {
    hide Fresh, RowFor, Cutoff, Newest;
    NewestRows(Fresh(t.rows + [RowFor(t, p, at.arrival)], Cutoff(lim, at.trim)), lim.maxRows);
  }

  lemma {:induction false} WithoutKeepsOrder(rows: seq<Row>, ids: set<nat>)
    requires Increasing(rows)
    ensures Increasing(Without(rows, ids))
  {
    if rows == [] {
    } else {
      hide Increasing;
      IncreasingTail(rows);
      WithoutKeepsOrder(rows[1..], ids);
      IncreasingCons(rows[0], Without(rows[1..], ids));
    }
  }

  lemma {:induction false} WithoutNothing(rows: seq<Row>)
    ensures Without(rows, {}) == rows
  {
    if rows == [] {
    } else {
      WithoutNothing(rows[1..]);
    }
  }

  lemma {:induction false} WithoutTwice(rows: seq<Row>, a: set<nat>, b: set<nat>)
    ensures Without(Without(rows, a), b) == Without(rows, a + b)
  {
    if rows == [] {
    } else {
      hide Without;
      var first, rest := rows[0], rows[1..];
      assert rows == [first] + rest;
      WithoutTwice(rest, a, b);
      WithoutCons(first, rest, a);
      WithoutCons(first, rest, a + b);
      WithoutCons(first, Without(rest, a), b);
    }
  }

  lemma WithoutCons(r: Row, rows: seq<Row>, ids: set<nat>)
    ensures Without([r] + rows, ids)
         == if r.id in ids then Without(rows, ids) else [r] + Without(rows, ids)
  {
    assert ([r] + rows)[1..] == rows;
  }

  /** Acknowledging the first n rows removes exactly that prefix. */
  lemma {:induction false} AckPrefix(rows: seq<Row>, n: nat)
    requires Increasing(rows) && n <= |rows|
    ensures Without(rows, Ids(rows[..n])) == rows[n..]
  {
    if n == 0 {
      assert Ids(rows[..0]) == {};
      WithoutNothing(rows);
    } else {
      var rest := Ids(rows[1..][..n - 1]);
      AckPrefix(rows[1..], n - 1);
      IdsCons(rows, n);
      WithoutAbsent(rows[1..], rows[0].id, rest);
      assert Without(rows, {rows[0].id} + rest) == Without(rows[1..], {rows[0].id} + rest);
    }
  }

  lemma IdsCons(rows: seq<Row>, n: nat)
    requires 0 < n <= |rows|
    ensures Ids(rows[..n]) == {rows[0].id} + Ids(rows[1..][..n - 1])
  {
    assert rows[..n] == [rows[0]] + rows[1..][..n - 1];
  }

  lemma {:induction false} WithoutAbsent(rows: seq<Row>, id: nat, ids: set<nat>)
    requires forall r :: r in rows ==> r.id != id
    ensures Without(rows, {id} + ids) == Without(rows, ids)
  {
    if rows == [] {
    } else {
      WithoutAbsent(rows[1..], id, ids);
    }
  }
}
