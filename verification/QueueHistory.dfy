/** What the queue holds, over any interleaving of pushes and acknowledged prefixes, compared
    with everything ever enqueued. */
module QueueHistory {
  import opened DiskQueue
  import opened Prelude

  datatype Op = Enqueue(payload: Payload, at: Clock) | Acked(n: nat)

  /** The table, beside every row it ever held, oldest first. */
  datatype History = History(table: Table, all: seq<Row>)

  function Opened(t: Table): History {
    History(t, t.rows)
  }

  function Apply(h: History, lim: Limits, op: Op): History {
    match op
    case Enqueue(p, at) =>
      History(PushTable(h.table, lim, p, at), h.all + [RowFor(h.table, p, at.arrival)])
    case Acked(n) =>
      h.(table := h.table.(rows := h.table.rows[BatchSize(h.table.rows, n)..]))
  }

  function Run(h: History, lim: Limits, ops: seq<Op>): History {
    if ops == [] then h else Apply(Run(h, lim, ops[..|ops| - 1]), lim, ops[|ops| - 1])
  }

  predicate ByTs(rows: seq<Row>) {
    forall i, j :: 0 <= i < j < |rows| ==> rows[i].ts <= rows[j].ts
  }

  predicate SuffixOf(rows: seq<Row>, all: seq<Row>) {
    |rows| <= |all| && rows == all[|all| - |rows|..]
  }

  function Stale(rows: seq<Row>, cutoff: int): (k: nat)
    ensures k <= |rows|
  {
    |rows| - |Fresh(rows, cutoff)|
  }

  /** No aged row stands behind a fresh one. */
  predicate AgedFirst(rows: seq<Row>, cutoff: int) {
    forall i, j :: 0 <= i < j < |rows| && rows[j].ts < cutoff ==> rows[i].ts < cutoff
  }

  lemma {:induction false} AgedFirstIsSuffix(rows: seq<Row>, cutoff: int)
    requires AgedFirst(rows, cutoff)
    ensures Fresh(rows, cutoff) == rows[Stale(rows, cutoff)..]
    ensures forall i :: 0 <= i < |rows| ==> (rows[i].ts < cutoff <==> i < Stale(rows, cutoff))
  {
    if rows == [] {
    } else {
      assert forall i :: 0 < i < |rows| ==> rows[i] == rows[1..][i - 1];
      AgedFirstIsSuffix(rows[1..], cutoff);
      if rows[0].ts >= cutoff {
        assert Stale(rows[1..], cutoff) == 0 by {
          if |rows| > 1 {
            assert rows[1..][0].ts >= cutoff;
          }
        }
      }
    }
  }

  lemma {:induction false} FreshConcat(a: seq<Row>, b: seq<Row>, cutoff: int)
    ensures Fresh(a + b, cutoff) == Fresh(a, cutoff) + Fresh(b, cutoff)
  {
    if a == [] {
      assert a + b == b;
    } else {
      assert (a + b)[1..] == a[1..] + b;
      FreshConcat(a[1..], b, cutoff);
    }
  }

  lemma {:induction false} AllFresh(rows: seq<Row>, cutoff: int)
    requires forall r :: r in rows ==> r.ts >= cutoff
    ensures Fresh(rows, cutoff) == rows
  {
    if rows == [] {
    } else {
      AllFresh(rows[1..], cutoff);
    }
  }

  lemma SuffixCuts(rows: seq<Row>, cutoff: int)
    requires SuffixOf(Fresh(rows, cutoff), rows)
    ensures forall r :: r in rows[..Stale(rows, cutoff)] ==> r.ts < cutoff
    ensures forall r :: r in rows[Stale(rows, cutoff)..] ==> r.ts >= cutoff
  {
    hide Fresh;
    var n := Stale(rows, cutoff);
    var front, back := rows[..n], rows[n..];
    assert rows == front + back;
    FreshConcat(front, back, cutoff);
    AllFresh(back, cutoff);
    assert |Fresh(front, cutoff)| == 0;
  }

  lemma CutIsAgedFirst(rows: seq<Row>, n: nat, cutoff: int)
    requires n <= |rows|
    requires forall r :: r in rows[..n] ==> r.ts < cutoff
    requires forall r :: r in rows[n..] ==> r.ts >= cutoff
    ensures AgedFirst(rows, cutoff)
  {
    forall i | 0 <= i < |rows| ensures rows[i].ts < cutoff <==> i < n {
      if i < n {
        assert rows[i] in rows[..n];
      } else {
        assert rows[i] in rows[n..];
      }
    }
  }

  /** Exactly when the age trim removes a prefix and leaves a suffix. */
  lemma AgeTrimExactly(rows: seq<Row>, cutoff: int)
    ensures SuffixOf(Fresh(rows, cutoff), rows) <==> AgedFirst(rows, cutoff)
  {
    hide Fresh, AgedFirst;
    if AgedFirst(rows, cutoff) {
      AgedFirstIsSuffix(rows, cutoff);
    }
    if SuffixOf(Fresh(rows, cutoff), rows) {
      SuffixCuts(rows, cutoff);
      CutIsAgedFirst(rows, Stale(rows, cutoff), cutoff);
    }
  }

  const TEN := Clock(10.0, 10.0)

  /** A late timestamp breaks the suffix: a payload of second 0 arrives behind one of second 10
      and is trimmed at once, while the one before it stays. */
  lemma LateTimestampBreaksSuffix()
    ensures var ops := [Enqueue(Payload(Some(10), ""), TEN), Enqueue(Payload(Some(0), ""), TEN)];
            var h := Run(Opened(Table([], 1)), Limits(100, 5.0), ops);
            |h.table.rows| == 1 && |h.all| == 2 && !SuffixOf(h.table.rows, h.all)
  {
    var lim, h0 := Limits(100, 5.0), Opened(Table([], 1));
    var a, b := Enqueue(Payload(Some(10), ""), TEN), Enqueue(Payload(Some(0), ""), TEN);
    var early, late := Row(1, 10, a.payload), Row(2, 0, b.payload);
    assert Cutoff(lim, 10.0) == 5;
    assert [a, b][..1] == [a] && [a][..0] == [];
    FreshPair(early, late, 5);
    assert [] + [early] == [early] && [early] + [late] == [early, late];
    assert Apply(h0, lim, a) == History(Table([early], 2), [early]);
    assert Apply(History(Table([early], 2), [early]), lim, b) == History(Table([early], 3), [early, late]);
    assert Run(h0, lim, [a]) == Apply(h0, lim, a);
    assert [early, late][1..] == [late];
  }

  lemma FreshPair(early: Row, late: Row, cutoff: int)
    requires late.ts < cutoff <= early.ts
    ensures Fresh([early], cutoff) == [early] && Fresh([early, late], cutoff) == [early]
  {
    assert [early, late] == [early] + [late];
    assert Fresh([late], cutoff) == [];
    FreshConcat([early], [late], cutoff);
  }

  /** On rows in timestamp order, the age trim removes a prefix. */
  lemma FreshIsSuffix(rows: seq<Row>, cutoff: int)
    requires ByTs(rows)
    ensures Fresh(rows, cutoff) == rows[Stale(rows, cutoff)..]
    ensures forall i :: 0 <= i < |rows| ==> (rows[i].ts < cutoff <==> i < Stale(rows, cutoff))
  {
    hide Fresh;
    AgedFirstIsSuffix(rows, cutoff);
  }

  function Later(a: nat, b: nat): (c: nat)
    ensures (c == a || c == b) && a <= c && b <= c
  {
    if a < b then b else a
  }

  /** k cuts timestamp-ordered rows into the aged and the rest. */
  lemma StaleIs(rows: seq<Row>, cutoff: int, k: nat)
    requires ByTs(rows) && k <= |rows|
    requires k > 0 ==> rows[k - 1].ts < cutoff
    requires k < |rows| ==> rows[k].ts >= cutoff
    ensures Stale(rows, cutoff) == k
    ensures Fresh(rows, cutoff) == rows[k..]
  {
    hide Fresh;
    FreshIsSuffix(rows, cutoff);
  }

  lemma StaleCuts(rows: seq<Row>, cutoff: int)
    requires ByTs(rows)
    ensures var k := Stale(rows, cutoff);
            && (k > 0 ==> rows[k - 1].ts < cutoff)
            && (k < |rows| ==> rows[k].ts >= cutoff)
  {
    hide Fresh;
    FreshIsSuffix(rows, cutoff);
  }

  lemma FreshOfSuffix(all: seq<Row>, k: nat, cutoff: int)
    requires ByTs(all) && k <= |all|
    ensures Fresh(all[k..], cutoff) == all[Later(k, Stale(all, cutoff))..]
  {
    hide Fresh, Stale;
    StaleCuts(all, cutoff);
    StaleIs(all[k..], cutoff, Later(k, Stale(all, cutoff)) - k);
  }

  lemma StalePush(all: seq<Row>, r: Row, cutoff: int)
    requires ByTs(all + [r])
    ensures ByTs(all)
    ensures Stale(all + [r], cutoff) >= Stale(all, cutoff)
    ensures r.ts >= cutoff ==> Stale(all + [r], cutoff) == Stale(all, cutoff)
  {
    hide Fresh;
    var more := all + [r];
    assert forall i :: 0 <= i < |all| ==> more[i] == all[i];
    StaleCuts(all, cutoff);
    StaleIs(more, cutoff, if r.ts >= cutoff then Stale(all, cutoff) else |more|);
  }

  lemma NewestIsSuffix(all: seq<Row>, k: nat, maxRows: int)
    requires k <= |all|
    ensures Newest(all[k..], maxRows) == all[k + Overflow(|all| - k, maxRows)..]
  {
  }

  /** One push, on a table holding the suffix of `all` from k. */
  lemma PushOnSuffix(t: Table, lim: Limits, p: Payload, at: Clock, all: seq<Row>, k: nat)
    requires k <= |all| && t.rows == all[k..]
    requires ByTs(all + [RowFor(t, p, at.arrival)])
    ensures var more := all + [RowFor(t, p, at.arrival)];
            var j := Later(k, Stale(more, Cutoff(lim, at.trim)));
            j <= |more|
            && PushTable(t, lim, p, at).rows == more[j + Overflow(|more| - j, lim.maxRows)..]
  {
    hide Fresh, Cutoff, RowFor, Stale, ByTs, Newest, Overflow;
    var more := all + [RowFor(t, p, at.arrival)];
    assert t.rows + [RowFor(t, p, at.arrival)] == more[k..];
    FreshOfSuffix(more, k, Cutoff(lim, at.trim));
    NewestIsSuffix(more, Later(k, Stale(more, Cutoff(lim, at.trim))), lim.maxRows);
  }

  /** With timestamps in order, acknowledging, ageing and overflow each remove a prefix: under
      any interleaving the queue is a contiguous suffix of everything ever enqueued. */
  lemma {:induction false} QueueIsSuffix(t: Table, lim: Limits, ops: seq<Op>)
    requires ByTs(Run(Opened(t), lim, ops).all)
    ensures SuffixOf(Run(Opened(t), lim, ops).table.rows, Run(Opened(t), lim, ops).all)
  {
    hide PushTable, RowFor;
    if ops == [] {
    } else {
      var before := Run(Opened(t), lim, ops[..|ops| - 1]);
      match ops[|ops| - 1]
      case Enqueue(p, at) =>
        var more := before.all + [RowFor(before.table, p, at.arrival)];
        assert Run(Opened(t), lim, ops).all == more;
        StalePush(before.all, RowFor(before.table, p, at.arrival), 0);
        QueueIsSuffix(t, lim, ops[..|ops| - 1]);
        PushOnSuffix(before.table, lim, p, at, before.all, |before.all| - |before.table.rows|);
      case Acked(n) =>
        QueueIsSuffix(t, lim, ops[..|ops| - 1]);
    }
  }

  lemma CutoffMonotone(lim: Limits, a: real, b: real)
    requires a <= b
    ensures Cutoff(lim, a) <= Cutoff(lim, b)
  {
  }

  /** A row counts as aged when its whole second lies `max_age` or more in the past; on a clock
      that reads less than `max_age` the cutoff is truncated upwards, and any older row counts. */
  lemma AgedMeansOld(lim: Limits, now: real, ts: int)
    ensures ts < Cutoff(lim, now)
       <==> if now >= lim.maxAge then (ts + 1) as real <= now - lim.maxAge else ts as real < now - lim.maxAge
  {
    var x := now - lim.maxAge;
    assert (ts + 1) as real <= x <==> ts + 1 <= x.Floor;
    assert ts as real < x <==> -x < (-ts) as real;
    assert -x < (-ts) as real <==> (-x).Floor < -ts;
  }

  predicate PushesOnly(ops: seq<Op>) {
    && (forall i :: 0 <= i < |ops| ==> ops[i].Enqueue?)
    && (forall i, j :: 0 <= i < j < |ops| ==> ops[i].at.trim <= ops[j].at.trim)
  }

  /** Trimming n rows and then one more cuts where a single trim of n + 1 rows would. */
  lemma TrimTwice(n: nat, a: nat, s: nat, maxRows: int)
    requires a <= n && a <= s <= n + 1
    ensures var j := Later(a + Overflow(n - a, maxRows), s);
            && j <= n + 1
            && j + Overflow(n + 1 - j, maxRows) == s + Overflow(n + 1 - s, maxRows)
  {
  }

  /** One push onto a table already trimmed at an earlier cutoff. */
  lemma PushOnTrimmed(t: Table, lim: Limits, p: Payload, at: Clock, all: seq<Row>, earlier: int)
    requires ByTs(all + [RowFor(t, p, at.arrival)]) && earlier <= Cutoff(lim, at.trim)
    requires t.rows == Newest(Fresh(all, earlier), lim.maxRows)
    ensures PushTable(t, lim, p, at).rows
         == Newest(Fresh(all + [RowFor(t, p, at.arrival)], Cutoff(lim, at.trim)), lim.maxRows)
  {
    hide PushTable, RowFor, Fresh, Cutoff, Stale, Newest, ByTs, Overflow, Later;
    var row, cutoff := RowFor(t, p, at.arrival), Cutoff(lim, at.trim);
    var more := all + [row];
    var a, s := Stale(all, earlier), Stale(more, cutoff);
    StalePush(all, row, cutoff);
    StaleMonotone(all, earlier, cutoff);
    FreshIsSuffix(all, earlier);
    FreshIsSuffix(more, cutoff);
    NewestIsSuffix(all, a, lim.maxRows);
    NewestIsSuffix(more, s, lim.maxRows);
    TrimTwice(|all|, a, s, lim.maxRows);
    PushOnSuffix(t, lim, p, at, all, a + Overflow(|all| - a, lim.maxRows));
  }

  lemma PushOnUntrimmed(t: Table, lim: Limits, p: Payload, at: Clock)
    ensures PushTable(t, lim, p, at).rows
         == Newest(Fresh(t.rows + [RowFor(t, p, at.arrival)], Cutoff(lim, at.trim)), lim.maxRows)
  {
  }

  /** While nothing is drained and clock and timestamps advance, every push leaves exactly the
      newest `maxRows` of the payloads not yet aged: trimming early loses nothing extra. */
  lemma {:induction false} PushesKeepNewest(t: Table, lim: Limits, ops: seq<Op>)
    requires |ops| > 0 && PushesOnly(ops)
    requires ByTs(Run(Opened(t), lim, ops).all)
    ensures var h := Run(Opened(t), lim, ops);
            var f := Fresh(h.all, Cutoff(lim, ops[|ops| - 1].at.trim));
            h.table.rows
            == if lim.maxRows < 0 then [] else if |f| <= lim.maxRows then f else f[|f| - lim.maxRows..]
  {
    hide PushTable, RowFor, Fresh, Cutoff, Newest, ByTs;
    var front := ops[..|ops| - 1];
    var p, at := ops[|ops| - 1].payload, ops[|ops| - 1].at;
    var before := Run(Opened(t), lim, front);
    var row := RowFor(before.table, p, at.arrival);
    assert Run(Opened(t), lim, ops) == Apply(before, lim, ops[|ops| - 1]);
    NewestRows(Fresh(before.all + [row], Cutoff(lim, at.trim)), lim.maxRows);
    if front == [] {
      PushOnUntrimmed(before.table, lim, p, at);
    } else {
      NewestRows(Fresh(before.all, Cutoff(lim, front[|front| - 1].at.trim)), lim.maxRows);
      StalePush(before.all, row, 0);
      PushesKeepNewest(t, lim, front);
      CutoffMonotone(lim, front[|front| - 1].at.trim, at.trim);
      PushOnTrimmed(before.table, lim, p, at, before.all, Cutoff(lim, front[|front| - 1].at.trim));
    }
  }

  lemma StaleMonotone(rows: seq<Row>, a: int, b: int)
    requires ByTs(rows) && a <= b
    ensures Stale(rows, a) <= Stale(rows, b)
  {
    hide Fresh;
    StaleCuts(rows, a);
    StaleCuts(rows, b);
  }

  /** Whatever the timestamps: the queue is an in-order subsequence of everything enqueued. */
  lemma {:induction false} QueueIsSubsequence(t: Table, lim: Limits, ops: seq<Op>)
    requires ValidTable(t)
    ensures var h := Run(Opened(t), lim, ops);
            && ValidTable(h.table) && Increasing(h.all)
            && (forall r :: r in h.all ==> r.id < h.table.nextId)
            && (forall r :: r in h.table.rows ==> r in h.all)
  {
    hide PushTable;
    if ops == [] {
    } else {
      QueueIsSubsequence(t, lim, ops[..|ops| - 1]);
      var before := Run(Opened(t), lim, ops[..|ops| - 1]);
      match ops[|ops| - 1]
      case Enqueue(p, at) =>
        PushKeepsValid(before.table, lim, p, at);
        PushedRows(before.table, lim, p, at);
      case Acked(n) =>
    }
  }
}
