/** Where every payload handed to `push_sink` is: a ledger kept beside the run. */
module SinkLedger {
  import opened Prelude
  import opened DiskQueue
  import opened Transport
  import opened Sink

  type Bag = multiset<Payload>

  datatype Ledger = Ledger(
    given: Bag, accepted: Bag, rejected: Bag, unenrolled: Bag, unbuffered: Bag, aged: Bag, overflow: Bag)

  function BagOf(rows: seq<Row>): Bag {
    if rows == [] then multiset{} else multiset{rows[0].payload} + BagOf(rows[1..])
  }

  function Queued(st: State): Bag {
    if st.queue.None? then multiset{} else BagOf(st.queue.value.rows)
  }

  /** The rows the age trim deletes. */
  function Aged(rows: seq<Row>, cutoff: int): (gone: seq<Row>)
    ensures forall r :: r in gone <==> r in rows && r.ts < cutoff
  {
    if rows == [] then []
    else if rows[0].ts < cutoff then [rows[0]] + Aged(rows[1..], cutoff)
    else Aged(rows[1..], cutoff)
  }

  /** The rows the cap deletes: the oldest ones beyond it. */
  function Overflowed(rows: seq<Row>, maxRows: int): seq<Row> {
    rows[..Overflow(|rows|, maxRows)]
  }

  /** The drained payloads that ended accepted, or the others. */
  function Settled(rows: seq<Row>, outcomes: seq<Outcome>, accepted: bool): Bag
    requires |outcomes| <= |rows|
  {
    if outcomes == [] then multiset{}
    else
      var rest := Settled(rows[1..], outcomes[1..], accepted);
      if outcomes[0].Accepted? == accepted then multiset{rows[0].payload} + rest else rest
  }

  function Parked(env: Env, st: State, call: Call, l: Ledger): Ledger {
    match st.queue
    case None => l.(unbuffered := l.unbuffered + multiset{call.payload})
    case Some(t) =>
      var rows := t.rows + [RowFor(t, call.payload, call.at.arrival)];
      var cutoff := Cutoff(env.limits, call.at.trim);
      l.(aged := l.aged + BagOf(Aged(rows, cutoff)),
         overflow := l.overflow + BagOf(Overflowed(Fresh(rows, cutoff), env.limits.maxRows)))
  }

  function Settle(l: Ledger, rows: seq<Row>, outcomes: seq<Outcome>): Ledger
    requires |outcomes| <= |rows|
  {
    l.(accepted := l.accepted + Settled(rows, outcomes, true),
       rejected := l.rejected + Settled(rows, outcomes, false))
  }

  /** What one call books: the payload it brings, and the rows it drains or trims. */
  function Book(env: Env, st: State, call: Call, ledger: Ledger): Ledger {
    var one := multiset{call.payload};
    var l := ledger.(given := ledger.given + one);
    if st.reclaim.Some? then l.(unenrolled := l.unenrolled + one)
    else
      var p := PushLink(env.replies, st.link, call.payload);
      match p.outcome
      case Transient => Parked(env, st, call, l)
      case Accepted => Cleared(env, st, p.link, l.(accepted := l.accepted + one))
      case Rejected(_) => Cleared(env, st, p.link, l.(rejected := l.rejected + one))
  }

  function Cleared(env: Env, st: State, link: Link, l: Ledger): Ledger {
    if link.authStatus.Some? || st.queue.None? then l
    else
      var rows := st.queue.value.rows;
      DrainTakesLongestPrefix(env.replies, rows, link);
      Settle(l, rows, DrainAll(env.replies, rows, link).outcomes)
  }

  /** Every payload that is no longer waiting. */
  function Booked(l: Ledger): Bag {
    l.accepted + l.rejected + l.unenrolled + l.unbuffered + l.aged + l.overflow
  }

  predicate Balanced(st: State, l: Ledger) {
    l.given == Booked(l) + Queued(st)
  }

  lemma BookedGrows(l: Ledger, a: Bag, b: Bag)
    ensures Booked(l.(accepted := l.accepted + a, rejected := l.rejected + b)) == Booked(l) + a + b
    ensures Booked(l.(aged := l.aged + a, overflow := l.overflow + b)) == Booked(l) + a + b
  {
  }

  lemma BookedOne(l: Ledger, one: Bag)
    ensures Booked(l.(accepted := l.accepted + one)) == Booked(l) + one
    ensures Booked(l.(rejected := l.rejected + one)) == Booked(l) + one
    ensures Booked(l.(unenrolled := l.unenrolled + one)) == Booked(l) + one
    ensures Booked(l.(unbuffered := l.unbuffered + one)) == Booked(l) + one
  {
  }

  /** Moving bags a and b out of the queue and into the books. */
  lemma Moved(booked: Bag, a: Bag, b: Bag, left: Bag, was: Bag)
    requires was == a + b + left
    ensures booked + was == booked + a + b + left
  {
  }

  lemma OneMore(booked: Bag, queued: Bag, one: Bag)
    ensures booked + queued + one == booked + one + queued
    ensures booked + queued + one == booked + (queued + one)
  {
  }

  lemma {:induction false} BagConcat(a: seq<Row>, b: seq<Row>)
    ensures BagOf(a + b) == BagOf(a) + BagOf(b)
  {
    if a == [] {
      assert a + b == b;
    } else {
      assert (a + b)[1..] == a[1..] + b;
      BagConcat(a[1..], b);
    }
  }

  lemma BagSplit(rows: seq<Row>, n: nat)
    requires n <= |rows|
    ensures BagOf(rows) == BagOf(rows[..n]) + BagOf(rows[n..])
  {
    assert rows == rows[..n] + rows[n..];
    BagConcat(rows[..n], rows[n..]);
  }

  lemma {:induction false} FreshAndAged(rows: seq<Row>, cutoff: int)
    ensures BagOf(rows) == BagOf(Fresh(rows, cutoff)) + BagOf(Aged(rows, cutoff))
  {
    if rows == [] {
    } else {
      FreshAndAged(rows[1..], cutoff);
      if rows[0].ts < cutoff {
        BagConcat([rows[0]], Aged(rows[1..], cutoff));
      } else {
        BagConcat([rows[0]], Fresh(rows[1..], cutoff));
      }
    }
  }

  lemma {:induction false} SettledIsPrefix(rows: seq<Row>, outcomes: seq<Outcome>)
    requires |outcomes| <= |rows|
    ensures Settled(rows, outcomes, true) + Settled(rows, outcomes, false) == BagOf(rows[..|outcomes|])
  {
    if outcomes == [] {
    } else {
      SettledIsPrefix(rows[1..], outcomes[1..]);
      BagFront(rows, |outcomes|);
      hide BagOf;
      Interchange(multiset{rows[0].payload}, Settled(rows[1..], outcomes[1..], true),
                  Settled(rows[1..], outcomes[1..], false));
    }
  }

  lemma BagFront(rows: seq<Row>, n: nat)
    requires 0 < n <= |rows|
    ensures BagOf(rows[..n]) == multiset{rows[0].payload} + BagOf(rows[1..][..n - 1])
  {
    assert rows[..n][1..] == rows[1..][..n - 1];
  }

  lemma Interchange(one: Bag, a: Bag, b: Bag)
    ensures (one + a) + b == one + (a + b)
    ensures a + (one + b) == one + (a + b)
  {
  }

  /** The rows a push leaves, and those it trims, are the rows there were and the new one. */
  lemma PushSplits(t: Table, lim: Limits, p: Payload, at: Clock)
    ensures var rows := t.rows + [RowFor(t, p, at.arrival)];
            var cutoff := Cutoff(lim, at.trim);
            BagOf(t.rows) + multiset{p}
            == BagOf(Aged(rows, cutoff)) + BagOf(Overflowed(Fresh(rows, cutoff), lim.maxRows))
               + BagOf(PushTable(t, lim, p, at).rows)
  {
    var row := RowFor(t, p, at.arrival);
    var rows, cutoff := t.rows + [row], Cutoff(lim, at.trim);
    var kept := Fresh(rows, cutoff);
    var n := Overflow(|kept|, lim.maxRows);
    assert BagOf([row]) == multiset{p} + BagOf([row][1..]);
    assert PushTable(t, lim, p, at).rows == kept[n..];
    hide Fresh, Aged, Cutoff, Overflow, RowFor, BagOf, PushTable;
    BagConcat(t.rows, [row]);
    FreshAndAged(rows, cutoff);
    BagSplit(kept, n);
    Regroup(BagOf(Aged(rows, cutoff)), BagOf(kept[..n]), BagOf(kept[n..]));
  }

  lemma Regroup(a: Bag, b: Bag, c: Bag)
    ensures (b + c) + a == a + b + c
  {
  }

  lemma ParkedBalances(env: Env, st: State, call: Call, ledger: Ledger, l: Ledger, st': State)
    requires Balanced(st, ledger) && l == ledger.(given := ledger.given + multiset{call.payload})
    requires st'.queue == if st.queue.None? then None
                          else Some(PushTable(st.queue.value, env.limits, call.payload, call.at))
    ensures Balanced(st', Parked(env, st, call, l))
  {
    hide Fresh, Aged, Cutoff, BagOf, PushTable, Overflowed, RowFor, Booked;
    var one := multiset{call.payload};
    assert Booked(l) == Booked(ledger) by {
      SameBooks(ledger, l);
    }
    OneMore(Booked(l), Queued(st), one);
    match st.queue
    case None =>
      BookedOne(l, one);
    case Some(t) =>
      var rows := t.rows + [RowFor(t, call.payload, call.at.arrival)];
      var cutoff := Cutoff(env.limits, call.at.trim);
      var a, b := BagOf(Aged(rows, cutoff)), BagOf(Overflowed(Fresh(rows, cutoff), env.limits.maxRows));
      PushSplits(t, env.limits, call.payload, call.at);
      BookedGrows(l, a, b);
      Moved(Booked(l), a, b, Queued(st'), Queued(st) + one);
  }

  lemma SameBooks(l: Ledger, m: Ledger)
    requires m == l.(given := m.given)
    ensures Booked(m) == Booked(l)
  {
  }

  lemma ClearedBalances(env: Env, st: State, link: Link, l: Ledger, st': State)
    requires Balanced(st, l)
    requires link.authStatus.Some? || st.queue.None? ==> st'.queue == st.queue
    requires link.authStatus.None? && st.queue.Some? ==>
               var n := |DrainAll(env.replies, st.queue.value.rows, link).outcomes|;
               n <= |st.queue.value.rows| && st'.queue.Some?
               && st'.queue.value.rows == st.queue.value.rows[n..]
    ensures Balanced(st', Cleared(env, st, link, l))
  {
    hide DrainAll, BagOf, Settled, Booked;
    if link.authStatus.None? && st.queue.Some? {
      var rows := st.queue.value.rows;
      var outcomes := DrainAll(env.replies, rows, link).outcomes;
      var yes, no := Settled(rows, outcomes, true), Settled(rows, outcomes, false);
      SettledIsPrefix(rows, outcomes);
      BagSplit(rows, |outcomes|);
      BookedGrows(l, yes, no);
      Moved(Booked(l), yes, no, Queued(st'), Queued(st));
    }
  }

  /** Conservation over one call. */
  lemma BookBalances(env: Env, st: State, call: Call, ledger: Ledger)
    requires Balanced(st, ledger)
    ensures Balanced(SinkStep(env, st, call), Book(env, st, call, ledger))
    ensures st.queue.Some? ==> Book(env, st, call, ledger).unbuffered == ledger.unbuffered
    ensures SinkStep(env, st, call).queue.Some? <==> st.queue.Some?
  {
    hide PushLink, DrainAll, BagOf, PushTable, Parked, Cleared, Booked;
    var one := multiset{call.payload};
    var l := ledger.(given := ledger.given + one);
    var st' := SinkStep(env, st, call);
    SameBooks(ledger, l);
    BookedOne(l, one);
    OneMore(Booked(l), Queued(st), one);
    if st.reclaim.None? {
      var p := PushLink(env.replies, st.link, call.payload);
      match p.outcome
      case Transient =>
        ParkedBalances(env, st, call, ledger, l, st');
        ParkedKeeps(env, st, call, l);
      case Accepted =>
        DrainedPrefix(env, st, p.link);
        ClearedBalances(env, st, p.link, l.(accepted := l.accepted + one), st');
        ClearedKeeps(env, st, p.link, l.(accepted := l.accepted + one));
      case Rejected(_) =>
        DrainedPrefix(env, st, p.link);
        ClearedBalances(env, st, p.link, l.(rejected := l.rejected + one), st');
        ClearedKeeps(env, st, p.link, l.(rejected := l.rejected + one));
    }
  }

  lemma ClearedKeeps(env: Env, st: State, link: Link, l: Ledger)
    ensures Cleared(env, st, link, l).unbuffered == l.unbuffered
  {
  }

  lemma ParkedKeeps(env: Env, st: State, call: Call, l: Ledger)
    ensures st.queue.Some? ==> Parked(env, st, call, l).unbuffered == l.unbuffered
  {
  }

  lemma DrainedPrefix(env: Env, st: State, link: Link)
    ensures st.queue.Some? ==>
              |DrainAll(env.replies, st.queue.value.rows, link).outcomes| <= |st.queue.value.rows|
  {
    if st.queue.Some? {
      DrainTakesLongestPrefix(env.replies, st.queue.value.rows, link);
    }
  }

  /** The books of a run; a backlog found at the start counts as given. */
  function RunLedger(env: Env, st: State, calls: seq<Call>): Ledger {
    if calls == [] then
      Ledger(Queued(st), multiset{}, multiset{}, multiset{}, multiset{}, multiset{}, multiset{})
    else
      var front := calls[..|calls| - 1];
      Book(env, RunState(env, st, front), calls[|calls| - 1], RunLedger(env, st, front))
  }

  function Payloads(calls: seq<Call>): Bag {
    if calls == [] then multiset{}
    else Payloads(calls[..|calls| - 1]) + multiset{calls[|calls| - 1].payload}
  }

  /** Conservation over every run: each payload handed in (and each of the initial backlog) is in
      exactly one of accepted, permanently rejected, dropped while unenrolled, trimmed as aged,
      trimmed as overflow, or still queued; with a queue, none is dropped for want of one. */
  lemma {:induction false} Conservation(env: Env, st: State, calls: seq<Call>)
    ensures var (l, end) := (RunLedger(env, st, calls), RunState(env, st, calls));
            && Balanced(end, l)
            && l.given == Queued(st) + Payloads(calls)
            && (end.queue.Some? <==> st.queue.Some?)
            && (st.queue.Some? ==> l.unbuffered == multiset{})
  {
    if calls == [] {
    } else {
      var front := calls[..|calls| - 1];
      Conservation(env, st, front);
      BookBalances(env, RunState(env, st, front), calls[|calls| - 1], RunLedger(env, st, front));
      BookGives(env, RunState(env, st, front), calls[|calls| - 1], RunLedger(env, st, front));
    }
  }

  lemma BookGives(env: Env, st: State, call: Call, ledger: Ledger)
    ensures Book(env, st, call, ledger).given == ledger.given + multiset{call.payload}
  {
  }
}
