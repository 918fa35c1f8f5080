/** One call of `push_sink` in terms of the replies it meets, and over runs the token its requests
    carry. */
module SinkCalls {
  import opened Prelude
  import opened DiskQueue
  import opened Transport
  import opened Sink
  import opened SinkLedger
  import Reclaim

  // ---- While a re-enrolment runs ----

  /** The token the backend issues becomes the client's and ends the re-enrolment; without one only
      the flow moves, its requests a minute apart. */
  lemma ReclaimingCall(env: Env, st: State, call: Call)
    requires st.reclaim.Some?
    ensures var flow, st' := st.reclaim.value, SinkStep(env, st, call);
            && (forall t :: Reclaim.Issues(flow, call.step, t) ==>
                  st' == st.(link := st.link.(token := t), reclaim := None, authFails := 0))
            && ((forall t :: !Reclaim.Issues(flow, call.step, t)) ==>
                  st' == st.(reclaim := Some(Reclaim.StepFlow(flow, 60.0, call.step).flow)))
  {
    hide Reclaim.StepFlow, Reclaim.Issues;
    var flow := st.reclaim.value;
    var token := Reclaim.StepFlow(flow, 60.0, call.step).token;
    forall t | Reclaim.Issues(flow, call.step, t) ensures token == Some(t) {
      Reclaim.TokenExactly(flow, 60.0, call.step, t);
    }
    if token.Some? {
      Reclaim.TokenExactly(flow, 60.0, call.step, token.value);
    }
  }

  // ---- Live calls ----

  /** A live push answered below 300: delivered and booked, with nothing left against the token. */
  lemma AcceptedCall(env: Env, st: State, call: Call, status: int, l: Ledger)
    requires st.reclaim.None? && env.replies(st.link.cursor) == Http(status) && status < 300
    ensures var st', l' := SinkStep(env, st, call), Book(env, st, call, l);
            && st'.authFails == 0 && st'.reclaim.None? && st'.link.token == st.link.token
            && l'.accepted >= l.accepted + multiset{call.payload}
            && (st.queue.None? || st.queue.value.rows == [] ==>
                  && st'.queue == st.queue && st'.link.authStatus.None?
                  && l' == l.(given := l.given + multiset{call.payload},
                              accepted := l.accepted + multiset{call.payload}))
  {
    hide PushLink, DrainAll;
    FirstReplyDecides(env.replies, st.link, call.payload, status);
    BacklogDrain(env, st, PushLink(env.replies, st.link, call.payload).link);
  }

  /** A live push answered 401, 403 or 410, or any other 4xx while such an answer still stands: a
      strike, and the third one wipes the token and starts a re-enrolment from nothing. */
  lemma StruckCall(env: Env, st: State, call: Call, status: int, l: Ledger)
    requires st.reclaim.None? && env.replies(st.link.cursor) == Http(status)
    requires status in {401, 403, 410} || (400 <= status < 500 && st.link.authStatus.Some?)
    ensures var st' := SinkStep(env, st, call);
            var auth := if status in {401, 403, 410} then Some(status) else st.link.authStatus;
            && st' == State(Link(if st.authFails >= 2 then "" else st.link.token, auth, st.link.cursor + 1,
                                 st.link.log + [Attempt(st.link.token, call.payload)]),
                            st.authFails + 1,
                            if st.authFails >= 2 then Some(Reclaim.Flow("", 0.0, false)) else None,
                            st.queue)
            && Book(env, st, call, l) == l.(given := l.given + multiset{call.payload},
                                            rejected := l.rejected + multiset{call.payload})
  {
    hide PushLink;
    FirstReplyDecides(env.replies, st.link, call.payload, status);
  }

  /** Another 4xx with no such answer standing: the payload is given up, the backlog drained, and the
      token is not held to blame. */
  lemma PlainlyRejectedCall(env: Env, st: State, call: Call, status: int, l: Ledger)
    requires st.reclaim.None? && env.replies(st.link.cursor) == Http(status) && st.link.authStatus.None?
    requires 400 <= status < 500 && status !in {401, 403, 410}
    ensures var st', l' := SinkStep(env, st, call), Book(env, st, call, l);
            && st'.authFails == 0 && st'.reclaim.None? && st'.link.token == st.link.token
            && l'.rejected >= l.rejected + multiset{call.payload}
            && (st.queue.None? || st.queue.value.rows == [] ==>
                  && st'.queue == st.queue && st'.link.authStatus.None?
                  && l' == l.(given := l.given + multiset{call.payload},
                              rejected := l.rejected + multiset{call.payload}))
  {
    hide PushLink, DrainAll;
    FirstReplyDecides(env.replies, st.link, call.payload, status);
    BacklogDrain(env, st, PushLink(env.replies, st.link, call.payload).link);
  }

  /** The backlog behind a delivered payload, or behind one plainly rejected with no auth answer
      standing: the oldest rows go, as many as do not fail transiently, one after the other. */
  lemma DrainingCall(env: Env, st: State, call: Call, status: int) returns (n: nat)
    requires st.reclaim.None? && st.queue.Some? && env.replies(st.link.cursor) == Http(status)
    requires status < 300 || (400 <= status < 500 && status !in {401, 403, 410} && st.link.authStatus.None?)
    ensures var t, st' := st.queue.value, SinkStep(env, st, call);
            var sent := Link(st.link.token, None, st.link.cursor + 1,
                             st.link.log + [Attempt(st.link.token, call.payload)]);
            && n <= |t.rows| && st'.queue == Some(Table(t.rows[n..], t.nextId))
            && (forall k :: 0 <= k < n ==> !OutcomeOf(env.replies, t.rows, sent, k).Transient?)
            && (n < |t.rows| ==> OutcomeOf(env.replies, t.rows, sent, n).Transient?)
            && st'.link == LinkAfter(env.replies, t.rows, sent, if n < |t.rows| then n + 1 else n)
  {
    hide PushLink, DrainAll, OutcomeOf, LinkAfter;
    FirstReplyDecides(env.replies, st.link, call.payload, status);
    var link := PushLink(env.replies, st.link, call.payload).link;
    DrainTakesLongestPrefix(env.replies, st.queue.value.rows, link);
    n := |DrainAll(env.replies, st.queue.value.rows, link).outcomes|;
  }

  predicate IsTransient(reply: Reply) {
    reply.NetworkError? || 300 <= reply.status < 400 || reply.status >= 500
  }

  /** Two transient replies: the payload joins the queue, and nothing else changes but the log. */
  lemma DeferredCall(env: Env, st: State, call: Call)
    requires st.reclaim.None?
    requires IsTransient(env.replies(st.link.cursor)) && IsTransient(env.replies(st.link.cursor + 1))
    ensures var one := Attempt(st.link.token, call.payload);
            SinkStep(env, st, call)
            == st.(link := st.link.(cursor := st.link.cursor + 2, log := st.link.log + [one, one]),
                   queue := if st.queue.None? then None
                            else Some(PushTable(st.queue.value, env.limits, call.payload, call.at)))
  {
    hide PushLink, PushTable;
    SecondReplyDecides(env.replies, st.link, call.payload);
  }

  /** The rows left unaged when a call's payload joins the queue. */
  function Unaged(env: Env, t: Table, call: Call): seq<Row> {
    Fresh(t.rows + [RowFor(t, call.payload, call.at.arrival)], Cutoff(env.limits, call.at.trim))
  }

  /** Nothing is booked as overflow while the unaged rows fit the cap; beyond it, the oldest of them
      that do not fit are. */
  lemma OverflowOnlyBeyondCap(env: Env, st: State, call: Call, l: Ledger)
    requires st.queue.Some? && env.limits.maxRows >= 0
    ensures var f, over := Unaged(env, st.queue.value, call), Book(env, st, call, l).overflow;
            && (|f| <= env.limits.maxRows ==> over == l.overflow)
            && (over != l.overflow ==>
                  |f| > env.limits.maxRows && over == l.overflow + BagOf(f[..|f| - env.limits.maxRows]))
  {
    hide PushLink, DrainAll, Fresh, Aged, RowFor, Cutoff, BagOf;
    assert BagOf([]) == multiset{} by {
      EmptyBag();
    }
  }

  lemma EmptyBag()
    ensures BagOf([]) == multiset{}
  {
  }

  /** A bag of rows holds each payload as often as the rows do. */
  lemma {:induction false} BagOfCounts(rows: seq<Row>)
    ensures BagOf(rows) == multiset(seq(|rows|, i requires 0 <= i < |rows| => rows[i].payload))
  {
    if rows == [] {
    } else {
      BagOfCounts(rows[1..]);
      var tail := seq(|rows| - 1, i requires 0 <= i < |rows| - 1 => rows[1..][i].payload);
      assert seq(|rows|, i requires 0 <= i < |rows| => rows[i].payload) == [rows[0].payload] + tail;
    }
  }

  /** A drained row is booked as accepted if its own push was, and as rejected otherwise. */
  lemma {:induction false} SettledByOutcome(rows: seq<Row>, outcomes: seq<Outcome>, row: Row, o: Outcome)
    requires |outcomes| == |rows|
    ensures Settled(rows + [row], outcomes + [o], true)
         == Settled(rows, outcomes, true) + if o.Accepted? then multiset{row.payload} else multiset{}
    ensures Settled(rows + [row], outcomes + [o], false)
         == Settled(rows, outcomes, false) + if o.Accepted? then multiset{} else multiset{row.payload}
    decreases |rows|
  {
    var more, all := rows + [row], outcomes + [o];
    if rows == [] {
      assert more[1..] == [] && all[1..] == [];
    } else {
      assert more[1..] == rows[1..] + [row] && all[1..] == outcomes[1..] + [o];
      SettledByOutcome(rows[1..], outcomes[1..], row, o);
    }
  }

  // ---- Requests and tokens ----

  lemma {:induction false} DrainRequests(replies: Replies, rows: seq<Row>, link: Link)
    ensures var d := DrainAll(replies, rows, link);
            && d.link.token == link.token && link.log <= d.link.log
            && (forall i :: |link.log| <= i < |d.link.log| ==> d.link.log[i].token == link.token)
    decreases |rows|
  {
    hide PushLink;
    if rows == [] {
    } else {
      var p := PushLink(replies, link, rows[0].payload);
      PushMeaning(replies, link, rows[0].payload);
      if !p.outcome.Transient? {
        DrainRequests(replies, rows[1..], p.link);
        DrainPrepend(replies, rows[1..], p.link, [p.outcome], []);
        assert [p.outcome] + [] == [] + [p.outcome];
      }
    }
  }

  lemma BacklogDrain(env: Env, st: State, link: Link)
    ensures var d := Backlog(env, st, link);
            && d.link.token == link.token && link.log <= d.link.log
            && (forall i :: |link.log| <= i < |d.link.log| ==> d.link.log[i].token == link.token)
            && (st.queue.None? || st.queue.value.rows == [] ==> d == Transport.Drained(link, []))
  {
    if st.queue.Some? {
      DrainRequests(env.replies, st.queue.value.rows, link);
    }
  }

  /** A live call first sends its own payload, and all its requests carry the client's token, which
      it keeps unless it wipes it. */
  lemma LiveRequests(env: Env, st: State, call: Call)
    requires st.reclaim.None?
    ensures var log, st' := st.link.log, SinkStep(env, st, call);
            && log < st'.link.log && st'.link.log[|log|].payload == call.payload
            && (forall i :: |log| <= i < |st'.link.log| ==> st'.link.log[i].token == st.link.token)
            && (if st'.reclaim.Some? then st'.link.token == "" else st'.link.token == st.link.token)
  {
    hide PushLink, DrainAll, PushTable;
    PushMeaning(env.replies, st.link, call.payload);
    BacklogDrain(env, st, PushLink(env.replies, st.link, call.payload).link);
  }

  /** Call n of a run gets token t out of the backend. */
  predicate IssuedAt(env: Env, st: State, calls: seq<Call>, n: nat, t: string) {
    && n < |calls|
    && var s := RunState(env, st, calls[..n]);
       s.reclaim.Some? && Reclaim.Issues(s.reclaim.value, calls[n].step, t)
  }

  /** The token of the latest issue, or the initial one before the first. */
  ghost predicate IsLatestToken(env: Env, st: State, calls: seq<Call>, token: string) {
    || (token == st.link.token && forall n: nat, t :: !IssuedAt(env, st, calls, n, t))
    || exists n: nat :: LatestAt(env, st, calls, n, token)
  }

  /** Call n got the token, and no later call got another. */
  ghost predicate LatestAt(env: Env, st: State, calls: seq<Call>, n: nat, token: string) {
    && IssuedAt(env, st, calls, n, token)
    && forall m, t :: n < m < |calls| ==> !IssuedAt(env, st, calls, m, t)
  }

  lemma IssuedFront(env: Env, st: State, calls: seq<Call>, n: nat, t: string)
    requires calls != [] && n < |calls| - 1
    ensures IssuedAt(env, st, calls[..|calls| - 1], n, t) <==> IssuedAt(env, st, calls, n, t)
  {
    hide RunState;
    assert calls[..|calls| - 1][..n] == calls[..n];
  }

  lemma LatestStays(env: Env, st: State, calls: seq<Call>, token: string)
    requires calls != [] && IsLatestToken(env, st, calls[..|calls| - 1], token)
    requires forall m: nat, t :: |calls| - 1 <= m ==> !IssuedAt(env, st, calls, m, t)
    ensures IsLatestToken(env, st, calls, token)
  {
    hide IssuedAt;
    var front, last := calls[..|calls| - 1], |calls| - 1;
    forall m: nat, t | m < last ensures IssuedAt(env, st, front, m, t) <==> IssuedAt(env, st, calls, m, t) {
      IssuedFront(env, st, calls, m, t);
    }
    OnlyInRange(env, st, front);
    OnlyInRange(env, st, calls);
    if n: nat :| LatestAt(env, st, front, n, token) {
      assert LatestAt(env, st, calls, n, token);
    }
  }

  lemma OnlyInRange(env: Env, st: State, calls: seq<Call>)
    ensures forall n: nat, t :: IssuedAt(env, st, calls, n, t) ==> n < |calls|
  {
  }

  /** Over every run: whenever no re-enrolment is under way, the client holds the token issued
      last, or its first one if none was issued since the start. */
  lemma {:induction false} TokenIsLatestIssued(env: Env, st: State, calls: seq<Call>)
    requires st.reclaim.None?
    ensures var end := RunState(env, st, calls);
            end.reclaim.None? ==> IsLatestToken(env, st, calls, end.link.token)
  {
    if calls == [] {
    } else {
      hide SinkStep, IsLatestToken, Reclaim.Issues;
      var front, last := calls[..|calls| - 1], calls[|calls| - 1];
      var s, end := RunState(env, st, front), RunState(env, st, calls);
      TokenIsLatestIssued(env, st, front);
      if s.reclaim.None? {
        LiveRequests(env, s, last);
        if end.reclaim.None? {
          LatestStays(env, st, calls, end.link.token);
        }
      } else if t :| Reclaim.Issues(s.reclaim.value, last.step, t) {
        ReclaimingCall(env, s, last);
        JustIssued(env, st, calls, t);
      } else {
        ReclaimingCall(env, s, last);
      }
    }
  }

  lemma JustIssued(env: Env, st: State, calls: seq<Call>, t: string)
    requires calls != [] && IssuedAt(env, st, calls, |calls| - 1, t)
    ensures IsLatestToken(env, st, calls, t)
  {
    assert LatestAt(env, st, calls, |calls| - 1, t);
  }

  /** Over every run: each request of a call carries the token issued last before it, or the first
      one if none was; a call made while re-enrolling sends nothing. */
  lemma RequestsCarryLatestToken(env: Env, st: State, calls: seq<Call>, call: Call)
    requires st.reclaim.None?
    ensures var before, after := RunState(env, st, calls), SinkStep(env, RunState(env, st, calls), call);
            && before.link.log <= after.link.log
            && (forall i :: |before.link.log| <= i < |after.link.log| ==>
                  IsLatestToken(env, st, calls, after.link.log[i].token))
            && (before.reclaim.Some? ==> after.link.log == before.link.log)
  {
    hide IsLatestToken;
    var before := RunState(env, st, calls);
    TokenIsLatestIssued(env, st, calls);
    if before.reclaim.None? {
      LiveRequests(env, before, call);
    } else {
      Untouched(env, before, call);
    }
  }

  lemma Untouched(env: Env, st: State, call: Call)
    requires st.reclaim.Some?
    ensures SinkStep(env, st, call).link.log == st.link.log
  {
  }
}
