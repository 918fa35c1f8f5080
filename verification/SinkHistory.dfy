/** Properties of every run of `push_sink`: the token/re-enrolment state machine, the meaning of
    a token wipe in terms of what was sent, and recovery. */
module SinkHistory {
  import opened Prelude
  import opened DiskQueue
  import opened Transport
  import opened Sink
  import Reclaim

  /** What happened, in order: the outcome of a live push, of a drained row, a new token. */
  datatype Event = Live(outcome: Outcome) | Drained(outcome: Outcome) | Reenrolled

  datatype World = World(st: State, events: seq<Event>)

  function DrainEvents(outcomes: seq<Outcome>): (events: seq<Event>)
    ensures |events| == |outcomes|
    ensures forall i :: 0 <= i < |events| ==> events[i] == Event.Drained(outcomes[i])
  {
    seq(|outcomes|, i requires 0 <= i < |outcomes| => Event.Drained(outcomes[i]))
  }

  /** What one call adds to the history. */
  function StepEvents(env: Env, st: State, call: Call): seq<Event> {
    match st.reclaim
    case Some(flow) =>
      if Reclaim.StepFlow(flow, Reclaim.MIN_INTERVAL, call.step).token.Some? then [Reenrolled] else []
    case None =>
      var p := PushLink(env.replies, st.link, call.payload);
      [Live(p.outcome)]
      + if p.outcome.Transient? || p.link.authStatus.Some? then []
        else DrainEvents(Backlog(env, st, p.link).outcomes)
  }

  function Advance(env: Env, w: World, call: Call): World {
    World(SinkStep(env, w.st, call), w.events + StepEvents(env, w.st, call))
  }

  function Run(env: Env, w: World, calls: seq<Call>): World {
    if calls == [] then w else Advance(env, Run(env, w, calls[..|calls| - 1]), calls[|calls| - 1])
  }

  /** The state component of a run is the run of states alone. */
  lemma {:induction false} RunIsRunState(env: Env, w: World, calls: seq<Call>)
    ensures Run(env, w, calls).st == RunState(env, w.st, calls)
  {
    hide SinkStep, StepEvents;
    if calls == [] {
    } else {
      RunIsRunState(env, w, calls[..|calls| - 1]);
    }
  }

  /** A daemon starting with a token. */
  predicate Configured(w: World) {
    && w.st.link.token != "" && w.st.link.authStatus.None? && w.st.link.log == []
    && w.st.authFails == 0 && w.st.reclaim.None? && w.events == []
    && (w.st.queue.Some? ==> ValidTable(w.st.queue.value))
  }

  // ---- What the history says ----

  predicate IsAccepted(e: Event) {
    !e.Reenrolled? && e.outcome.Accepted?
  }

  predicate IsAuthRejection(e: Event) {
    !e.Reenrolled? && IsAuth(e.outcome)
  }

  predicate IsLiveRejection(e: Event) {
    e.Live? && e.outcome.Rejected?
  }

  /** An auth rejection has come since the last accepted push, live or drained. */
  predicate AuthPending(h: seq<Event>) {
    exists a :: 0 <= a < |h| && IsAuthRejection(h[a]) && forall k :: a < k < |h| ==> !IsAccepted(h[k])
  }

  /** Live rejections that count against the token: those with an auth rejection pending, since
      the last accepted live push or new token. */
  function Strikes(h: seq<Event>): nat {
    if h == [] then 0
    else
      var front, last := h[..|h| - 1], h[|h| - 1];
      if last.Reenrolled? || last == Live(Accepted) then 0
      else if IsLiveRejection(last) && AuthPending(h) then Strikes(front) + 1
      else Strikes(front)
  }

  lemma AuthPendingFront(h: seq<Event>, e: Event)
    requires AuthPending(h + [e]) && !IsAuthRejection(e)
    ensures AuthPending(h) && !IsAccepted(e)
  {
    var g := h + [e];
    var a :| 0 <= a < |g| && IsAuthRejection(g[a]) && forall k :: a < k < |g| ==> !IsAccepted(g[k]);
    assert a < |h| && !IsAccepted(g[|h|]);
    forall k | a < k < |h| ensures !IsAccepted(h[k]) {
      assert g[k] == h[k];
    }
    assert IsAuthRejection(h[a]);
  }

  lemma AuthPendingSnoc(h: seq<Event>, e: Event)
    ensures AuthPending(h + [e]) <==> IsAuthRejection(e) || (!IsAccepted(e) && AuthPending(h))
  {
    var g := h + [e];
    if IsAuthRejection(e) {
      assert IsAuthRejection(g[|h|]);
    } else {
      if !IsAccepted(e) && AuthPending(h) {
        var a :| 0 <= a < |h| && IsAuthRejection(h[a]) && forall k :: a < k < |h| ==> !IsAccepted(h[k]);
        assert IsAuthRejection(g[a]);
      }
      if AuthPending(g) {
        AuthPendingFront(h, e);
      }
    }
  }

  lemma StrikesSnoc(h: seq<Event>, e: Event)
    ensures Strikes(h + [e])
         == if e.Reenrolled? || e == Live(Accepted) then 0
            else if IsLiveRejection(e) && AuthPending(h + [e]) then Strikes(h) + 1
            else Strikes(h)
  {
    assert (h + [e])[..|h|] == h;
  }

  /** Drained rows never add or clear strikes; the last auth-relevant outcome decides. */
  lemma {:induction false} DrainTracksAuth(
    replies: Replies, rows: seq<Row>, link: Link, h: seq<Event>)
    requires link.authStatus.Some? <==> AuthPending(h)
    ensures var d := DrainAll(replies, rows, link);
            && (d.link.authStatus.Some? <==> AuthPending(h + DrainEvents(d.outcomes)))
            && Strikes(h + DrainEvents(d.outcomes)) == Strikes(h)
            && d.link.token == link.token
            && (forall a :: a in d.link.log ==> a in link.log || a.token == link.token)
    decreases |rows|
  {
    hide PushLink, AuthPending, Strikes;
    var d := DrainAll(replies, rows, link);
    if rows == [] {
      assert h + DrainEvents([]) == h;
    } else {
      var p := PushLink(replies, link, rows[0].payload);
      PushMeaning(replies, link, rows[0].payload);
      if p.outcome.Transient? {
        assert h + DrainEvents([]) == h;
      } else {
        var e := Event.Drained(p.outcome);
        AuthPendingSnoc(h, e);
        StrikesSnoc(h, e);
        DrainTracksAuth(replies, rows[1..], p.link, h + [e]);
        DrainPrepend(replies, rows[1..], p.link, [p.outcome], []);
        var rest := DrainAll(replies, rows[1..], p.link).outcomes;
        assert [p.outcome] + [] == [] + [p.outcome];
        assert d.outcomes == [p.outcome] + rest;
        assert h + DrainEvents(d.outcomes) == h + [e] + DrainEvents(rest);
      }
    }
  }

  // ---- The state machine ----

  predicate Inv(w: World) {
    && (w.st.link.token == "" <==> w.st.reclaim.Some?)
    && (w.st.reclaim.Some? <==> w.st.authFails == 3)
    && w.st.authFails <= 3
    && (w.st.authFails > 0 ==> w.st.link.authStatus.Some?)
    && (w.st.link.authStatus.Some? <==> AuthPending(w.events))
    && w.st.authFails == Strikes(w.events)
    && (forall a :: a in w.st.link.log ==> a.token != "")
    && (w.st.queue.Some? ==> ValidTable(w.st.queue.value))
  }

  lemma LiveKeepsInv(env: Env, w: World, call: Call)
    requires Inv(w) && w.st.reclaim.None?
    ensures Inv(Advance(env, w, call))
  {
    hide PushLink, AuthPending, Strikes, DrainAll, PushTable, ValidTable;
    var p := PushLink(env.replies, w.st.link, call.payload);
    var e := Live(p.outcome);
    PushMeaning(env.replies, w.st.link, call.payload);
    AuthPendingSnoc(w.events, e);
    StrikesSnoc(w.events, e);
    if p.outcome.Transient? || p.link.authStatus.Some? {
      assert StepEvents(env, w.st, call) == [e];
      if w.st.queue.Some? {
        PushKeepsValid(w.st.queue.value, env.limits, call.payload, call.at);
      }
    } else {
      var d := Backlog(env, w.st, p.link);
      var h := w.events + [e];
      assert w.events + StepEvents(env, w.st, call) == h + DrainEvents(d.outcomes);
      if w.st.queue.Some? {
        var rows := w.st.queue.value.rows;
        DrainTracksAuth(env.replies, rows, p.link, h);
        DrainTakesLongestPrefix(env.replies, rows, p.link);
        DropKeepsValid(w.st.queue.value, |d.outcomes|);
      } else {
        assert h + DrainEvents([]) == h;
      }
    }
  }

  lemma DropKeepsValid(t: Table, n: nat)
    requires ValidTable(t) && n <= |t.rows|
    ensures ValidTable(t.(rows := t.rows[n..]))
  {
  }

  lemma ReclaimKeepsInv(env: Env, w: World, call: Call)
    requires Inv(w) && w.st.reclaim.Some?
    ensures Inv(Advance(env, w, call))
  {
    hide AuthPending, Strikes, ValidTable;
    if StepEvents(env, w.st, call) == [] {
      assert w.events + [] == w.events;
    } else {
      AuthPendingSnoc(w.events, Reenrolled);
      StrikesSnoc(w.events, Reenrolled);
    }
  }

  /** In every reachable state: the token is empty exactly while a re-enrolment runs, exactly
      when three strikes stand; the fields say what the history says; and no request was ever
      sent with an empty token. */
  lemma {:induction false} RunKeepsInv(env: Env, w: World, calls: seq<Call>)
    requires Configured(w)
    ensures Inv(Run(env, w, calls))
  {
    if calls == [] {
    } else {
      var before := Run(env, w, calls[..|calls| - 1]);
      RunKeepsInv(env, w, calls[..|calls| - 1]);
      if before.st.reclaim.Some? {
        ReclaimKeepsInv(env, before, calls[|calls| - 1]);
      } else {
        LiveKeepsInv(env, before, calls[|calls| - 1]);
      }
    }
  }

  /** While unenrolled nothing is sent and the queue is untouched. */
  lemma UnenrolledTouchesNothing(env: Env, st: State, call: Call)
    requires st.reclaim.Some?
    ensures var st' := SinkStep(env, st, call);
            && st'.queue == st.queue && st'.link.log == st.link.log
            && st'.link.cursor == st.link.cursor && st'.link.authStatus == st.link.authStatus
  {
  }

  // ---- What a wipe means ----

  predicate Wipes(env: Env, st: State, call: Call) {
    st.reclaim.None? && SinkStep(env, st, call).reclaim.Some?
  }

  /** Queued rows are drained only while no strike stands. */
  predicate DrainsWhenClear(h: seq<Event>) {
    forall k :: 0 <= k < |h| && h[k].Drained? ==> Strikes(h[..k]) == 0
  }

  lemma AdvanceDrainsWhenClear(env: Env, w: World, call: Call)
    requires Inv(w) && DrainsWhenClear(w.events)
    ensures DrainsWhenClear(Advance(env, w, call).events)
  {
    hide PushLink, AuthPending, Strikes, DrainAll, SinkStep, StepEvents, Inv;
    var h := Advance(env, w, call).events;
    var n := |w.events|;
    forall k | 0 <= k < |h| && h[k].Drained? ensures Strikes(h[..k]) == 0 {
      if k < n {
        assert h[..k] == w.events[..k];
      } else {
        ClearBeforeDrain(env, w, call, k - n);
      }
    }
  }

  lemma ClearBeforeDrain(env: Env, w: World, call: Call, i: nat)
    requires Inv(w) && i < |StepEvents(env, w.st, call)| && StepEvents(env, w.st, call)[i].Drained?
    ensures Strikes(Advance(env, w, call).events[..|w.events| + i]) == 0
  {
    hide PushLink, AuthPending, Strikes, DrainAll, SinkStep;
    var p := PushLink(env.replies, w.st.link, call.payload);
    var outcomes := Backlog(env, w.st, p.link).outcomes;
    var h := w.events + [Live(p.outcome)];
    PushMeaning(env.replies, w.st.link, call.payload);
    AuthPendingSnoc(w.events, Live(p.outcome));
    StrikesSnoc(w.events, Live(p.outcome));
    assert Advance(env, w, call).events[..|w.events| + i] == h + DrainEvents(outcomes[..i - 1]);
    DrainKeepsStrikes(h, outcomes[..i - 1]);
  }

  lemma {:induction false} DrainKeepsStrikes(h: seq<Event>, outcomes: seq<Outcome>)
    ensures Strikes(h + DrainEvents(outcomes)) == Strikes(h)
  {
    if outcomes == [] {
      assert h + DrainEvents([]) == h;
    } else {
      var front, last := outcomes[..|outcomes| - 1], outcomes[|outcomes| - 1];
      DrainKeepsStrikes(h, front);
      assert h + DrainEvents(outcomes) == (h + DrainEvents(front)) + [Event.Drained(last)];
      StrikesSnoc(h + DrainEvents(front), Event.Drained(last));
    }
  }

  lemma {:induction false} RunDrainsWhenClear(env: Env, w: World, calls: seq<Call>)
    requires Configured(w)
    ensures DrainsWhenClear(Run(env, w, calls).events)
  {
    if calls == [] {
    } else {
      RunDrainsWhenClear(env, w, calls[..|calls| - 1]);
      RunKeepsInv(env, w, calls[..|calls| - 1]);
      AdvanceDrainsWhenClear(env, Run(env, w, calls[..|calls| - 1]), calls[|calls| - 1]);
    }
  }

  /** Where the latest strike fell: a live rejection, with no new token or accepted live push since. */
  lemma {:induction false} LatestStrike(h: seq<Event>) returns (i: nat)
    requires Strikes(h) > 0
    ensures i < |h| && IsLiveRejection(h[i]) && AuthPending(h[..i + 1])
    ensures Strikes(h[..i]) == Strikes(h) - 1
    ensures forall k :: i < k < |h| ==> !h[k].Reenrolled? && h[k] != Live(Accepted)
    ensures forall k :: i < k <= |h| ==> Strikes(h[..k]) == Strikes(h)
  {
    hide AuthPending;
    var n := |h| - 1;
    assert h[..|h|] == h;
    if IsLiveRejection(h[n]) && AuthPending(h) {
      i := n;
    } else {
      i := LatestStrike(h[..n]);
      assert forall k :: 0 <= k <= n ==> h[..n][..k] == h[..k];
    }
  }

  /** The three live rejections behind three strikes, with no push accepted from the first on. */
  lemma ThreeStrikes(h: seq<Event>) returns (i: nat, j: nat, k: nat)
    requires Strikes(h) == 3 && DrainsWhenClear(h)
    ensures i < j < k < |h|
    ensures IsLiveRejection(h[i]) && IsLiveRejection(h[j]) && IsLiveRejection(h[k])
    ensures AuthPending(h[..i + 1])
    ensures forall m :: k < m <= |h| ==> Strikes(h[..m]) == 3
    ensures forall m :: i <= m < |h| ==> !IsAccepted(h[m]) && !h[m].Reenrolled?
  {
    hide AuthPending, Strikes;
    k := LatestStrike(h);
    j := LatestStrike(h[..k]);
    assert h[..k][..j] == h[..j] && h[..k][..j + 1] == h[..j + 1];
    i := LatestStrike(h[..j]);
    assert h[..j][..i + 1] == h[..i + 1];
    forall m | i <= m < |h| ensures !IsAccepted(h[m]) && !h[m].Reenrolled? {
      if m < j {
        assert h[..j][m] == h[m] && h[..j][..m] == h[..m];
      } else if m < k {
        assert h[..k][m] == h[m] && h[..k][..m] == h[..m];
      }
    }
  }

  /** A wipe happens only after three live pushes ended in permanent rejection, no push of any
      kind was accepted from the first of them on, no new token came between, and an auth
      rejection had come since the last accepted push. */
  lemma WipeMeaning(env: Env, w: World, calls: seq<Call>, call: Call) returns (a: nat, i: nat, j: nat)
    requires Configured(w) && Wipes(env, Run(env, w, calls).st, call)
    ensures var h := Run(env, w, calls + [call]).events;
            && a <= i < j < |h| - 1
            && IsLiveRejection(h[i]) && IsLiveRejection(h[j]) && IsLiveRejection(h[|h| - 1])
            && IsAuthRejection(h[a])
            && (forall m :: a <= m < |h| ==> !IsAccepted(h[m]))
            && (forall m :: i <= m < |h| ==> !h[m].Reenrolled?)
  {
    hide AuthPending, Strikes, PushLink, Inv, Wipes, SinkStep;
    var before := Run(env, w, calls);
    var h := Run(env, w, calls + [call]).events;
    assert (calls + [call])[..|calls|] == calls;
    RunKeepsInv(env, w, calls);
    RunDrainsWhenClear(env, w, calls + [call]);
    WipeStep(env, before, call);
    assert h[..|h| - 1] == before.events;
    var k: nat;
    i, j, k := ThreeStrikes(h);
    a := PendingSince(h[..i + 1]);
    forall m | a <= m < |h| ensures !IsAccepted(h[m]) {
      if m <= i {
        assert h[..i + 1][m] == h[m];
      }
    }
  }

  /** The wiping call itself: one live rejection, the third strike. */
  lemma WipeStep(env: Env, w: World, call: Call)
    requires Inv(w) && Wipes(env, w.st, call)
    ensures |StepEvents(env, w.st, call)| == 1 && IsLiveRejection(StepEvents(env, w.st, call)[0])
    ensures Strikes(w.events) == 2 && Strikes(Advance(env, w, call).events) == 3
  {
    hide PushLink, AuthPending, Strikes, DrainAll;
    PushMeaning(env.replies, w.st.link, call.payload);
    LiveKeepsInv(env, w, call);
  }

  lemma PendingSince(h: seq<Event>) returns (a: nat)
    requires AuthPending(h)
    ensures a < |h| && IsAuthRejection(h[a]) && forall k :: a <= k < |h| ==> !IsAccepted(h[k])
  {
    a :| 0 <= a < |h| && IsAuthRejection(h[a]) && forall k :: a < k < |h| ==> !IsAccepted(h[k]);
  }

  /** Exactly when the token is wiped, on every run: at the third strike. */
  lemma WipedAtThirdStrike(env: Env, w: World, calls: seq<Call>, call: Call)
    requires Configured(w)
    ensures var st := Run(env, w, calls).st;
            Wipes(env, st, call)
            <==> st.reclaim.None? && Strikes(Run(env, w, calls + [call]).events) == 3
  {
    hide AuthPending, Strikes, PushLink, SinkStep;
    assert (calls + [call])[..|calls|] == calls;
    RunKeepsInv(env, w, calls + [call]);
  }

  // ---- Against counts a reader might expect ----

  lemma {:induction false} StrikesNeedPending(h: seq<Event>)
    requires DrainsWhenClear(h)
    ensures Strikes(h) > 0 ==> AuthPending(h)
  {
    if h == [] {
    } else {
      hide AuthPending;
      var front, last := h[..|h| - 1], h[|h| - 1];
      assert h == front + [last];
      ClearFront(h);
      StrikesNeedPending(front);
      AuthPendingSnoc(front, last);
    }
  }

  /** A live permanent rejection that is no auth rejection. */
  predicate IsPlainRejection(e: Event) {
    IsLiveRejection(e) && !IsAuthRejection(e)
  }

  /** Consecutive auth rejections, as `_AUTH_FAIL_LIMIT` describes them: live auth rejections in
      a row, ended by a plain live rejection, an accepted live push or a new token. */
  function AuthStreak(h: seq<Event>): nat {
    if h == [] then 0
    else
      var front, last := h[..|h| - 1], h[|h| - 1];
      if last.Reenrolled? || last == Live(Accepted) || IsPlainRejection(last) then 0
      else if IsLiveRejection(last) then AuthStreak(front) + 1
      else AuthStreak(front)
  }

  /** Live rejections since the last accepted live push or new token. */
  function LiveRejections(h: seq<Event>): nat {
    if h == [] then 0
    else
      var front, last := h[..|h| - 1], h[|h| - 1];
      if last.Reenrolled? || last == Live(Accepted) then 0
      else if IsLiveRejection(last) then LiveRejections(front) + 1
      else LiveRejections(front)
  }

  predicate CountsAuthStreak(h: seq<Event>) {
    forall k :: 0 <= k <= |h| ==> Strikes(h[..k]) == AuthStreak(h[..k])
  }

  predicate CountsRejections(h: seq<Event>) {
    forall k :: 0 <= k <= |h| ==> Strikes(h[..k]) == LiveRejections(h[..k])
  }

  /** No plain live rejection arrives while an auth rejection is pending. */
  predicate NoPlainWhilePending(h: seq<Event>) {
    forall k :: 0 <= k < |h| && IsPlainRejection(h[k]) ==> !AuthPending(h[..k])
  }

  /** Every live rejection is one, or arrives with one pending. */
  predicate RejectedOnlyPending(h: seq<Event>) {
    forall k :: 0 <= k < |h| && IsLiveRejection(h[k]) ==> IsAuthRejection(h[k]) || AuthPending(h[..k])
  }

  lemma Fronts(h: seq<Event>)
    requires h != []
    ensures var n := |h| - 1;
            && (forall k :: 0 <= k <= n ==> h[..n][..k] == h[..k])
            && (forall k :: 0 <= k <= |h| ==> k <= n || h[..k] == h)
  {
    assert h[..|h|] == h;
  }

  lemma AuthStreakFront(h: seq<Event>)
    requires h != []
    ensures CountsAuthStreak(h) <==> CountsAuthStreak(h[..|h| - 1]) && Strikes(h) == AuthStreak(h)
  {
    hide Strikes, AuthStreak;
    Fronts(h);
    assert h[..|h|] == h;
  }

  lemma RejectionsFront(h: seq<Event>)
    requires h != []
    ensures CountsRejections(h) <==> CountsRejections(h[..|h| - 1]) && Strikes(h) == LiveRejections(h)
  {
    hide Strikes, LiveRejections;
    Fronts(h);
    assert h[..|h|] == h;
  }

  lemma PlainFront(h: seq<Event>)
    requires h != []
    ensures var n := |h| - 1;
            NoPlainWhilePending(h)
            <==> NoPlainWhilePending(h[..n]) && (IsPlainRejection(h[n]) ==> !AuthPending(h[..n]))
  {
    hide AuthPending, IsPlainRejection;
    Fronts(h);
  }

  lemma PendingFront(h: seq<Event>)
    requires h != []
    ensures var n := |h| - 1;
            RejectedOnlyPending(h)
            <==> RejectedOnlyPending(h[..n])
                 && (IsLiveRejection(h[n]) ==> IsAuthRejection(h[n]) || AuthPending(h[..n]))
  {
    hide AuthPending, IsLiveRejection, IsAuthRejection;
    Fronts(h);
  }

  lemma ClearFront(h: seq<Event>)
    requires h != [] && DrainsWhenClear(h)
    ensures DrainsWhenClear(h[..|h| - 1])
    ensures h[|h| - 1].Drained? ==> Strikes(h[..|h| - 1]) == 0
  {
    hide Strikes;
    Fronts(h);
  }

  /** The code's counter is the length of the run of consecutive auth rejections, all along a
      history, exactly when no plain live rejection arrives while an auth rejection is pending. */
  lemma {:induction false} StrikesAreAuthStreak(h: seq<Event>)
    requires DrainsWhenClear(h)
    ensures CountsAuthStreak(h) <==> NoPlainWhilePending(h)
  {
    if h == [] {
    } else {
      hide AuthPending, CountsAuthStreak, NoPlainWhilePending, DrainsWhenClear;
      var front, last := h[..|h| - 1], h[|h| - 1];
      assert h == front + [last];
      AuthStreakFront(h);
      PlainFront(h);
      ClearFront(h);
      StrikesAreAuthStreak(front);
      StrikesNeedPending(front);
      AuthPendingSnoc(front, last);
      EqualSoFar(front);
    }
  }

  lemma EqualSoFar(h: seq<Event>)
    ensures CountsAuthStreak(h) ==> Strikes(h) == AuthStreak(h)
    ensures CountsRejections(h) ==> Strikes(h) == LiveRejections(h)
  {
    assert h[..|h|] == h;
  }

  /** The counter is the number of live rejections since the last accepted live push or new
      token, all along a history, exactly when every live rejection is an auth rejection or
      arrives with one pending. */
  lemma {:induction false} StrikesAreRejections(h: seq<Event>)
    requires DrainsWhenClear(h)
    ensures CountsRejections(h) <==> RejectedOnlyPending(h)
  {
    if h == [] {
    } else {
      hide AuthPending, CountsRejections, RejectedOnlyPending, DrainsWhenClear;
      var front, last := h[..|h| - 1], h[|h| - 1];
      assert h == front + [last];
      RejectionsFront(h);
      PendingFront(h);
      ClearFront(h);
      StrikesAreRejections(front);
      StrikesNeedPending(front);
      AuthPendingSnoc(front, last);
      EqualSoFar(front);
    }
  }

  /** The strikes that are no auth rejections. */
  function PlainStrikes(h: seq<Event>): nat {
    if h == [] then 0
    else
      var front, last := h[..|h| - 1], h[|h| - 1];
      if last.Reenrolled? || last == Live(Accepted) then 0
      else if IsPlainRejection(last) && AuthPending(h) then PlainStrikes(front) + 1
      else PlainStrikes(front)
  }

  /** The strikes are the run of consecutive auth rejections exactly when none of them is plain. */
  lemma {:induction false} PlainStrikesTell(h: seq<Event>)
    requires DrainsWhenClear(h)
    ensures AuthStreak(h) <= Strikes(h) && PlainStrikes(h) <= Strikes(h)
    ensures PlainStrikes(h) == 0 <==> AuthStreak(h) == Strikes(h)
  {
    if h == [] {
    } else {
      hide AuthPending, DrainsWhenClear;
      var front, last := h[..|h| - 1], h[|h| - 1];
      assert h == front + [last];
      ClearFront(h);
      PlainStrikesTell(front);
      StrikesNeedPending(front);
      AuthPendingSnoc(front, last);
    }
  }

  /** The documented rule, a wipe exactly at the third consecutive auth rejection, on every run:
      the third always wipes; a wipe comes at the third exactly when none of its strikes is plain;
      so a call departs from the rule exactly when it wipes over a plain strike. */
  lemma WipedAtThirdAuthRejection(env: Env, w: World, calls: seq<Call>, call: Call)
    requires Configured(w)
    ensures var st, h := Run(env, w, calls).st, Run(env, w, calls + [call]).events;
            var ruled := st.reclaim.None? && AuthStreak(h) == 3;
            && (ruled ==> Wipes(env, st, call))
            && (Wipes(env, st, call) ==> (ruled <==> PlainStrikes(h) == 0))
            && ((Wipes(env, st, call) <==> ruled) <==> !(Wipes(env, st, call) && PlainStrikes(h) > 0))
  {
    hide AuthPending, Strikes, AuthStreak, PlainStrikes, PushLink, SinkStep, Wipes, Run;
    var h := Run(env, w, calls + [call]).events;
    WipedAtThirdStrike(env, w, calls, call);
    RunDrainsWhenClear(env, w, calls + [call]);
    RunKeepsInv(env, w, calls + [call]);
    PlainStrikesTell(h);
  }

  /** The counter itself, all along every run. */
  lemma CounterIsAuthStreak(env: Env, w: World, calls: seq<Call>)
    requires Configured(w)
    ensures var h := Run(env, w, calls).events;
            CountsAuthStreak(h) <==> NoPlainWhilePending(h)
  {
    hide CountsAuthStreak, NoPlainWhilePending, Run;
    RunDrainsWhenClear(env, w, calls);
    StrikesAreAuthStreak(Run(env, w, calls).events);
  }

  /** On every run: the counter is the number of live rejections since the last accepted live
      push or new token, so that a wipe comes exactly at the third, if and only if each of them
      was an auth rejection or came while one was pending; as when every 4xx is one. */
  lemma WipedAtThirdRejection(env: Env, w: World, calls: seq<Call>, call: Call)
    requires Configured(w)
    ensures var h := Run(env, w, calls + [call]).events;
            && (CountsRejections(h) <==> RejectedOnlyPending(h))
            && (RejectedOnlyPending(h) ==>
                  (Wipes(env, Run(env, w, calls).st, call)
                   <==> Run(env, w, calls).st.reclaim.None? && LiveRejections(h) == 3))
  {
    hide AuthPending, Strikes, LiveRejections, PushLink, SinkStep, Wipes, CountsRejections, RejectedOnlyPending;
    var h := Run(env, w, calls + [call]).events;
    WipedAtThirdStrike(env, w, calls, call);
    RunDrainsWhenClear(env, w, calls + [call]);
    StrikesAreRejections(h);
    EqualSoFar(h);
  }

  /** Replies 401, 400, 400: one auth rejection only, and the third call wipes the token. */
  lemma OneAuthRejectionCanWipe(env: Env, w: World, a: Call, b: Call, c: Call)
    requires Configured(w) && w.st.link.cursor == 0
    requires env.replies(0) == Http(401) && env.replies(1) == Http(400) && env.replies(2) == Http(400)
    ensures Wipes(env, Run(env, w, [a, b]).st, c)
    ensures var h := Run(env, w, [a, b, c]).events;
            h == [Live(Rejected(401)), Live(Rejected(400)), Live(Rejected(400))] && AuthStreak(h) == 0
  {
    hide PushLink, AuthStreak;
    assert [a][..0] == [] && [a, b][..1] == [a] && [a, b, c][..2] == [a, b];
    var w1, w2 := Advance(env, w, a), Advance(env, Advance(env, w, a), b);
    assert Run(env, w, [a]) == w1;
    assert Run(env, w, [a, b]) == w2;
    assert Run(env, w, [a, b, c]) == Advance(env, w2, c);
    PushMeaning(env.replies, w.st.link, a.payload);
    PushMeaning(env.replies, w1.st.link, b.payload);
    PushMeaning(env.replies, w2.st.link, c.payload);
    PlainEndsStreak([Live(Rejected(401)), Live(Rejected(400))], Live(Rejected(400)));
    assert Run(env, w, [a, b, c]).events == [Live(Rejected(401)), Live(Rejected(400))] + [Live(Rejected(400))];
  }

  lemma PlainEndsStreak(h: seq<Event>, e: Event)
    requires IsPlainRejection(e)
    ensures AuthStreak(h + [e]) == 0
  {
  }

  /** A new token does not clear the pending auth rejection: on every run, the first plain
      rejection of the new token is already a strike against it. */
  lemma NewTokenInheritsRejection(env: Env, w: World, calls: seq<Call>, call: Call, next: Call)
    requires Configured(w)
    requires Run(env, w, calls).st.reclaim.Some? && Run(env, w, calls + [call]).st.reclaim.None?
    ensures var st := Run(env, w, calls + [call]).st;
            && AuthPending(Run(env, w, calls + [call]).events) && st.link.authStatus.Some?
            && (PushLink(env.replies, st.link, next.payload).outcome.Rejected? ==>
                  SinkStep(env, st, next).authFails == 1)
  {
    hide AuthPending, Strikes, PushLink;
    var before, after := Run(env, w, calls), Run(env, w, calls + [call]);
    assert (calls + [call])[..|calls|] == calls;
    RunKeepsInv(env, w, calls);
    RunKeepsInv(env, w, calls + [call]);
    PushMeaning(env.replies, after.st.link, next.payload);
  }

  // ---- Recovery ----

  /** From reply n on, everything is accepted. */
  ghost predicate Recovered(replies: Replies, n: nat) {
    forall k :: k >= n ==> replies(k).Http? && replies(k).status < 300
  }

  lemma {:induction false} LinkAfterAdvances(replies: Replies, rows: seq<Row>, link: Link, k: nat)
    requires k <= |rows|
    ensures LinkAfter(replies, rows, link, k).cursor >= link.cursor
  {
    hide PushLink;
    if k == 0 {
    } else {
      LinkAfterAdvances(replies, rows, link, k - 1);
      PushMeaning(replies, LinkAfter(replies, rows, link, k - 1), rows[k - 1].payload);
    }
  }

  /** Once the backend accepts again, a single call delivers its payload and the whole backlog,
      and clears what stood against the token. */
  lemma RecoveryEmptiesQueue(env: Env, st: State, call: Call)
    requires st.reclaim.None? && Recovered(env.replies, st.link.cursor)
    ensures var st' := SinkStep(env, st, call);
            && st'.authFails == 0 && st'.link.authStatus.None? && st'.reclaim.None?
            && (st.queue.Some? ==> st'.queue.Some? && st'.queue.value.rows == [])
  {
    hide PushLink, DrainAll;
    var p := PushLink(env.replies, st.link, call.payload);
    PushMeaning(env.replies, st.link, call.payload);
    if st.queue.Some? {
      var rows := st.queue.value.rows;
      DrainTakesLongestPrefix(env.replies, rows, p.link);
      forall k | 0 <= k < |rows| ensures OutcomeOf(env.replies, rows, p.link, k).Accepted? {
        LinkAfterAdvances(env.replies, rows, p.link, k);
        PushMeaning(env.replies, LinkAfter(env.replies, rows, p.link, k), rows[k].payload);
      }
      AcceptedKeepsClear(env.replies, rows, p.link, |rows|);
    }
  }

  lemma {:induction false} AcceptedKeepsClear(replies: Replies, rows: seq<Row>, link: Link, k: nat)
    requires k <= |rows| && link.authStatus.None?
    requires forall i :: 0 <= i < k ==> OutcomeOf(replies, rows, link, i).Accepted?
    ensures LinkAfter(replies, rows, link, k).authStatus.None?
  {
    hide PushLink;
    if k == 0 {
    } else {
      AcceptedKeepsClear(replies, rows, link, k - 1);
      assert OutcomeOf(replies, rows, link, k - 1).Accepted?;
      PushMeaning(replies, LinkAfter(replies, rows, link, k - 1), rows[k - 1].payload);
    }
  }
}
