/** The HTTPS client and the drain loop, against an arbitrary trace of replies. */
module Transport {
  import opened Prelude
  import opened DiskQueue
  import opened CrashSteps

  /** What the network answers to one request: an exception, or an HTTP status. */
  datatype Reply = NetworkError | Http(status: int)

  type Replies = nat -> Reply

  datatype Outcome = Accepted | Rejected(status: int) | Transient

  const ATTEMPTS := 2

  function Classify(reply: Reply): Outcome {
    match reply
    case NetworkError => Transient
    case Http(status) =>
      if status < 300 then Accepted
      else if 400 <= status < 500 then Rejected(status)
      else Transient
  }

  /** The transient answers in full; a redirect is one of them. */
  lemma TransientExactly(reply: Reply)
    ensures Classify(reply).Transient?
       <==> reply.NetworkError? || 300 <= reply.status < 400 || reply.status >= 500
  {
  }

  predicate IsAuth(o: Outcome) {
    o.Rejected? && o.status in {401, 403, 410}
  }

  /** One request on the wire. */
  datatype Attempt = Attempt(token: string, payload: Payload)

  /** The client's state; `cursor` counts the replies consumed, `log` the requests made. */
  datatype Link = Link(token: string, authStatus: Option<int>, cursor: nat, log: seq<Attempt>)

  datatype Pushed = Pushed(link: Link, outcome: Outcome)

  function AuthAfter(auth: Option<int>, o: Outcome): Option<int> {
    if o.Accepted? then None else if IsAuth(o) then Some(o.status) else auth
  }

  function Requested(link: Link, payload: Payload): Link {
    link.(cursor := link.cursor + 1, log := link.log + [Attempt(link.token, payload)])
  }

  function Tries(replies: Replies, link: Link, payload: Payload, tries: nat): Pushed
    decreases tries
  {
    if tries == 0 then Pushed(link, Transient)
    else
      var sent := Requested(link, payload);
      var o := Classify(replies(link.cursor));
      if o.Transient? then Tries(replies, sent, payload, tries - 1)
      else Pushed(sent.(authStatus := AuthAfter(link.authStatus, o)), o)
  }

  /** The specification of `TransportClient.push`. */
  function PushLink(replies: Replies, link: Link, payload: Payload): Pushed {
    Tries(replies, link, payload, ATTEMPTS)
  }

  /** A push makes one request or two with the same token and body; the second only after a
      transient first, and its answer is that of the last request made. */
  lemma PushMeaning(replies: Replies, link: Link, payload: Payload)
    ensures var p := PushLink(replies, link, payload);
            var one := Attempt(link.token, payload);
            var first := Classify(replies(link.cursor));
            && p.outcome == (if first.Transient? then Classify(replies(link.cursor + 1)) else first)
            && p.link.log == link.log + (if first.Transient? then [one, one] else [one])
            && p.link.cursor == link.cursor + (if first.Transient? then 2 else 1)
            && p.link.token == link.token
            && p.link.authStatus == AuthAfter(link.authStatus, p.outcome)
  {
  }

  /** Below 300 is accepted and clears the auth status; 401, 403 and 410 are rejected and recorded;
      any other 4xx is rejected and leaves the status as it was. Each ends the push at once. */
  lemma FirstReplyDecides(replies: Replies, link: Link, payload: Payload, status: int)
    requires replies(link.cursor) == Http(status)
    ensures var p := PushLink(replies, link, payload);
            var log := link.log + [Attempt(link.token, payload)];
            && (status < 300 ==> p == Pushed(Link(link.token, None, link.cursor + 1, log), Accepted))
            && (status in {401, 403, 410} ==>
                  p == Pushed(Link(link.token, Some(status), link.cursor + 1, log), Rejected(status)))
            && (400 <= status < 500 && status !in {401, 403, 410} ==>
                  p == Pushed(Link(link.token, link.authStatus, link.cursor + 1, log), Rejected(status)))
  {
  }

  /** A network error, a 3xx or a 5xx is tried once more: the push then ends as one that met the
      second reply first, or transiently with nothing but the two requests to show. */
  lemma SecondReplyDecides(replies: Replies, link: Link, payload: Payload)
    requires replies(link.cursor).NetworkError?
             || 300 <= replies(link.cursor).status < 400 || replies(link.cursor).status >= 500
    ensures var p := PushLink(replies, link, payload);
            var one := Attempt(link.token, payload);
            var sent := Link(link.token, link.authStatus, link.cursor + 1, link.log + [one]);
            match replies(link.cursor + 1)
            case NetworkError => p == Pushed(sent.(cursor := link.cursor + 2, log := link.log + [one, one]), Transient)
            case Http(status) =>
              if status < 300 || 400 <= status < 500 then p == PushLink(replies, sent, payload)
              else p == Pushed(sent.(cursor := link.cursor + 2, log := link.log + [one, one]), Transient)
  {
    assert link.log + [Attempt(link.token, payload)] + [Attempt(link.token, payload)]
        == link.log + [Attempt(link.token, payload), Attempt(link.token, payload)];
  }

  datatype Drained = Drained(link: Link, outcomes: seq<Outcome>)

  /** One payload at a time, stopping at the first transient failure; `outcomes` are those of
      the payloads taken off. */
  function DrainFrom(replies: Replies, rows: seq<Row>, link: Link, outcomes: seq<Outcome>): Drained
    decreases |rows|
  {
    if rows == [] then Drained(link, outcomes)
    else
      var p := PushLink(replies, link, rows[0].payload);
      if p.outcome.Transient? then Drained(p.link, outcomes)
      else DrainFrom(replies, rows[1..], p.link, outcomes + [p.outcome])
  }

  function DrainAll(replies: Replies, rows: seq<Row>, link: Link): Drained {
    DrainFrom(replies, rows, link, [])
  }

  class Client {
    const replies: Replies
    var token: string
    var authStatus: Option<int>
    var cursor: nat
    var log: seq<Attempt>

    constructor (token: string, replies: Replies)
      ensures State() == Link(token, None, 0, []) && this.replies == replies
    {
      this.replies := replies;
      this.token := token;
      authStatus, cursor, log := None, 0, [];
    }

    function State(): Link
      reads this
    {
      Link(token, authStatus, cursor, log)
    }

    /** `TransportClient.push` */
    method Push(payload: Payload) returns (done: bool)
      modifies `authStatus, `cursor, `log
      ensures var p := PushLink(replies, old(State()), payload);
              State() == p.link && done == !p.outcome.Transient?
    {
      ghost var before := State();
      for attempt := 1 to ATTEMPTS + 1
        invariant PushLink(replies, before, payload)
               == Tries(replies, State(), payload, ATTEMPTS + 1 - attempt)
      {
        var reply := replies(cursor);
        cursor, log := cursor + 1, log + [Attempt(token, payload)];
        if reply.Http? {
          if reply.status < 300 {
            authStatus := None;
            return true;
          }
          if 400 <= reply.status < 500 {
            if reply.status in {401, 403, 410} {
              authStatus := Some(reply.status);
            }
            return true;
          }
        }
      }
      return false;
    }
  }

  /** The `for` loop over one peeked batch: the ids of the payloads done with. */
  method DeliverBatch(client: Client, rows: seq<Row>) returns (delivered: seq<nat>)
    modifies client`authStatus, client`cursor, client`log
    ensures var d := DrainAll(client.replies, rows, old(client.State()));
            client.State() == d.link && |delivered| == |d.outcomes|
    ensures |delivered| <= |rows|
    ensures forall i :: 0 <= i < |delivered| ==> delivered[i] == rows[i].id
  {
    delivered := [];
    ghost var start := client.State();
    ghost var got: seq<Outcome> := [];
    for i := 0 to |rows|
      invariant |delivered| == |got| == i
      invariant forall k :: 0 <= k < i ==> delivered[k] == rows[k].id
      invariant DrainAll(client.replies, rows, start)
             == DrainFrom(client.replies, rows[i..], client.State(), got)
    {
      ghost var p := PushLink(client.replies, client.State(), rows[i].payload);
      assert rows[i..][1..] == rows[i + 1..];
      var ok := client.Push(rows[i].payload);
      if !ok {
        break;
      }
      delivered := delivered + [rows[i].id];
      got := got + [p.outcome];
    }
  }

  /** Draining a prefix and then the rest is draining the whole. */
  lemma {:induction false} DrainConcat(
    replies: Replies, a: seq<Row>, b: seq<Row>, link: Link, outcomes: seq<Outcome>)
    ensures var d := DrainFrom(replies, a, link, outcomes);
            && |outcomes| <= |d.outcomes| <= |outcomes| + |a|
            && DrainFrom(replies, a + b, link, outcomes)
            == if |d.outcomes| < |outcomes| + |a| then d else DrainFrom(replies, b, d.link, d.outcomes)
    decreases |a|
  {
    hide PushLink;
    if a == [] {
      assert a + b == b;
    } else {
      assert (a + b)[1..] == a[1..] + b;
      var p := PushLink(replies, link, a[0].payload);
      DrainConcat(replies, a[1..], b, p.link, outcomes + [p.outcome]);
    }
  }

  lemma {:induction false} DrainPrepend(
    replies: Replies, rows: seq<Row>, link: Link, before: seq<Outcome>, outcomes: seq<Outcome>)
    ensures DrainFrom(replies, rows, link, before + outcomes)
         == var d := DrainFrom(replies, rows, link, outcomes); d.(outcomes := before + d.outcomes)
    decreases |rows|
  {
    hide PushLink;
    if rows == [] {
    } else {
      var p := PushLink(replies, link, rows[0].payload);
      assert before + outcomes + [p.outcome] == before + (outcomes + [p.outcome]);
      DrainPrepend(replies, rows[1..], p.link, before, outcomes + [p.outcome]);
    }
  }

  /** `drain`: batched, with the micro-steps it takes recorded in `trace`. */
  method Drain(queue: DiskQueue, client: Client, batch: int)
    returns (doneTotal: nat, ghost trace: seq<Step>, ghost w: World)
    requires queue.Valid()
    modifies queue`rows, client`authStatus, client`cursor, client`log
    ensures queue.Valid()
    ensures var d := if batch == 0 then Drained(old(client.State()), [])
                     else DrainAll(client.replies, old(queue.rows), old(client.State()));
            && client.State() == d.link
            && doneTotal == |d.outcomes| <= |old(queue.rows)|
            && queue.rows == old(queue.rows)[doneTotal..]
    ensures Reached(old(queue.Contents()), queue.limits, trace, w, batch)
    ensures w.process == Process(queue.Contents(), Idle) && |w.finished| == doneTotal
  {
    hide DrainFrom, DrainAll, Without, Reached, ValidTable;
    doneTotal, trace := 0, [];
    ghost var t, all, start := queue.Contents(), queue.rows, client.State();
    ghost var got: seq<Outcome> := [];
    w := Start(t);
    DrainAllFrom(client.replies, all, start);
    NoSteps(t, queue.limits, batch);
    while true
      invariant queue.Valid() && queue.nextId == t.nextId
      invariant |got| == doneTotal <= |all| && queue.rows == all[doneTotal..]
      invariant batch == 0 ==> got == [] && client.State() == start
      invariant DrainAll(client.replies, all, start)
             == DrainFrom(client.replies, queue.rows, client.State(), got)
      invariant Reached(t, queue.limits, trace, w, batch)
      invariant w.process == Process(queue.Contents(), Idle) && |w.finished| == doneTotal
      decreases |queue.rows|
    {
      var rows := queue.Peek(batch);
      ghost var before, link := queue.rows, client.State();
      if rows == [] {
        DrainNothing(client.replies, link, got);
        return;
      }
      var delivered := DeliverBatch(client, rows);
      ghost var d := DrainAll(client.replies, rows, link);
      assert rows == before[..|rows|];
      DrainRound(client.replies, before, |rows|, link, got);
      DeliveredPrefix(queue.Contents(), delivered);
      queue.Ack(delivered);
      w, trace := RecordBatch(t, queue.limits, trace, w, batch, |delivered|);
      doneTotal, got := doneTotal + |delivered|, got + d.outcomes;
      if |delivered| < |rows| {
        return;
      }
    }
  }

  lemma DrainAllFrom(replies: Replies, rows: seq<Row>, link: Link)
    ensures DrainAll(replies, rows, link) == DrainFrom(replies, rows, link, [])
  {
  }

  /** One batch of n rows, and then the others if it went through. */
  lemma DrainRound(replies: Replies, rows: seq<Row>, n: nat, link: Link, got: seq<Outcome>)
    requires n <= |rows|
    ensures var d := DrainAll(replies, rows[..n], link);
            && |d.outcomes| <= n
            && DrainFrom(replies, rows, link, got)
            == if |d.outcomes| < n then Drained(d.link, got + d.outcomes)
               else DrainFrom(replies, rows[n..], d.link, got + d.outcomes)
  {
    hide DrainFrom;
    assert rows == rows[..n] + rows[n..];
    DrainConcat(replies, rows[..n], rows[n..], link, got);
    DrainPrepend(replies, rows[..n], link, got, []);
    assert got + [] == got;
  }

  lemma DeliveredPrefix(t: Table, delivered: seq<nat>)
    requires ValidTable(t) && |delivered| <= |t.rows|
    requires forall i :: 0 <= i < |delivered| ==> delivered[i] == t.rows[i].id
    ensures IdSet(delivered) == Ids(t.rows[..|delivered|])
    ensures Without(t.rows, IdSet(delivered)) == t.rows[|delivered|..]
  {
    hide Without;
    var front := t.rows[..|delivered|];
    forall i | 0 <= i < |delivered| ensures delivered[i] in Ids(front) && front[i].id in IdSet(delivered) {
      assert front[i].id == delivered[i];
    }
    assert IdSet(delivered) == Ids(front);
    AckPrefix(t.rows, |delivered|);
  }

  lemma DrainNothing(replies: Replies, link: Link, outcomes: seq<Outcome>)
    ensures DrainFrom(replies, [], link, outcomes) == Drained(link, outcomes)
  {
  }

  /** The steps a drain without a crash takes. */
  predicate DrainSteps(trace: seq<Step>, batch: int) {
    forall i :: 0 <= i < |trace| ==> trace[i] in {Peek(batch), Deliver(true), Deliver(false), Step.Ack}
  }

  /** The steps of `trace` lead from table t to the world w. */
  ghost predicate Reached(t: Table, lim: Limits, trace: seq<Step>, w: World, batch: int) {
    CanRun(Start(t), lim, trace) && Run(Start(t), lim, trace) == w && DrainSteps(trace, batch)
  }

  lemma Record(t: Table, lim: Limits, trace: seq<Step>, w: World, step: Step, batch: int)
    returns (w': World, trace': seq<Step>)
    requires Reached(t, lim, trace, w, batch) && Enabled(w.process, step)
    requires DrainSteps([step], batch)
    ensures Reached(t, lim, trace', w', batch) && w' == Advance(w, lim, step)
    ensures trace' == trace + [step]
  {
    hide Enabled, Advance;
    RunSnoc(Start(t), lim, trace, step);
    assert [step][0] == step;
    w', trace' := Advance(w, lim, step), trace + [step];
  }

  lemma NoSteps(t: Table, lim: Limits, batch: int)
    ensures Reached(t, lim, [], Start(t), batch)
  {
  }

  /** One round of the drain loop: peek, n deliveries, perhaps a failed one, the ack. */
  lemma RecordBatch(t: Table, lim: Limits, trace: seq<Step>, w: World, batch: int, n: nat)
    returns (w': World, trace': seq<Step>)
    requires Reached(t, lim, trace, w, batch) && w.process.phase.Idle?
    requires n <= BatchSize(w.process.table.rows, batch) && BatchSize(w.process.table.rows, batch) > 0
    ensures Reached(t, lim, trace', w', batch)
    ensures var table := w.process.table;
            w'.process == Process(table.(rows := Without(table.rows, Ids(table.rows[..n]))), Idle)
    ensures |w'.finished| == |w.finished| + n
  {
    hide Reached, CanRun, Run, Without;
    var table := w.process.table;
    var rows := table.rows[..BatchSize(table.rows, batch)];
    w', trace' := Record(t, lim, trace, w, Peek(batch), batch);
    for i := 0 to n
      invariant Reached(t, lim, trace', w', batch)
      invariant w'.process == Process(table, Draining(rows, i, false))
      invariant |w'.finished| == |w.finished| + i
    {
      w', trace' := Record(t, lim, trace', w', Deliver(true), batch);
    }
    if n < |rows| {
      w', trace' := Record(t, lim, trace', w', Deliver(false), batch);
    }
    assert rows[..n] == table.rows[..n];
    w', trace' := Record(t, lim, trace', w', Step.Ack, batch);
  }

  // ---- What a drain removes ----

  /** The client after pushing the first k payloads one after the other, come what may. */
  function LinkAfter(replies: Replies, rows: seq<Row>, link: Link, k: nat): Link
    requires k <= |rows|
  {
    if k == 0 then link
    else PushLink(replies, LinkAfter(replies, rows, link, k - 1), rows[k - 1].payload).link
  }

  function OutcomeOf(replies: Replies, rows: seq<Row>, link: Link, k: nat): Outcome
    requires k < |rows|
  {
    PushLink(replies, LinkAfter(replies, rows, link, k), rows[k].payload).outcome
  }

  lemma {:induction false} LinkAfterTail(replies: Replies, rows: seq<Row>, link: Link, k: nat)
    requires 0 < k <= |rows|
    ensures LinkAfter(replies, rows, link, k)
         == LinkAfter(replies, rows[1..], PushLink(replies, link, rows[0].payload).link, k - 1)
  {
    hide PushLink;
    if k > 1 {
      LinkAfterTail(replies, rows, link, k - 1);
    }
  }

  /** A drain takes off exactly the longest prefix of payloads that do not fail transiently, and
      stops with the requests for that prefix and the failing payload behind it made. */
  lemma {:induction false} DrainTakesLongestPrefix(replies: Replies, rows: seq<Row>, link: Link)
    ensures var d := DrainAll(replies, rows, link);
            var n := |d.outcomes|;
            && n <= |rows|
            && (forall k :: 0 <= k < n ==>
                  d.outcomes[k] == OutcomeOf(replies, rows, link, k) && !d.outcomes[k].Transient?)
            && (n < |rows| ==> OutcomeOf(replies, rows, link, n).Transient?)
            && d.link == LinkAfter(replies, rows, link, if n < |rows| then n + 1 else n)
    decreases |rows|
  {
    hide PushLink;
    if rows == [] {
    } else {
      var p := PushLink(replies, link, rows[0].payload);
      assert LinkAfter(replies, rows, link, 0) == link && LinkAfter(replies, rows, link, 1) == p.link;
      if !p.outcome.Transient? {
        DrainTakesLongestPrefix(replies, rows[1..], p.link);
        DrainPrepend(replies, rows[1..], p.link, [p.outcome], []);
        assert [p.outcome] + [] == [] + [p.outcome];
        forall k | 0 < k <= |rows|
          ensures LinkAfter(replies, rows, link, k) == LinkAfter(replies, rows[1..], p.link, k - 1)
        {
          LinkAfterTail(replies, rows, link, k);
        }
      }
    }
  }
}
