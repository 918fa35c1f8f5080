/** The daemon's `push_sink`: deliver, buffer, drain, and fall back to re-enrolment. */
module Sink {
  import opened Prelude
  import opened DiskQueue
  import opened Transport
  import Reclaim

  const AUTH_FAIL_LIMIT := 3
  const DRAIN_BATCH := 50

  /** Everything a delivery cycle depends on and changes. */
  datatype State = State(link: Link, authFails: nat, reclaim: Option<Reclaim.Flow>, queue: Option<Table>)

  /** One call: the payload, the queue's clock readings, and what a re-enrolment step would see. */
  datatype Call = Call(payload: Payload, at: Clock, step: Reclaim.Input)

  datatype Env = Env(replies: Replies, limits: Limits)

  function Reclaimed(st: State, flow: Reclaim.Flow, step: Reclaim.Input): State {
    var s := Reclaim.StepFlow(flow, Reclaim.MIN_INTERVAL, step);
    match s.token
    case Some(token) => st.(link := st.link.(token := token), reclaim := None, authFails := 0)
    case None => st.(reclaim := Some(s.flow))
  }

  function Struck(st: State, link: Link): State {
    var fails := st.authFails + 1;
    if fails >= AUTH_FAIL_LIMIT then
      st.(link := link.(token := ""), authFails := fails, reclaim := Some(Reclaim.NewFlow()))
    else st.(link := link, authFails := fails)
  }

  /** The drain a delivered push runs. */
  function Backlog(env: Env, st: State, link: Link): Drained {
    if st.queue.None? then Drained(link, []) else DrainAll(env.replies, st.queue.value.rows, link)
  }

  function Removed(queue: Option<Table>, n: nat): Option<Table>
    requires queue.Some? ==> n <= |queue.value.rows|
  {
    if queue.None? then None else Some(queue.value.(rows := queue.value.rows[n..]))
  }

  /** The specification of `push_sink`. */
  function SinkStep(env: Env, st: State, call: Call): State {
    match st.reclaim
    case Some(flow) => Reclaimed(st, flow, call.step)
    case None =>
      var p := PushLink(env.replies, st.link, call.payload);
      if p.outcome.Transient? then
        st.(link := p.link,
            queue := if st.queue.None? then None
                     else Some(PushTable(st.queue.value, env.limits, call.payload, call.at)))
      else if p.link.authStatus.Some? then Struck(st, p.link)
      else
        var d := Backlog(env, st, p.link);
        if st.queue.Some? then
          DrainTakesLongestPrefix(env.replies, st.queue.value.rows, p.link);
          st.(link := d.link, authFails := 0, queue := Removed(st.queue, |d.outcomes|))
        else st.(link := d.link, authFails := 0)
  }

  /** One call after the other. */
  function RunState(env: Env, st: State, calls: seq<Call>): State {
    if calls == [] then st else SinkStep(env, RunState(env, st, calls[..|calls| - 1]), calls[|calls| - 1])
  }

  class PushSink {
    const client: Client
    const queue: DiskQueue?
    var authFails: nat
    var reclaim: Reclaim.ReclaimFlow?

    ghost predicate Valid()
      reads this, queue, reclaim
    {
      && (queue != null ==> queue.Valid())
      && (reclaim != null ==> reclaim.minInterval == Reclaim.MIN_INTERVAL)
    }

    function Current(): State
      reads this, client, queue, reclaim
    {
      State(client.State(), authFails,
            if reclaim == null then None else Some(reclaim.State()),
            if queue == null then None else Some(queue.Contents()))
    }

    function Limit(): Limits {
      if queue == null then Limits(0, 0.0) else queue.limits
    }

    constructor (client: Client, queue: DiskQueue?)
      requires queue != null ==> queue.Valid()
      ensures Valid() && this.client == client && this.queue == queue
      ensures Current() == State(client.State(), 0, None, if queue == null then None else Some(queue.Contents()))
    {
      this.client, this.queue := client, queue;
      authFails, reclaim := 0, null;
    }

    method Push(call: Call)
      requires Valid()
      modifies this, client, queue, reclaim
      ensures Valid()
      ensures Current() == SinkStep(Env(client.replies, Limit()), old(Current()), call)
    {
      var flow := reclaim;
      if flow != null {
        var token, _ := flow.Step(call.step);
        if token.Some? {
          client.token := token.value;
          reclaim := null;
          authFails := 0;
        }
        return;
      }
      var done := client.Push(call.payload);
      if done {
        if client.authStatus.Some? {
          authFails := authFails + 1;
          if authFails >= AUTH_FAIL_LIMIT {
            client.token := "";
            reclaim := new Reclaim.ReclaimFlow();
          }
          return;
        }
        authFails := 0;
        if queue != null && |queue.rows| > 0 {
          var _, _, _ := Drain(queue, client, DRAIN_BATCH);
        }
      } else if queue != null {
        queue.Push(call.payload, call.at);
      }
    }
  }
}
