/** The non-blocking re-enrolment flow of a running daemon. */
module Reclaim {
  import opened Prelude

  /** A field of a JSON object, as `dict.get` finds it; other values print as text. */
  datatype Json = Absent | Null | Text(text: string)

  /** `str(data.get(key, default))` */
  function Str(field: Json, default: string): string {
    match field
    case Absent => default
    case Null => "None"
    case Text(text) => text
  }

  /** The reply to the one request a step may make; a body that is no JSON object has no fields. */
  datatype Answer =
    | Failed
    | Answered(code: int, enrollId: Json, status: Json, token: Json)

  datatype Request = Post | Get(id: string)

  datatype Flow = Flow(enrollId: string, nextTry: real, waitingLogged: bool)

  datatype Stepped = Stepped(flow: Flow, request: Option<Request>, token: Option<string>)

  /** What one `step` is given: the clock, and the reply should it make a request. */
  datatype Input = Input(now: real, answer: Answer)

  const MIN_INTERVAL := 60.0

  predicate Invalidates(a: Answer)
    requires a.Answered?
  {
    a.code >= 400 || Str(a.status, "pending") in {"rejected", "expired"}
  }

  function PostStep(flow: Flow, a: Answer): Flow {
    if a.Failed? then flow
    else if a.code == 404 then flow.(waitingLogged := true)
    else if a.code >= 400 then flow
    else flow.(enrollId := Str(a.enrollId, ""), waitingLogged := false)
  }

  /** The specification of `step`. */
  function StepFlow(flow: Flow, minInterval: real, input: Input): Stepped {
    if input.now < flow.nextTry then Stepped(flow, None, None)
    else
      var armed := flow.(nextTry := input.now + minInterval);
      var a := input.answer;
      if flow.enrollId == "" then Stepped(PostStep(armed, a), Some(Post), None)
      else
        var get := Some(Get(flow.enrollId));
        if a.Failed? then Stepped(armed, get, None)
        else if Invalidates(a) then Stepped(armed.(enrollId := ""), get, None)
        else
          var token := Str(a.token, "");
          Stepped(armed, get, if token == "" then None else Some(token))
  }

  function NewFlow(): Flow {
    Flow("", 0.0, false)
  }

  class ReclaimFlow {
    const minInterval: real
    var enrollId: string
    var nextTry: real
    var waitingLogged: bool

    constructor (minInterval: real := MIN_INTERVAL)
      ensures State() == NewFlow() && this.minInterval == minInterval
    {
      this.minInterval := minInterval;
      enrollId, nextTry, waitingLogged := "", 0.0, false;
    }

    function State(): Flow
      reads this
    {
      Flow(enrollId, nextTry, waitingLogged)
    }

    method Step(input: Input) returns (token: Option<string>, request: Option<Request>)
      modifies this
      ensures Stepped(State(), request, token) == StepFlow(old(State()), minInterval, input)
    {
      if input.now < nextTry {
        return None, None;
      }
      nextTry := input.now + minInterval;
      var a := input.answer;
      if enrollId == "" {
        request := Some(Post);
        if a.Failed? {
          return None, request;
        }
        if a.code == 404 {
          if !waitingLogged {
            waitingLogged := true;
          }
          return None, request;
        }
        if a.code >= 400 {
          return None, request;
        }
        enrollId := Str(a.enrollId, "");
        waitingLogged := false;
        return None, request;
      }
      request := Some(Get(enrollId));
      if a.Failed? {
        return None, request;
      }
      if a.code >= 400 {
        enrollId := "";
        return None, request;
      }
      var status := Str(a.status, "pending");
      if status in {"rejected", "expired"} {
        enrollId := "";
        return None, request;
      }
      var issued := Str(a.token, "");
      if issued == "" {
        return None, request;
      }
      return Some(issued), request;
    }
  }

  // ---- One step in plain terms ----

  /** Throttled, a step does nothing; otherwise it always makes its request, a POST until an id is
      held and then a GET for it, and the next is due `min_interval` later. */
  lemma UnthrottledRequests(flow: Flow, minInterval: real, input: Input)
    ensures var s := StepFlow(flow, minInterval, input);
            if input.now < flow.nextTry then s == Stepped(flow, None, None)
            else
              && s.request == Some(if flow.enrollId == "" then Post else Get(flow.enrollId))
              && s.flow.nextTry == input.now + minInterval
  {
  }

  /** What a POST answers: an id below 400, a missing one being none; anything else leaves the flow
      without an id, a 404 noting that enrolment is waiting. */
  lemma PostGrantsId(flow: Flow, minInterval: real, input: Input)
    requires flow.enrollId == "" && input.now >= flow.nextTry
    ensures var s, a := StepFlow(flow, minInterval, input), input.answer;
            && s.token.None?
            && (a.Answered? && a.code < 400 ==>
                  && !s.flow.waitingLogged
                  && (a.enrollId == Text(s.flow.enrollId)
                      || (a.enrollId.Absent? && s.flow.enrollId == "")
                      || (a.enrollId.Null? && s.flow.enrollId == "None")))
            && (a.Failed? || a.code >= 400 ==>
                  s.flow.enrollId == ""
                  && (s.flow.waitingLogged <==> flow.waitingLogged || (a.Answered? && a.code == 404)))
  {
  }

  /** A GET answered 400 or above, "rejected" or "expired" starts over: no token, and the next step
      past the throttle is a POST. Any other answer keeps the id. */
  lemma RejectionStartsOver(flow: Flow, minInterval: real, input: Input, next: Input)
    requires flow.enrollId != "" && input.now >= flow.nextTry
    requires next.now >= input.now + minInterval
    ensures var s, a := StepFlow(flow, minInterval, input), input.answer;
            var again := StepFlow(s.flow, minInterval, next).request;
            if a.Answered? && (a.code >= 400 || a.status in {Text("rejected"), Text("expired")})
            then s.token.None? && s.flow.enrollId == "" && again == Some(Post)
            else s.flow.enrollId == flow.enrollId && again == Some(Get(flow.enrollId))
  {
  }

  /** The flow yields token t, in terms of what a step holds and what it is told. */
  predicate Issues(flow: Flow, input: Input, t: string) {
    var a := input.answer;
    && flow.enrollId != "" && input.now >= flow.nextTry
    && a.Answered? && a.code < 400 && a.status !in {Text("rejected"), Text("expired")}
    && t != "" && (a.token == Text(t) || (a.token.Null? && t == "None"))
  }

  /** A step returns a token exactly when the answer to its GET issues it. */
  lemma TokenExactly(flow: Flow, minInterval: real, input: Input, t: string)
    ensures StepFlow(flow, minInterval, input).token == Some(t) <==> Issues(flow, input, t)
  {
  }

  // ---- Runs ----

  /** One step of a run as seen from outside. */
  datatype Event = Event(input: Input, request: Option<Request>, token: Option<string>)

  datatype History = History(flow: Flow, events: seq<Event>)

  function Run(minInterval: real, inputs: seq<Input>): History {
    if inputs == [] then History(NewFlow(), [])
    else
      var h := Run(minInterval, inputs[..|inputs| - 1]);
      var s := StepFlow(h.flow, minInterval, inputs[|inputs| - 1]);
      History(s.flow, h.events + [Event(inputs[|inputs| - 1], s.request, s.token)])
  }

  /** A POST the backend answered with this id. */
  predicate Grants(e: Event, id: string) {
    e.request == Some(Post) && e.input.answer.Answered? && e.input.answer.code < 400
    && Str(e.input.answer.enrollId, "") == id
  }

  /** An event after which an earlier id no longer counts. */
  predicate Supersedes(e: Event) {
    && e.request.Some? && e.input.answer.Answered?
    && (if e.request.value.Post? then e.input.answer.code < 400 else Invalidates(e.input.answer))
  }

  /** The id in force after the events: granted at i and not superseded since. */
  predicate InForce(events: seq<Event>, i: nat, id: string)
    requires i < |events|
  {
    Grants(events[i], id) && forall k :: i < k < |events| ==> !Supersedes(events[k])
  }

  lemma {:induction false} IdHasOrigin(minInterval: real, inputs: seq<Input>)
    ensures var h := Run(minInterval, inputs);
            && |h.events| == |inputs|
            && (h.flow.enrollId != "" ==>
                  exists i :: 0 <= i < |h.events| && InForce(h.events, i, h.flow.enrollId))
  {
    if inputs == [] {
    } else {
      var front := inputs[..|inputs| - 1];
      IdHasOrigin(minInterval, front);
      var before, h := Run(minInterval, front), Run(minInterval, inputs);
      var last := |before.events|;
      assert h.events[..last] == before.events;
      if h.flow.enrollId != "" {
        if Supersedes(h.events[last]) {
          assert InForce(h.events, last, h.flow.enrollId);
        } else {
          var i :| 0 <= i < last && InForce(before.events, i, before.flow.enrollId);
          assert InForce(h.events, i, h.flow.enrollId);
        }
      }
    }
  }

  lemma {:induction false} RunPrefix(minInterval: real, inputs: seq<Input>, n: nat)
    requires n <= |inputs|
    ensures |Run(minInterval, inputs).events| == |inputs|
    ensures Run(minInterval, inputs[..n]).events == Run(minInterval, inputs).events[..n]
    decreases |inputs|
  {
    if n < |inputs| {
      RunPrefix(minInterval, inputs[..|inputs| - 1], n);
      assert inputs[..|inputs| - 1][..n] == inputs[..n];
    } else {
      assert inputs[..n] == inputs;
      if inputs != [] {
        RunPrefix(minInterval, inputs[..|inputs| - 1], |inputs| - 1);
      }
    }
  }

  lemma EventIs(minInterval: real, inputs: seq<Input>, j: nat)
    requires j < |inputs|
    ensures |Run(minInterval, inputs).events| == |inputs|
    ensures var h := Run(minInterval, inputs[..j]);
            var s := StepFlow(h.flow, minInterval, inputs[j]);
            && h.events == Run(minInterval, inputs).events[..j]
            && Run(minInterval, inputs).events[j] == Event(inputs[j], s.request, s.token)
  {
    RunPrefix(minInterval, inputs, j);
    RunPrefix(minInterval, inputs, j + 1);
    assert inputs[..j + 1][..j] == inputs[..j];
    var to := Run(minInterval, inputs[..j + 1]);
    assert to.events[j] == Run(minInterval, inputs).events[j];
  }

  /** Every GET asks for the id of the latest successful POST, not invalidated since; and a
      token only ever comes from the answer to such a GET. */
  lemma GetsAskForGrantedId(minInterval: real, inputs: seq<Input>, j: nat)
    requires j < |inputs|
    ensures |Run(minInterval, inputs).events| == |inputs|
    ensures var events := Run(minInterval, inputs).events;
            && (events[j].request.Some? && events[j].request.value.Get? ==>
                  exists i :: 0 <= i < j && InForce(events[..j], i, events[j].request.value.id))
            && (events[j].token.Some? ==>
                  && events[j].request.Some? && events[j].request.value.Get?
                  && events[j].input.answer.Answered? && !Invalidates(events[j].input.answer)
                  && events[j].token.value == Str(events[j].input.answer.token, "") != "")
  {
    EventIs(minInterval, inputs, j);
    IdHasOrigin(minInterval, inputs[..j]);
  }

  lemma {:induction false} NextTryIsBound(minInterval: real, inputs: seq<Input>, i: nat)
    requires minInterval >= 0.0
    requires i < |inputs| == |Run(minInterval, inputs).events|
    requires Run(minInterval, inputs).events[i].request.Some?
    ensures Run(minInterval, inputs).flow.nextTry >= inputs[i].now + minInterval
  {
    var front := inputs[..|inputs| - 1];
    RunPrefix(minInterval, inputs, |inputs| - 1);
    EventIs(minInterval, inputs, |inputs| - 1);
    if i < |inputs| - 1 {
      NextTryIsBound(minInterval, front, i);
    }
  }

  /** Any two requests of a run are at least `min_interval` apart. */
  lemma RequestsAreSpaced(minInterval: real, inputs: seq<Input>, i: nat, j: nat)
    requires minInterval >= 0.0 && i < j < |inputs|
    requires |Run(minInterval, inputs).events| == |inputs|
    requires Run(minInterval, inputs).events[i].request.Some?
    requires Run(minInterval, inputs).events[j].request.Some?
    ensures inputs[j].now >= inputs[i].now + minInterval
  {
    EventIs(minInterval, inputs, j);
    NextTryIsBound(minInterval, inputs[..j], i);
  }

  /** A backend that has approved: a POST gets an id, a GET gets the token. */
  predicate Cooperates(a: Answer) {
    && a.Answered? && a.code < 400
    && Str(a.enrollId, "") != "" && Str(a.token, "") != ""
    && Str(a.status, "pending") !in {"rejected", "expired"}
  }

  function Requests(flow: Flow, minInterval: real, inputs: seq<Input>): nat
    decreases |inputs|
  {
    if inputs == [] then 0
    else
      var s := StepFlow(flow, minInterval, inputs[0]);
      (if s.request.Some? then 1 else 0) + Requests(s.flow, minInterval, inputs[1..])
  }

  predicate Finishes(flow: Flow, minInterval: real, inputs: seq<Input>)
    decreases |inputs|
  {
    inputs != []
    && var s := StepFlow(flow, minInterval, inputs[0]);
       s.token.Some? || Finishes(s.flow, minInterval, inputs[1..])
  }

  /** Once the backend cooperates, whatever the state and however many throttled steps lie
      between, the second request finishes at the latest. */
  lemma {:induction false} TwoRequestsFinish(flow: Flow, minInterval: real, inputs: seq<Input>)
    requires forall i :: 0 <= i < |inputs| ==> Cooperates(inputs[i].answer)
    ensures Requests(flow, minInterval, inputs) >= (if flow.enrollId == "" then 2 else 1)
            ==> Finishes(flow, minInterval, inputs)
    decreases |inputs|
  {
    if inputs == [] {
    } else {
      TwoRequestsFinish(StepFlow(flow, minInterval, inputs[0]).flow, minInterval, inputs[1..]);
    }
  }

  /** The flow finishes with a token the backend put in its answer as text, unless the answer
      carries an explicit null: then, and only then, it finishes with the text "None". */
  lemma TokenIsIssuedUnlessNull(flow: Flow, minInterval: real, input: Input)
    requires StepFlow(flow, minInterval, input).token.Some?
    ensures var token := StepFlow(flow, minInterval, input).token.value;
            && input.answer.Answered?
            && (input.answer.token == Text(token) <==> !input.answer.token.Null?)
            && (input.answer.token.Null? ==> token == "None")
  {
  }

  /** The null reply in full: an approval with `"token": null` ends the flow with the text "None". */
  lemma NullTokenFinishes(flow: Flow, minInterval: real, input: Input)
    requires flow.enrollId != "" && input.now >= flow.nextTry
    requires input.answer == Answered(200, Absent, Text("approved"), Null)
    ensures StepFlow(flow, minInterval, input).token == Some("None")
  {
  }

  /** The flow reads no token from a POST: against a backend that hands the token over at once,
      without an `enroll_id`, it never finishes, however long it runs. */
  lemma {:induction false} ImmediateTokenIsIgnored(flow: Flow, minInterval: real, inputs: seq<Input>)
    requires flow.enrollId == ""
    requires forall i :: 0 <= i < |inputs| ==>
               inputs[i].answer.Answered? ==> Str(inputs[i].answer.enrollId, "") == ""
    ensures !Finishes(flow, minInterval, inputs)
    decreases |inputs|
  {
    if inputs == [] {
    } else {
      ImmediateTokenIsIgnored(StepFlow(flow, minInterval, inputs[0]).flow, minInterval, inputs[1..]);
    }
  }
}
