/** The conversation of an agent review: what a turn of the model adds to the messages, and when the review ends. */
module Conversation {
  import opened Common

  /** `arguments` is the JSON object of the call, as text. */
  datatype Call = Call(id: string, name: string, arguments: string)

  const FINISH: string := "finish_review"

  datatype ToolReply = Observed(payload: string) | Rejected(error: string)

  datatype Notice = MalformedResponse | NoToolCall | TurnsLeft(turns: nat)

  datatype Message =
    | Prompt(text: string)
    | Told(notice: Notice)
    | Assistant(content: Option<string>, calls: seq<Call>)
    | Tool(id: string, reply: ToolReply)

  datatype Response = Unusable(error: string) | Answer(content: Option<string>, calls: seq<Call>)

  datatype Outcome = Transient | Fatal | Received(response: Response)

  datatype Observation = Observation(payload: string, bytes: nat)

  /** The world: what the `k`-th request to the model brings, what the broker answers to the `n`-th tool call, and what
      is wrong with a final report. */
  datatype World = World(client: (nat, seq<Message>) -> Outcome, broker: (nat, Call) -> Result<Observation, string>,
                         objection: string -> Option<string>)

  datatype Limits = Limits(maxTurns: nat, maxCalls: nat, maxAttempts: nat)
  {
    predicate Valid() {
      maxTurns > 0 && maxCalls > 0 && 1 <= maxAttempts <= 2
    }
  }

  const REMINDER_TURNS: nat := 4

  datatype ProtocolError = ProtocolError(tool: string, error: string)

  datatype State = State(messages: seq<Message>, requests: nat, responses: nat, toolCalls: nat, toolBytes: nat,
                         corrections: nat, errors: seq<ProtocolError>)

  datatype Verdict = Report(arguments: string) | ModelFailed(outcome: Outcome) | TooManyCalls | TooManyTurns

  datatype Ended = Ended(verdict: Verdict, final: State)

  // ----- one turn

  datatype Attempt = Attempt(outcome: Outcome, requests: nat)

  /** A transient failure is tried again, up to `tries` requests in all. */
  function Complete(world: World, messages: seq<Message>, requests: nat, tries: nat): (a: Attempt)
    requires tries > 0
    ensures requests < a.requests <= requests + tries
    decreases tries
  {
    var outcome := world.client(requests, messages);
    if outcome.Transient? && tries > 1 then Complete(world, messages, requests + 1, tries - 1)
    else Attempt(outcome, requests + 1)
  }

  function Corrected(s: State, tool: string, error: string, messages: seq<Message>): State {
    s.(corrections := s.corrections + 1, errors := s.errors + [ProtocolError(tool, error)],
       messages := s.messages + messages)
  }

  predicate HasFinish(calls: seq<Call>) {
    exists k :: 0 <= k < |calls| && calls[k].name == FINISH
  }

  predicate Mixed(calls: seq<Call>) {
    HasFinish(calls) && |calls| != 1
  }

  const MIXED_ERROR: string := "finish_review must be the only tool call in its turn"

  /** What is wrong with a call of `finish_review`. */
  function FinishError(world: World, call: Call, mixed: bool): Option<string> {
    if mixed then Some(MIXED_ERROR) else world.objection(call.arguments)
  }

  /** One tool call that does not end the review: it is counted and answered once. */
  function Handle(world: World, s: State, call: Call, mixed: bool): State {
    var counted := s.(toolCalls := s.toolCalls + 1);
    if call.name == FINISH then
      var error := FinishError(world, call, mixed);
      var text := if error.Some? then error.value else "";
      Corrected(counted, FINISH, text, [Tool(call.id, Rejected(text))])
    else
      match world.broker(s.toolCalls, call)
      case Ok(o) => counted.(toolBytes := s.toolBytes + o.bytes,
                             messages := s.messages + [Tool(call.id, Observed(o.payload))])
      case Err(e) => Corrected(counted, call.name, e, [Tool(call.id, Rejected(e))])
  }

  function HandleAll(world: World, s: State, calls: seq<Call>, mixed: bool): State
    decreases |calls|
  {
    if calls == [] then s else HandleAll(world, Handle(world, s, calls[0], mixed), calls[1..], mixed)
  }

  /** The one call that ends a review: alone in its turn and with a report nobody objects to. */
  predicate Concludes(world: World, calls: seq<Call>) {
    |calls| == 1 && calls[0].name == FINISH && world.objection(calls[0].arguments).None?
  }

  datatype Turned = Continue(s: State) | Stop(verdict: Verdict, s: State)

  function Reminder(limits: Limits, turn: nat, calls: seq<Call>): seq<Message> {
    if 0 < limits.maxTurns - turn <= REMINDER_TURNS && !HasFinish(calls)
    then [Told(TurnsLeft(limits.maxTurns - turn))] else []
  }

  function TakeCalls(world: World, limits: Limits, turn: nat, s: State, content: Option<string>,
                     calls: seq<Call>): Turned {
    if |calls| > limits.maxCalls then Stop(TooManyCalls, s)
    else
      var told := s.(messages := s.messages + [Assistant(content, calls)]);
      if Concludes(world, calls) then Stop(Report(calls[0].arguments), told.(toolCalls := s.toolCalls + 1))
      else
        var handled := HandleAll(world, told, calls, Mixed(calls));
        Continue(handled.(messages := handled.messages + Reminder(limits, turn, calls)))
  }

  function Turn(world: World, limits: Limits, turn: nat, s: State): Turned
    requires limits.Valid()
  {
    var a := Complete(world, s.messages, s.requests, limits.maxAttempts);
    var asked := s.(requests := a.requests);
    if !a.outcome.Received? then Stop(ModelFailed(a.outcome), asked)
    else
      var answered := asked.(responses := s.responses + 1);
      match a.outcome.response
      case Unusable(e) => Continue(Corrected(answered, "<assistant>", e, [Told(MalformedResponse)]))
      case Answer(content, calls) =>
        if calls == [] then
          Continue(Corrected(answered, "<assistant>", "no_tool_call", [Assistant(content, []), Told(NoToolCall)]))
        else TakeCalls(world, limits, turn, answered, content, calls)
  }

  /** The review from turn `turn` on. */
  function Run(world: World, limits: Limits, turn: nat, s: State): Ended
    requires limits.Valid()
    decreases limits.maxTurns + 1 - turn
  {
    if turn > limits.maxTurns then Ended(TooManyTurns, s)
    else
      match Turn(world, limits, turn, s)
      case Continue(next) => Run(world, limits, turn + 1, next)
      case Stop(verdict, last) => Ended(verdict, last)
  }

  function Start(prompts: seq<Message>): State {
    State(prompts, 0, 0, 0, 0, 0, [])
  }

  // ----- the program

  class ReviewSession {
    const world: World
    const limits: Limits
    var messages: seq<Message>
    var requests: nat
    var responses: nat
    var toolCalls: nat
    var toolBytes: nat
    var corrections: nat
    var errors: seq<ProtocolError>

    ghost function View(): State
      reads this
    {
      State(messages, requests, responses, toolCalls, toolBytes, corrections, errors)
    }

    constructor (world: World, limits: Limits, prompts: seq<Message>)
      requires limits.Valid()
      ensures this.world == world && this.limits == limits && View() == Start(prompts)
    {
      this.world, this.limits, messages := world, limits, prompts;
      requests, responses, toolCalls, toolBytes, corrections, errors := 0, 0, 0, 0, 0, [];
    }

    method CompleteWithRetries() returns (outcome: Outcome)
      requires limits.Valid()
      modifies this`requests
      ensures Attempt(outcome, requests) == Complete(world, messages, old(requests), limits.maxAttempts)
      ensures requests > old(requests) && outcome == world.client(requests - 1, messages)
      ensures forall k: nat | old(requests) <= k < requests - 1 :: world.client(k, messages).Transient?
    {
      outcome := Transient;
      ghost var goal := Complete(world, messages, requests, limits.maxAttempts);
      for k := 0 to limits.maxAttempts
        invariant outcome.Transient?
        invariant if k < limits.maxAttempts then goal == Complete(world, messages, requests, limits.maxAttempts - k)
                  else goal == Attempt(Transient, requests)
      {
        outcome := world.client(requests, messages);
        requests := requests + 1;
        if !outcome.Transient? {
          return;
        }
      }
    }

    method Correct(tool: string, error: string, more: seq<Message>)
      modifies this
      ensures View() == Corrected(old(View()), tool, error, more)
    {
      corrections := corrections + 1;
      errors := errors + [ProtocolError(tool, error)];
      messages := messages + more;
    }

    /** One call of a turn; `done` if it ends the review. */
    method HandleCall(call: Call, mixed: bool) returns (done: bool)
      modifies this
      ensures done <==> call.name == FINISH && FinishError(world, call, mixed).None?
      ensures View() == if done then old(View()).(toolCalls := old(toolCalls) + 1)
                        else Handle(world, old(View()), call, mixed)
    {
      done := false;
      toolCalls := toolCalls + 1;
      if call.name == FINISH {
        var error := if mixed then Some(MIXED_ERROR) else world.objection(call.arguments);
        if error.None? {
          return true;
        }
        Correct(FINISH, error.value, [Tool(call.id, Rejected(error.value))]);
        return;
      }
      match world.broker(toolCalls - 1, call)
      case Err(e) =>
        Correct(call.name, e, [Tool(call.id, Rejected(e))]);
      case Ok(o) =>
        toolBytes := toolBytes + o.bytes;
        messages := messages + [Tool(call.id, Observed(o.payload))];
    }

    method HandleCalls(calls: seq<Call>) returns (report: Option<string>)
      requires calls != []
      modifies this
      ensures if Concludes(world, calls) then
                report == Some(calls[0].arguments) && View() == old(View()).(toolCalls := old(toolCalls) + 1)
              else report.None? && View() == HandleAll(world, old(View()), calls, Mixed(calls))
    {
      var mixed := HasFinish(calls) && |calls| != 1;
      ghost var start := View();
      for k := 0 to |calls|
        invariant k > 0 ==> !Concludes(world, calls)
        invariant k == 0 ==> View() == start
        invariant HandleAll(world, start, calls, mixed) == HandleAll(world, View(), calls[k..], mixed)
      {
        assert calls[k..][1..] == calls[k + 1..];
        var done := HandleCall(calls[k], mixed);
        if done {
          return Some(calls[k].arguments);
        }
      }
      return None;
    }

    /** One turn; a verdict if it ends the review. */
    method TakeTurn(turn: nat) returns (verdict: Option<Verdict>)
      requires limits.Valid()
      modifies this
      ensures match Turn(world, limits, turn, old(View()))
              case Continue(s) => verdict.None? && View() == s
              case Stop(v, s) => verdict == Some(v) && View() == s
    {
      var outcome := CompleteWithRetries();
      if !outcome.Received? {
        return Some(ModelFailed(outcome));
      }
      responses := responses + 1;
      if outcome.response.Unusable? {
        Correct("<assistant>", outcome.response.error, [Told(MalformedResponse)]);
        return None;
      }
      var content, calls := outcome.response.content, outcome.response.calls;
      if calls == [] {
        Correct("<assistant>", "no_tool_call", [Assistant(content, []), Told(NoToolCall)]);
        return None;
      }
      if |calls| > limits.maxCalls {
        return Some(TooManyCalls);
      }
      messages := messages + [Assistant(content, calls)];
      var report := HandleCalls(calls);
      if report.Some? {
        return Some(Report(report.value));
      }
      if 0 < limits.maxTurns - turn <= REMINDER_TURNS && !HasFinish(calls) {
        messages := messages + [Told(TurnsLeft(limits.maxTurns - turn))];
      } else {
        assert messages + [] == messages;
      }
      return None;
    }

    method Review() returns (verdict: Verdict)
      requires limits.Valid()
      modifies this
      ensures Ended(verdict, View()) == Run(world, limits, 1, old(View()))
    {
      ghost var goal := Run(world, limits, 1, View());
      for turn := 1 to limits.maxTurns + 1
        invariant goal == Run(world, limits, turn, View())
      {
        var ended := TakeTurn(turn);
        if ended.Some? {
          return ended.value;
        }
      }
      return TooManyTurns;
    }
  }

  // ----- every request is well paired

  function IdsOf(calls: seq<Call>): (ids: seq<string>)
    ensures |ids| == |calls| && forall k | 0 <= k < |calls| :: ids[k] == calls[k].id
  {
    seq(|calls|, k requires 0 <= k < |calls| => calls[k].id)
  }

  /** The ids of calls still to be answered, in order; `None` once the order is broken. */
  function Pending(messages: seq<Message>): Option<seq<string>> {
    if messages == [] then Some([]) else Awaiting(Pending(messages[..|messages| - 1]), messages[|messages| - 1])
  }

  function Awaiting(pending: Option<seq<string>>, m: Message): Option<seq<string>> {
    if pending.None? then None
    else
      match m
      case Tool(id, _) => if pending.value != [] && pending.value[0] == id then Some(pending.value[1..]) else None
      case Assistant(_, calls) => if pending.value == [] then Some(IdsOf(calls)) else None
      case _ => if pending.value == [] then Some([]) else None
  }

  predicate Paired(messages: seq<Message>) {
    Pending(messages) == Some([])
  }

  lemma PendingStep(messages: seq<Message>, m: Message)
    ensures Pending(messages + [m]) == Awaiting(Pending(messages), m)
  {
    assert (messages + [m])[..|messages|] == messages;
  }

  lemma {:induction false} PendingBefore(messages: seq<Message>, n: nat)
    requires n <= |messages| && Pending(messages).Some?
    ensures Pending(messages[..n]).Some?
    decreases |messages|
  {
    if n == |messages| {
      assert messages[..n] == messages;
    } else {
      var rest := messages[..|messages| - 1];
      assert rest[..n] == messages[..n];
      PendingBefore(rest, n);
    }
  }

  lemma PendingNext(messages: seq<Message>, n: nat)
    requires n < |messages|
    ensures Pending(messages[..n + 1]) == Awaiting(Pending(messages[..n]), messages[n])
  {
    assert messages[..n + 1] == messages[..n] + [messages[n]];
    PendingStep(messages[..n], messages[n]);
  }

  lemma PendingAt(messages: seq<Message>, n: nat)
    requires n < |messages| && Pending(messages).Some?
    ensures Pending(messages[..n]).Some? && Pending(messages[..n + 1]) == Awaiting(Pending(messages[..n]), messages[n])
    ensures Pending(messages[..n + 1]).Some?
  {
    PendingBefore(messages, n);
    PendingBefore(messages, n + 1);
    PendingNext(messages, n);
  }

  lemma NextReply(messages: seq<Message>, n: nat, ids: seq<string>)
    requires Paired(messages) && n <= |messages| && ids != [] && Pending(messages[..n]) == Some(ids)
    ensures n < |messages| && messages[n].Tool? && messages[n].id == ids[0] &&
            Pending(messages[..n + 1]) == Some(ids[1..])
  {
    assert messages[..|messages|] == messages;
    assert n != |messages|;
    PendingAt(messages, n);
  }

  /** The messages from `n` on are replies to these calls, in order. */
  predicate RepliesTo(messages: seq<Message>, n: nat, ids: seq<string>) {
    && n + |ids| <= |messages|
    && forall m | n <= m < n + |ids| :: messages[m].Tool? && messages[m].id == ids[m - n]
  }

  lemma {:induction false} RepliesFollow(messages: seq<Message>, n: nat, ids: seq<string>)
    requires Paired(messages) && n <= |messages| && Pending(messages[..n]) == Some(ids)
    ensures RepliesTo(messages, n, ids) && Pending(messages[..n + |ids|]) == Some([])
    decreases |ids|
  {
    if ids != [] {
      NextReply(messages, n, ids);
      RepliesFollow(messages, n + 1, ids[1..]);
      forall m | n <= m < n + |ids|
        ensures messages[m].Tool? && messages[m].id == ids[m - n]
      {
        if m > n {
          assert ids[1..][m - (n + 1)] == ids[m - n];
        }
      }
    }
  }

  lemma NoReplyIsDue(messages: seq<Message>, n: nat)
    requires Paired(messages) && n < |messages| && Pending(messages[..n]) == Some([])
    ensures !messages[n].Tool?
  {
    PendingAt(messages, n);
  }

  /** What pairing means: an assistant message is followed by one reply to each of its calls, in their order, and by no
      further reply. */
  lemma AssistantIsAnswered(messages: seq<Message>, i: nat)
    requires Paired(messages) && i < |messages| && messages[i].Assistant?
    ensures var n := |messages[i].calls|;
            && RepliesTo(messages, i + 1, IdsOf(messages[i].calls))
            && (i + 1 + n < |messages| ==> !messages[i + 1 + n].Tool?)
  {
    var n := |messages[i].calls|;
    PendingAt(messages, i);
    RepliesFollow(messages, i + 1, IdsOf(messages[i].calls));
    if i + 1 + n < |messages| {
      NoReplyIsDue(messages, i + 1 + n);
    }
  }

  lemma {:induction false} HandleAllAnswers(world: World, s: State, calls: seq<Call>, mixed: bool)
    requires Pending(s.messages) == Some(IdsOf(calls))
    ensures Paired(HandleAll(world, s, calls, mixed).messages)
    decreases |calls|
  {
    if calls != [] {
      var next := Handle(world, s, calls[0], mixed);
      PendingStep(s.messages, next.messages[|s.messages|]);
      assert next.messages == s.messages + [next.messages[|s.messages|]];
      assert IdsOf(calls)[1..] == IdsOf(calls[1..]);
      HandleAllAnswers(world, next, calls[1..], mixed);
    }
  }

  lemma TellKeepsPaired(messages: seq<Message>, m: Message)
    requires Paired(messages) && (m.Told? || (m.Assistant? && m.calls == []))
    ensures Paired(messages + [m])
  {
    PendingStep(messages, m);
  }

  lemma TextKeepsPaired(messages: seq<Message>, content: Option<string>)
    requires Paired(messages)
    ensures Paired(messages + [Assistant(content, []), Told(NoToolCall)])
  {
    var answered := messages + [Assistant(content, [])];
    TellKeepsPaired(messages, Assistant(content, []));
    TellKeepsPaired(answered, Told(NoToolCall));
    assert messages + [Assistant(content, []), Told(NoToolCall)] == answered + [Told(NoToolCall)];
  }

  lemma ReminderKeepsPaired(limits: Limits, turn: nat, calls: seq<Call>, messages: seq<Message>)
    requires Paired(messages)
    ensures Paired(messages + Reminder(limits, turn, calls))
  {
    if Reminder(limits, turn, calls) == [] {
      assert messages + [] == messages;
    } else {
      TellKeepsPaired(messages, Told(TurnsLeft(limits.maxTurns - turn)));
    }
  }

  lemma AnswersPair(world: World, s: State, content: Option<string>, calls: seq<Call>, mixed: bool)
    requires Paired(s.messages)
    ensures Paired(HandleAll(world, s.(messages := s.messages + [Assistant(content, calls)]), calls, mixed).messages)
  {
    PendingStep(s.messages, Assistant(content, calls));
    HandleAllAnswers(world, s.(messages := s.messages + [Assistant(content, calls)]), calls, mixed);
  }

  lemma CallsKeepPaired(world: World, limits: Limits, turn: nat, s: State, content: Option<string>, calls: seq<Call>)
    requires Paired(s.messages) && TakeCalls(world, limits, turn, s, content, calls).Continue?
    ensures Paired(TakeCalls(world, limits, turn, s, content, calls).s.messages)
  {
    var told := s.(messages := s.messages + [Assistant(content, calls)]);
    AnswersPair(world, s, content, calls, Mixed(calls));
    ReminderKeepsPaired(limits, turn, calls, HandleAll(world, told, calls, Mixed(calls)).messages);
  }

  lemma TurnKeepsPaired(world: World, limits: Limits, turn: nat, s: State)
    requires limits.Valid() && Paired(s.messages) && Turn(world, limits, turn, s).Continue?
    ensures Paired(Turn(world, limits, turn, s).s.messages)
  {
    var a := Complete(world, s.messages, s.requests, limits.maxAttempts);
    var answered := s.(requests := a.requests, responses := s.responses + 1);
    if a.outcome.response.Unusable? {
      TellKeepsPaired(s.messages, Told(MalformedResponse));
    } else if a.outcome.response.calls == [] {
      TextKeepsPaired(s.messages, a.outcome.response.content);
    } else {
      CallsKeepPaired(world, limits, turn, answered, a.outcome.response.content, a.outcome.response.calls);
    }
  }

  /** All message lists given to the model from turn `turn` on, one per request. */
  function Requests(world: World, limits: Limits, turn: nat, s: State): seq<seq<Message>>
    requires limits.Valid()
    decreases limits.maxTurns + 1 - turn
  {
    if turn > limits.maxTurns then []
    else
      var n := Complete(world, s.messages, s.requests, limits.maxAttempts).requests - s.requests;
      var now := seq(n, _ => s.messages);
      match Turn(world, limits, turn, s)
      case Continue(next) => now + Requests(world, limits, turn + 1, next)
      case Stop(_, _) => now
  }

  /** The number of requests made in a turn. */
  function RequestsIn(world: World, limits: Limits, s: State): (n: nat)
    requires limits.Valid()
  {
    Complete(world, s.messages, s.requests, limits.maxAttempts).requests - s.requests
  }

  lemma RequestsOfTurn(world: World, limits: Limits, turn: nat, s: State)
    requires limits.Valid() && turn <= limits.maxTurns
    ensures var n, all := RequestsIn(world, limits, s), Requests(world, limits, turn, s);
            && n <= |all| && (forall k: nat | k < n :: all[k] == s.messages)
            && (Turn(world, limits, turn, s).Stop? ==> |all| == n)
  {
  }

  lemma RequestsOfRest(world: World, limits: Limits, turn: nat, s: State)
    requires limits.Valid() && turn <= limits.maxTurns && Turn(world, limits, turn, s).Continue?
    ensures var n, all := RequestsIn(world, limits, s), Requests(world, limits, turn, s);
            var next := Turn(world, limits, turn, s).s;
            n <= |all| && next.requests == s.requests + n && all[n..] == Requests(world, limits, turn + 1, next)
  {
    TurnCounts(world, limits, turn, s);
  }

  lemma LaterRequest(world: World, limits: Limits, turn: nat, s: State, k: nat)
    requires limits.Valid() && turn <= limits.maxTurns
    requires RequestsIn(world, limits, s) <= k < |Requests(world, limits, turn, s)|
    ensures Turn(world, limits, turn, s).Continue?
    ensures var later := Requests(world, limits, turn + 1, Turn(world, limits, turn, s).s);
            var j := k - RequestsIn(world, limits, s);
            j < |later| && Requests(world, limits, turn, s)[k] == later[j]
  {
    RequestsOfTurn(world, limits, turn, s);
    RequestsOfRest(world, limits, turn, s);
    assert Requests(world, limits, turn, s)[k] ==
           Requests(world, limits, turn, s)[RequestsIn(world, limits, s)..][k - RequestsIn(world, limits, s)];
  }

  /** In every list of messages the model is ever given, each assistant message with tool calls is followed by exactly
      one reply per call, in order. */
  lemma {:induction false} RequestsArePaired(world: World, limits: Limits, turn: nat, s: State, k: nat)
    requires limits.Valid() && Paired(s.messages) && k < |Requests(world, limits, turn, s)|
    ensures Paired(Requests(world, limits, turn, s)[k])
    decreases limits.maxTurns + 1 - turn
  {
    var n := RequestsIn(world, limits, s);
    if turn <= limits.maxTurns && k >= n {
      LaterRequest(world, limits, turn, s, k);
      TurnKeepsPaired(world, limits, turn, s);
      RequestsArePaired(world, limits, turn + 1, Turn(world, limits, turn, s).s, k - n);
    } else if turn <= limits.maxTurns {
      RequestsOfTurn(world, limits, turn, s);
    }
  }

  /** A completion hands the whole list to the model every time, and ends with the first answer that is not transient or
      with the last request allowed. */
  lemma {:induction false} CompletionIsFirstAnswer(world: World, messages: seq<Message>, requests: nat, tries: nat)
    requires tries > 0
    ensures var a := Complete(world, messages, requests, tries);
            && a.outcome == world.client(a.requests - 1, messages)
            && (forall k: nat | requests <= k < a.requests - 1 :: world.client(k, messages).Transient?)
            && (a.outcome.Transient? ==> a.requests == requests + tries)
    decreases tries
  {
    if world.client(requests, messages).Transient? && tries > 1 {
      CompletionIsFirstAnswer(world, messages, requests + 1, tries - 1);
    }
  }

  // ----- what a turn adds

  /** `m` is the reply to `call`, the `n`-th tool call of the review. */
  ghost predicate IsReply(world: World, n: nat, call: Call, mixed: bool, m: Message) {
    && m.Tool? && m.id == call.id
    && if call.name == "finish_review" then
         if mixed then m.reply == Rejected("finish_review must be the only tool call in its turn")
         else world.objection(call.arguments).Some? && m.reply == Rejected(world.objection(call.arguments).value)
       else
         match world.broker(n, call)
         case Ok(o) => m.reply == Observed(o.payload)
         case Err(e) => m.reply == Rejected(e)
  }

  /** The protocol error of a call whose reply rejects it: the name of the call and what was wrong. */
  function Rejection(call: Call, reply: Message): seq<ProtocolError> {
    if reply.Tool? && reply.reply.Rejected? then [ProtocolError(call.name, reply.reply.error)] else []
  }

  function Rejections(calls: seq<Call>, replies: seq<Message>): seq<ProtocolError>
    requires |calls| == |replies|
  {
    if calls == [] then [] else Rejection(calls[0], replies[0]) + Rejections(calls[1..], replies[1..])
  }

  /** What the broker returned for `call`, the `n`-th tool call of the review. */
  function BytesOf(world: World, n: nat, call: Call): nat {
    if call.name == "finish_review" || world.broker(n, call).Err? then 0 else world.broker(n, call).value.bytes
  }

  function BytesReturned(world: World, n: nat, calls: seq<Call>): nat
    decreases |calls|
  {
    if calls == [] then 0 else BytesOf(world, n, calls[0]) + BytesReturned(world, n + 1, calls[1..])
  }

  ghost predicate RepliesMatch(world: World, n: nat, calls: seq<Call>, mixed: bool, replies: seq<Message>) {
    |replies| == |calls| && forall k | 0 <= k < |calls| :: IsReply(world, n + k, calls[k], mixed, replies[k])
  }

  lemma RepliesMatchStep(world: World, n: nat, calls: seq<Call>, mixed: bool, first: Message, rest: seq<Message>)
    requires calls != [] && IsReply(world, n, calls[0], mixed, first)
    requires RepliesMatch(world, n + 1, calls[1..], mixed, rest)
    ensures RepliesMatch(world, n, calls, mixed, [first] + rest)
  {
    forall k | 0 <= k < |calls|
      ensures IsReply(world, n + k, calls[k], mixed, ([first] + rest)[k])
    {
      if k > 0 {
        assert IsReply(world, n + 1 + (k - 1), calls[1..][k - 1], mixed, rest[k - 1]);
      }
    }
  }

  /** What a call that does not end the review adds to the state. */
  ghost predicate Adds(world: World, s: State, call: Call, mixed: bool, t: State, reply: Message) {
    && IsReply(world, s.toolCalls, call, mixed, reply) && t.messages == s.messages + [reply]
    && t.errors == s.errors + Rejection(call, reply)
    && t.toolBytes == s.toolBytes + BytesOf(world, s.toolCalls, call) && t.toolCalls == s.toolCalls + 1
  }

  lemma HandleAdds(world: World, s: State, call: Call, mixed: bool) returns (reply: Message)
    requires call.name == FINISH && !mixed ==> world.objection(call.arguments).Some?
    ensures Adds(world, s, call, mixed, Handle(world, s, call, mixed), reply)
  {
    reply := Handle(world, s, call, mixed).messages[|s.messages|];
  }

  ghost predicate Replied(world: World, s: State, calls: seq<Call>, mixed: bool, t: State, replies: seq<Message>) {
    && RepliesMatch(world, s.toolCalls, calls, mixed, replies) && t.messages == s.messages + replies
    && t.errors == s.errors + Rejections(calls, replies)
    && t.toolBytes == s.toolBytes + BytesReturned(world, s.toolCalls, calls)
  }

  lemma RejectionsStep(calls: seq<Call>, first: Message, rest: seq<Message>)
    requires calls != [] && |rest| == |calls| - 1
    ensures Rejections(calls, [first] + rest) == Rejection(calls[0], first) + Rejections(calls[1..], rest)
  {
    assert ([first] + rest)[1..] == rest;
  }

  lemma Associates<T>(a: seq<T>, b: seq<T>, c: seq<T>)
    ensures a + b + c == a + (b + c)
  {
  }

  lemma RepliedStep(world: World, s: State, calls: seq<Call>, mixed: bool, next: State, t: State,
                    first: Message, rest: seq<Message>)
    requires calls != [] && Adds(world, s, calls[0], mixed, next, first)
    requires Replied(world, next, calls[1..], mixed, t, rest)
    ensures Replied(world, s, calls, mixed, t, [first] + rest)
  {
    RepliesMatchStep(world, s.toolCalls, calls, mixed, first, rest);
    RejectionsStep(calls, first, rest);
    Associates(s.messages, [first], rest);
    Associates(s.errors, Rejection(calls[0], first), Rejections(calls[1..], rest));
  }

  /** Every call of a turn is answered by what the broker, or the check of the report, says of it; the protocol errors
      are those answers that reject a call. */
  lemma {:induction false} CallsAreReplied(world: World, s: State, calls: seq<Call>, mixed: bool)
    returns (replies: seq<Message>)
    requires forall c | c in calls && c.name == FINISH && !mixed :: world.objection(c.arguments).Some?
    ensures Replied(world, s, calls, mixed, HandleAll(world, s, calls, mixed), replies)
    decreases |calls|
  {
    replies := [];
    if calls == [] {
      assert s.messages + [] == s.messages && s.errors + [] == s.errors;
    } else {
      var next := Handle(world, s, calls[0], mixed);
      var first := HandleAdds(world, s, calls[0], mixed);
      var rest := CallsAreReplied(world, next, calls[1..], mixed);
      RepliedStep(world, s, calls, mixed, next, HandleAll(world, s, calls, mixed), first, rest);
      replies := [first] + rest;
    }
  }

  predicate AsksToFinish(calls: seq<Call>) {
    exists c :: c in calls && c.name == "finish_review"
  }

  lemma FinishIsNamed(calls: seq<Call>)
    ensures HasFinish(calls) <==> AsksToFinish(calls)
  {
    if HasFinish(calls) {
      var k :| 0 <= k < |calls| && calls[k].name == FINISH;
      assert calls[k] in calls;
    }
  }

  /** A turn with calls after which the review goes on adds the assistant message, one reply per call, and in the last
      four turns before the final one a reminder, unless a report was tried. */
  lemma TurnAddsReplies(world: World, limits: Limits, turn: nat, s: State, content: Option<string>, calls: seq<Call>)
    returns (replies: seq<Message>)
    requires limits.Valid() && Turn(world, limits, turn, s).Continue? && calls != []
    requires Complete(world, s.messages, s.requests, limits.maxAttempts).outcome == Received(Answer(content, calls))
    ensures var t, left := Turn(world, limits, turn, s).s, limits.maxTurns - turn;
            && |calls| <= limits.maxCalls
            && RepliesMatch(world, s.toolCalls, calls, AsksToFinish(calls) && |calls| > 1, replies)
            && t.messages == s.messages + [Assistant(content, calls)] + replies
                             + (if 1 <= left <= 4 && !AsksToFinish(calls) then [Told(TurnsLeft(left))] else [])
            && t.errors == s.errors + Rejections(calls, replies)
            && t.toolBytes == s.toolBytes + BytesReturned(world, s.toolCalls, calls)
  {
    var a := Complete(world, s.messages, s.requests, limits.maxAttempts);
    var told := s.(requests := a.requests, responses := s.responses + 1,
                   messages := s.messages + [Assistant(content, calls)]);
    FinishIsNamed(calls);
    replies := CallsAreReplied(world, told, calls, Mixed(calls));
  }

  /** A response that is no tool call is recorded as a protocol error and corrected. */
  lemma TurnCorrects(world: World, limits: Limits, turn: nat, s: State)
    requires limits.Valid()
    ensures var outcome := Complete(world, s.messages, s.requests, limits.maxAttempts).outcome;
            var t := Turn(world, limits, turn, s);
            match outcome
            case Received(Unusable(e)) =>
              && t.Continue? && t.s.messages == s.messages + [Told(MalformedResponse)]
              && t.s.errors == s.errors + [ProtocolError("<assistant>", e)]
            case Received(Answer(content, calls)) =>
              && (|calls| > limits.maxCalls <==> t == Stop(TooManyCalls, t.s))
              && (calls == [] ==>
                    && t.Continue? && t.s.messages == s.messages + [Assistant(content, []), Told(NoToolCall)]
                    && t.s.errors == s.errors + [ProtocolError("<assistant>", "no_tool_call")])
            case _ => t == Stop(ModelFailed(outcome), t.s) && t.s.messages == s.messages
  {
  }

  // ----- the recorded requests are the ones asked

  /** The broker and the objections are the same; only the model may differ. */
  ghost predicate SameTools(w: World, v: World) {
    w.broker == v.broker && w.objection == v.objection
  }

  /** The two models give the same answers to these requests, the first of which has the number `first`. */
  ghost predicate SameAnswers(w: World, v: World, first: nat, requests: seq<seq<Message>>) {
    forall k: nat | k < |requests| :: w.client(first + k, requests[k]) == v.client(first + k, requests[k])
  }

  lemma {:induction false} SameCompletion(w: World, v: World, messages: seq<Message>, requests: nat, tries: nat)
    requires tries > 0
    requires forall k | requests <= k < Complete(w, messages, requests, tries).requests ::
               w.client(k, messages) == v.client(k, messages)
    ensures Complete(w, messages, requests, tries) == Complete(v, messages, requests, tries)
    decreases tries
  {
    assert w.client(requests, messages) == v.client(requests, messages);
    if w.client(requests, messages).Transient? && tries > 1 {
      SameCompletion(w, v, messages, requests + 1, tries - 1);
    }
  }

  lemma {:induction false} SameHandling(w: World, v: World, s: State, calls: seq<Call>, mixed: bool)
    requires SameTools(w, v)
    ensures HandleAll(w, s, calls, mixed) == HandleAll(v, s, calls, mixed)
    decreases |calls|
  {
    if calls != [] {
      assert Handle(w, s, calls[0], mixed) == Handle(v, s, calls[0], mixed);
      SameHandling(w, v, Handle(w, s, calls[0], mixed), calls[1..], mixed);
    }
  }

  lemma SameTurn(w: World, v: World, limits: Limits, turn: nat, s: State)
    requires limits.Valid() && SameTools(w, v)
    requires Complete(w, s.messages, s.requests, limits.maxAttempts) ==
             Complete(v, s.messages, s.requests, limits.maxAttempts)
    ensures Turn(w, limits, turn, s) == Turn(v, limits, turn, s)
  {
    var a := Complete(w, s.messages, s.requests, limits.maxAttempts);
    if a.outcome.Received? && a.outcome.response.Answer? {
      var response := a.outcome.response;
      var told := s.(requests := a.requests, responses := s.responses + 1,
                     messages := s.messages + [Assistant(response.content, response.calls)]);
      SameHandling(w, v, told, response.calls, Mixed(response.calls));
    }
  }

  lemma FirstAnswers(w: World, v: World, messages: seq<Message>, first: nat, n: nat, all: seq<seq<Message>>)
    requires n <= |all| && SameAnswers(w, v, first, all) && forall k: nat | k < n :: all[k] == messages
    ensures forall k | first <= k < first + n :: w.client(k, messages) == v.client(k, messages)
    ensures SameAnswers(w, v, first + n, all[n..])
  {
    forall k | first <= k < first + n
      ensures w.client(k, messages) == v.client(k, messages)
    {
      assert all[k - first] == messages;
    }
    forall k: nat | k < |all[n..]|
      ensures w.client(first + n + k, all[n..][k]) == v.client(first + n + k, all[n..][k])
    {
      assert all[n..][k] == all[n + k];
    }
  }

  lemma SameFirstTurn(w: World, v: World, limits: Limits, turn: nat, s: State)
    requires limits.Valid() && SameTools(w, v) && turn <= limits.maxTurns
    requires SameAnswers(w, v, s.requests, Requests(w, limits, turn, s))
    ensures Turn(w, limits, turn, s) == Turn(v, limits, turn, s)
    ensures RequestsIn(w, limits, s) == RequestsIn(v, limits, s)
  {
    RequestsOfTurn(w, limits, turn, s);
    FirstAnswers(w, v, s.messages, s.requests, RequestsIn(w, limits, s), Requests(w, limits, turn, s));
    SameCompletion(w, v, s.messages, s.requests, limits.maxAttempts);
    SameTurn(w, v, limits, turn, s);
  }

  lemma SameAnswersAfterwards(w: World, v: World, limits: Limits, turn: nat, s: State)
    requires limits.Valid() && turn <= limits.maxTurns && Turn(w, limits, turn, s).Continue?
    requires SameAnswers(w, v, s.requests, Requests(w, limits, turn, s))
    ensures var next := Turn(w, limits, turn, s).s;
            SameAnswers(w, v, next.requests, Requests(w, limits, turn + 1, next))
  {
    RequestsOfTurn(w, limits, turn, s);
    RequestsOfRest(w, limits, turn, s);
    FirstAnswers(w, v, s.messages, s.requests, RequestsIn(w, limits, s), Requests(w, limits, turn, s));
  }

  /** A review depends on the model only through its answers to the recorded requests: with another model that answers
      these the same, in the same order, the review takes the same course. So these lists, whole, are what was asked. */
  lemma {:induction false} RequestsAreAsked(w: World, v: World, limits: Limits, turn: nat, s: State)
    requires limits.Valid() && SameTools(w, v) && SameAnswers(w, v, s.requests, Requests(w, limits, turn, s))
    ensures Run(w, limits, turn, s) == Run(v, limits, turn, s)
    ensures Requests(w, limits, turn, s) == Requests(v, limits, turn, s)
    decreases limits.maxTurns + 1 - turn
  {
    if turn <= limits.maxTurns {
      SameFirstTurn(w, v, limits, turn, s);
      if Turn(w, limits, turn, s).Continue? {
        SameAnswersAfterwards(w, v, limits, turn, s);
        RequestsAreAsked(w, v, limits, turn + 1, Turn(w, limits, turn, s).s);
      }
    }
  }

  // ----- bounds and counters

  lemma {:induction false} HandleAllCounts(world: World, s: State, calls: seq<Call>, mixed: bool)
    ensures var t := HandleAll(world, s, calls, mixed);
            && t.requests == s.requests && t.responses == s.responses && t.toolCalls == s.toolCalls + |calls|
            && t.corrections - s.corrections == |t.errors| - |s.errors|
    decreases |calls|
  {
    if calls != [] {
      HandleAllCounts(world, Handle(world, s, calls[0], mixed), calls[1..], mixed);
    }
  }

  lemma TurnCounts(world: World, limits: Limits, turn: nat, s: State)
    requires limits.Valid()
    ensures var t := Turn(world, limits, turn, s).s;
            && s.requests < t.requests <= s.requests + limits.maxAttempts
            && t.requests == Complete(world, s.messages, s.requests, limits.maxAttempts).requests
            && t.corrections - s.corrections == |t.errors| - |s.errors|
            && (Turn(world, limits, turn, s).Continue? ==> t.responses == s.responses + 1)
            && s.responses <= t.responses <= s.responses + 1
  {
    var a := Complete(world, s.messages, s.requests, limits.maxAttempts);
    if a.outcome.Received? && a.outcome.response.Answer? {
      var response := a.outcome.response;
      var told := s.(requests := a.requests, responses := s.responses + 1,
                     messages := s.messages + [Assistant(response.content, response.calls)]);
      HandleAllCounts(world, told, response.calls, Mixed(response.calls));
    }
  }

  /** No more than `maxTurns * maxAttempts` requests are made, and every one is counted; the corrections counted are the
      protocol errors recorded; the turn limit is reported only after that many responses. */
  lemma {:induction false} RunIsBounded(world: World, limits: Limits, turn: nat, s: State)
    requires limits.Valid() && turn <= limits.maxTurns + 1
    ensures var end := Run(world, limits, turn, s);
            && end.final.requests == s.requests + |Requests(world, limits, turn, s)|
            && |Requests(world, limits, turn, s)| <= (limits.maxTurns + 1 - turn) * limits.maxAttempts
            && end.final.corrections - s.corrections == |end.final.errors| - |s.errors|
            && end.final.responses <= s.responses + (limits.maxTurns + 1 - turn)
            && (end.verdict.TooManyTurns? ==> end.final.responses == s.responses + (limits.maxTurns + 1 - turn))
    decreases limits.maxTurns + 1 - turn
  {
    if turn <= limits.maxTurns {
      TurnCounts(world, limits, turn, s);
      var left := limits.maxTurns - turn;
      assert (left + 1) * limits.maxAttempts == left * limits.maxAttempts + limits.maxAttempts;
      if Turn(world, limits, turn, s).Continue? {
        RunIsBounded(world, limits, turn + 1, Turn(world, limits, turn, s).s);
      } else {
        assert left * limits.maxAttempts >= 0;
      }
    }
  }

  // ----- the report

  /** A message that would have ended the review. */
  predicate Conclusive(world: World, m: Message) {
    && m.Assistant? && |m.calls| == 1 && m.calls[0].name == "finish_review"
    && world.objection(m.calls[0].arguments).None?
  }

  ghost predicate Inconclusive(world: World, messages: seq<Message>) {
    forall i | 0 <= i < |messages| :: !Conclusive(world, messages[i])
  }

  lemma {:induction false} HandleAllAddsReplies(world: World, s: State, calls: seq<Call>, mixed: bool)
    requires Inconclusive(world, s.messages)
    ensures Inconclusive(world, HandleAll(world, s, calls, mixed).messages)
    decreases |calls|
  {
    if calls != [] {
      HandleAllAddsReplies(world, Handle(world, s, calls[0], mixed), calls[1..], mixed);
    }
  }

  /** After a turn the review goes on only if the turn held no acceptable report; if it ends with a report, the last
      message is the sole call that carries it. */
  lemma TurnConcludes(world: World, limits: Limits, turn: nat, s: State)
    requires limits.Valid() && Inconclusive(world, s.messages)
    ensures var t := Turn(world, limits, turn, s);
            && (t.Continue? ==> Inconclusive(world, t.s.messages))
            && (t.Stop? && t.verdict.Report? ==>
                  && |t.s.messages| == |s.messages| + 1 && t.s.messages[..|s.messages|] == s.messages
                  && Conclusive(world, t.s.messages[|s.messages|])
                  && t.s.messages[|s.messages|].calls[0].arguments == t.verdict.arguments)
  {
    var a := Complete(world, s.messages, s.requests, limits.maxAttempts);
    if a.outcome.Received? && a.outcome.response.Answer? && !Concludes(world, a.outcome.response.calls) {
      var response := a.outcome.response;
      var told := s.(requests := a.requests, responses := s.responses + 1,
                     messages := s.messages + [Assistant(response.content, response.calls)]);
      HandleAllAddsReplies(world, told, response.calls, Mixed(response.calls));
    }
  }

  /** A review returns a report exactly when some turn holds nothing but a `finish_review` call with a report nobody
      objects to, and then it returns that report at that turn: the transcript ends with it and holds no earlier one. */
  lemma {:induction false} ReportIsFirstAcceptable(world: World, limits: Limits, turn: nat, s: State)
    requires limits.Valid() && Inconclusive(world, s.messages)
    ensures var end := Run(world, limits, turn, s);
            var last := |end.final.messages| - 1;
            if end.verdict.Report? then
              && last >= 0 && Conclusive(world, end.final.messages[last])
              && end.final.messages[last].calls[0].arguments == end.verdict.arguments
              && world.objection(end.verdict.arguments).None?
              && Inconclusive(world, end.final.messages[..last])
            else Inconclusive(world, end.final.messages)
    decreases limits.maxTurns + 1 - turn
  {
    if turn <= limits.maxTurns {
      TurnConcludes(world, limits, turn, s);
      if Turn(world, limits, turn, s).Continue? {
        ReportIsFirstAcceptable(world, limits, turn + 1, Turn(world, limits, turn, s).s);
      }
    }
  }

  // ----- corrections are visible to the model

  predicate IsCorrection(m: Message) {
    match m
    case Tool(_, reply) => reply.Rejected?
    case Told(notice) => !notice.TurnsLeft?
    case _ => false
  }

  function CorrectionsIn(messages: seq<Message>): nat {
    if messages == [] then 0
    else CorrectionsIn(messages[..|messages| - 1]) + if IsCorrection(messages[|messages| - 1]) then 1 else 0
  }

  lemma CorrectionsStep(messages: seq<Message>, m: Message)
    ensures CorrectionsIn(messages + [m]) == CorrectionsIn(messages) + if IsCorrection(m) then 1 else 0
  {
    assert (messages + [m])[..|messages|] == messages;
  }

  lemma {:induction false} HandleAllCorrections(world: World, s: State, calls: seq<Call>, mixed: bool)
    requires CorrectionsIn(s.messages) == |s.errors|
    ensures var t := HandleAll(world, s, calls, mixed); CorrectionsIn(t.messages) == |t.errors|
    decreases |calls|
  {
    if calls != [] {
      var next := Handle(world, s, calls[0], mixed);
      assert next.messages == s.messages + [next.messages[|s.messages|]];
      CorrectionsStep(s.messages, next.messages[|s.messages|]);
      HandleAllCorrections(world, next, calls[1..], mixed);
    }
  }

  lemma TurnCorrections(world: World, limits: Limits, turn: nat, s: State)
    requires limits.Valid() && CorrectionsIn(s.messages) == |s.errors|
    ensures var t := Turn(world, limits, turn, s).s; CorrectionsIn(t.messages) == |t.errors|
  {
    var a := Complete(world, s.messages, s.requests, limits.maxAttempts);
    if a.outcome.Received? {
      if a.outcome.response.Unusable? {
        CorrectionsStep(s.messages, Told(MalformedResponse));
      } else {
        CallCorrections(world, limits, turn, s.(requests := a.requests, responses := s.responses + 1),
                        a.outcome.response.content, a.outcome.response.calls);
      }
    }
  }

  lemma CallCorrections(world: World, limits: Limits, turn: nat, s: State, content: Option<string>, calls: seq<Call>)
    requires CorrectionsIn(s.messages) == |s.errors|
    ensures var t := TakeCalls(world, limits, turn, s, content, calls).s; CorrectionsIn(t.messages) == |t.errors|
    ensures CorrectionsIn(s.messages + [Assistant(content, calls), Told(NoToolCall)]) == |s.errors| + 1
  {
    var told := s.(messages := s.messages + [Assistant(content, calls)]);
    CorrectionsStep(s.messages, Assistant(content, calls));
    CorrectionsStep(told.messages, Told(NoToolCall));
    assert s.messages + [Assistant(content, calls), Told(NoToolCall)] == told.messages + [Told(NoToolCall)];
    HandleAllCorrections(world, told, calls, Mixed(calls));
    var handled := HandleAll(world, told, calls, Mixed(calls));
    if Reminder(limits, turn, calls) == [] {
      assert handled.messages + [] == handled.messages;
    } else {
      CorrectionsStep(handled.messages, Told(TurnsLeft(limits.maxTurns - turn)));
    }
  }

  /** Every protocol error is told to the model once: the transcript holds as many corrections as errors are recorded.
      */
  lemma {:induction false} ErrorsAreTold(world: World, limits: Limits, turn: nat, s: State)
    requires limits.Valid() && CorrectionsIn(s.messages) == |s.errors| == s.corrections && turn <= limits.maxTurns + 1
    ensures var end := Run(world, limits, turn, s).final;
            CorrectionsIn(end.messages) == |end.errors| == end.corrections
    decreases limits.maxTurns + 1 - turn
  {
    if turn <= limits.maxTurns {
      TurnCorrections(world, limits, turn, s);
      TurnCounts(world, limits, turn, s);
      if Turn(world, limits, turn, s).Continue? {
        ErrorsAreTold(world, limits, turn + 1, Turn(world, limits, turn, s).s);
      }
    }
  }

  /** The initial messages are prompts, so all of the above holds of every review. */
  lemma {:induction false} PromptsAreReady(world: World, prompts: seq<Message>)
    requires forall i | 0 <= i < |prompts| :: prompts[i].Prompt?
    ensures Paired(prompts) && Inconclusive(world, prompts) && CorrectionsIn(prompts) == 0
  {
    if prompts != [] {
      PromptsAreReady(world, prompts[..|prompts| - 1]);
    }
  }

  /** Every review, from its prompts to its end: paired requests, bounded in number, every error counted and told, and a
      report only if the last message is the sole call that carries it and nobody objects to it. */
  lemma EveryReview(world: World, limits: Limits, prompts: seq<Message>)
    requires limits.Valid() && forall i | 0 <= i < |prompts| :: prompts[i].Prompt?
    ensures var (requests, end) := (Requests(world, limits, 1, Start(prompts)), Run(world, limits, 1, Start(prompts)));
            && (forall k | 0 <= k < |requests| :: Paired(requests[k]))
            && end.final.requests == |requests| <= limits.maxTurns * limits.maxAttempts
            && end.final.corrections == |end.final.errors| == CorrectionsIn(end.final.messages)
            && (end.verdict.Report? ==>
                  && world.objection(end.verdict.arguments).None?
                  && end.final.messages != [] && Conclusive(world, end.final.messages[|end.final.messages| - 1])
                  && end.final.messages[|end.final.messages| - 1].calls[0].arguments == end.verdict.arguments)
  {
    PromptsAreReady(world, prompts);
    forall k: nat | k < |Requests(world, limits, 1, Start(prompts))|
      ensures Paired(Requests(world, limits, 1, Start(prompts))[k])
    {
      RequestsArePaired(world, limits, 1, Start(prompts), k);
    }
    RunIsBounded(world, limits, 1, Start(prompts));
    ErrorsAreTold(world, limits, 1, Start(prompts));
    ReportIsFirstAcceptable(world, limits, 1, Start(prompts));
  }
}
