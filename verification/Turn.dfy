/**
 The agent's turn loop: call the provider, dispatch the tools it asks for, feed the results
 back, until a final answer or a limit. Cancellation, deadline, provider streams and tool
 outcomes are arbitrary inputs, one per iteration or call.
 */
module Turn {
  import opened Basics
  import opened Messages
  import opened Stream

  datatype TurnEvent =
    | ModelResponse(text: string, calls: seq<ToolCall>, usage: Option<Usage>)
    | CallEvent(id: string, name: string, arguments: string)
    | ResultEvent(callId: string, output: Json, error: Option<string>)

  datatype Config = Config(maxIterations: nat, toolBudget: nat)

  datatype ToolOutcome = Success(output: Json) | Failure(error: string)

  /** Everything outside: the argument parser, the allowlist, schema validation, and what the
      n-th dispatched tool answers. */
  datatype World = World(parse: string -> Json, allowed: set<string>, valid: (string, Json) -> bool,
                         run: (string, Json, nat) -> ToolOutcome)

  /** One iteration's inputs: whether cancellation or the deadline is seen first, the stream, and
      the stream item at which cancellation is seen. */
  datatype Round = Round(cancelled: bool, expired: bool, items: seq<Item>, cancelAt: nat)

  datatype Outcome =
    | TurnEnded(text: string, stop: StopReason, cancelled: bool, timedOut: bool)
    | BudgetExceeded
    | ProviderError(message: string)

  // ----- tool dispatch -----

  class ToolBudget {
    const maxCalls: nat
    var callsMade: nat

    constructor (max: nat)
      ensures maxCalls == max && callsMade == 0
    {
      maxCalls := max;
      callsMade := 0;
    }

    method Consume() returns (ok: bool)
      modifies this
      ensures ok == (old(callsMade) < maxCalls)
      ensures callsMade == if ok then old(callsMade) + 1 else old(callsMade)
    {
      if callsMade >= maxCalls {
        return false;
      }
      callsMade := callsMade + 1;
      return true;
    }
  }

  ghost predicate Dispatchable(w: World, name: string, args: Json)
  {
    name in w.allowed && w.valid(name, args)
  }

  /** What a call answers when `made` calls of `max` have been charged before it. */
  function Answer(w: World, name: string, args: Json, made: nat, max: nat): ToolOutcome
  {
    if name !in w.allowed then Failure("tool is not on the allowlist")
    else if !w.valid(name, args) then Failure("schema validation failed")
    else if made >= max then Failure("tool call budget exceeded")
    else w.run(name, args, made)
  }

  /** Allowlist, then schema, then budget, then the tool itself: a call is charged only when it
      is actually dispatched. */
  method Call(w: World, name: string, args: Json, budget: ToolBudget) returns (r: ToolOutcome)
    modifies budget
    ensures r == Answer(w, name, args, old(budget.callsMade), budget.maxCalls)
    ensures budget.callsMade == old(budget.callsMade) + (if Dispatchable(w, name, args) && old(budget.callsMade) < budget.maxCalls then 1 else 0)
    ensures budget.callsMade > old(budget.callsMade) ==> r == w.run(name, args, old(budget.callsMade))
    ensures budget.callsMade == old(budget.callsMade) ==> r.Failure?
    // a refusal names the first check that failed
    ensures name !in w.allowed ==> r == Failure("tool is not on the allowlist")
    ensures name in w.allowed && !w.valid(name, args) ==> r == Failure("schema validation failed")
    ensures Dispatchable(w, name, args) && old(budget.callsMade) >= budget.maxCalls ==> r == Failure("tool call budget exceeded")
  {
    if name !in w.allowed {
      return Failure("tool is not on the allowlist");
    }
    if !w.valid(name, args) {
      return Failure("schema validation failed");
    }
    var ok := budget.Consume();
    if !ok {
      return Failure("tool call budget exceeded");
    }
    r := w.run(name, args, budget.callsMade - 1);
  }

  /** Calls charged after a batch: those the registry can dispatch, up to the budget. */
  ghost function Charged(w: World, calls: seq<ToolCall>, made: nat, max: nat): (n: nat)
    requires made <= max
    ensures made <= n <= max && n <= made + |calls|
  {
    if calls == [] then made
    else
      var c, m := calls[|calls| - 1], Charged(w, calls[..|calls| - 1], made, max);
      if Dispatchable(w, c.name, w.parse(c.arguments)) && m < max then m + 1 else m
  }

  /** The result part of a call: the tool's output, or no output and the error. */
  function ResultPart(c: ToolCall, r: ToolOutcome): Part
  {
    if r.Success? then CallResult(c.id, r.output, None) else CallResult(c.id, Null, Some(r.error))
  }

  // ----- messages -----

  function Ids(calls: seq<ToolCall>): (r: seq<string>)
    ensures |r| == |calls| && forall i :: 0 <= i < |r| ==> r[i] == calls[i].id
  {
    seq(|calls|, i requires 0 <= i < |calls| => calls[i].id)
  }

  function RequestIds(parts: seq<Part>): seq<string>
  {
    if parts == [] then []
    else RequestIds(parts[..|parts| - 1]) + if parts[|parts| - 1].CallRequest? then [parts[|parts| - 1].id] else []
  }

  function ResultIds(parts: seq<Part>): seq<string>
  {
    if parts == [] then []
    else ResultIds(parts[..|parts| - 1]) + if parts[|parts| - 1].CallResult? then [parts[|parts| - 1].callId] else []
  }

  /** An assistant message with requests, answered by one tool message whose results match the
      requests one for one, in order. */
  ghost predicate Paired(a: Message, t: Message)
  {
    && a.role == Assistant && t.role == Tool
    && RequestIds(a.parts) != [] && RequestIds(a.parts) == ResultIds(t.parts) && NoDuplicates(RequestIds(a.parts))
    && |t.parts| == |ResultIds(t.parts)|
  }

  ghost predicate PairedRounds(ms: seq<Message>)
  {
    |ms| % 2 == 0 && forall i :: 0 <= i < |ms| && i % 2 == 0 ==> Paired(ms[i], ms[i + 1])
  }

  lemma AddRound(ms: seq<Message>, a: Message, t: Message)
    requires PairedRounds(ms) && Paired(a, t)
    ensures PairedRounds(ms + [a, t])
  {
    var all := ms + [a, t];
    forall i | 0 <= i < |all| && i % 2 == 0 ensures Paired(all[i], all[i + 1]) {
      if i < |ms| {
        assert i + 1 < |ms|;
      }
    }
  }

  // ----- one tool round -----

  function RequestParts(w: World, calls: seq<ToolCall>): (r: seq<Part>)
    ensures |r| == |calls|
    ensures forall i :: 0 <= i < |r| ==> r[i] == CallRequest(calls[i].id, calls[i].name, w.parse(calls[i].arguments))
  {
    seq(|calls|, i requires 0 <= i < |calls| => CallRequest(calls[i].id, calls[i].name, w.parse(calls[i].arguments)))
  }

  /** The assistant's side: its text, if any, then one request per call. */
  function Asked(w: World, out: Output): Message
  {
    Message(Assistant, (if out.text != "" then [Text(out.text)] else []) + RequestParts(w, out.toolCalls))
  }

  /** The result part of the i-th call of a batch, under what the calls before it have charged. */
  ghost function ResultAt(w: World, calls: seq<ToolCall>, made: nat, max: nat, i: nat): Part
    requires made <= max && i < |calls|
  {
    ResultPart(calls[i], Answer(w, calls[i].name, w.parse(calls[i].arguments), Charged(w, calls[..i], made, max), max))
  }

  /** The tools' side: one result per call, in order. */
  ghost function Answered(w: World, calls: seq<ToolCall>, made: nat, max: nat): (m: Message)
    requires made <= max
    ensures |m.parts| == |calls| && forall i :: 0 <= i < |calls| ==> m.parts[i] == ResultAt(w, calls, made, max, i)
  {
    Message(Tool, seq(|calls|, i requires 0 <= i < |calls| => ResultAt(w, calls, made, max, i)))
  }

  /** The transcript of a batch: each call followed by the result it got. */
  ghost function ToolEvents(calls: seq<ToolCall>, parts: seq<Part>): (log: seq<TurnEvent>)
    requires |calls| == |parts| && forall i :: 0 <= i < |parts| ==> parts[i].CallResult?
  {
    if calls == [] then []
    else
      var n := |calls| - 1;
      ToolEvents(calls[..n], parts[..n]) + EventPair(calls[n], parts[n])
  }

  function EventPair(c: ToolCall, p: Part): seq<TurnEvent>
    requires p.CallResult?
  {
    [CallEvent(c.id, c.name, c.arguments), ResultEvent(c.id, p.output, p.error)]
  }

  lemma EventsMore(calls: seq<ToolCall>, parts: seq<Part>, i: nat, p: Part)
    requires i < |calls| && |parts| == i && (forall k :: 0 <= k < i ==> parts[k].CallResult?) && p.CallResult?
    ensures ToolEvents(calls[..i + 1], parts + [p]) == ToolEvents(calls[..i], parts) + EventPair(calls[i], p)
  {
    assert calls[..i + 1][..i] == calls[..i] && (parts + [p])[..i] == parts;
  }

  /** The assistant message of a tool round. */
  method AssistantMessage(w: World, out: Output) returns (m: Message)
    ensures m == Asked(w, out) && RequestIds(m.parts) == Ids(out.toolCalls)
  {
    hide RequestIds;
    var parts: seq<Part> := [];
    if out.text != "" {
      parts := [Text(out.text)];
    }
    ghost var front := parts;
    var calls := out.toolCalls;
    for i := 0 to |calls|
      invariant parts == front + RequestParts(w, calls)[..i]
    {
      parts := parts + [CallRequest(calls[i].id, calls[i].name, w.parse(calls[i].arguments))];
    }
    AskedIds(w, out);
    m := Message(Assistant, parts);
  }

  /** Runs the calls in order; a failed call still gets its result part. */
  method ExecuteTools(w: World, calls: seq<ToolCall>, budget: ToolBudget) returns (m: Message, log: seq<TurnEvent>)
    requires budget.callsMade <= budget.maxCalls
    modifies budget
    ensures budget.callsMade == Charged(w, calls, old(budget.callsMade), budget.maxCalls)
    ensures m == Answered(w, calls, old(budget.callsMade), budget.maxCalls)
    ensures log == ToolEvents(calls, m.parts)
  {
    hide Answer, Dispatchable, Charged, ToolEvents, EventPair;
    log := [];
    var parts: seq<Part> := [];
    ghost var made0 := budget.callsMade;
    NoEvents(calls);
    ChargedStep(w, calls, 0, made0, budget.maxCalls);
    for i := 0 to |calls|
      invariant budget.callsMade == Charged(w, calls[..i], made0, budget.maxCalls)
      invariant |parts| == i && forall k :: 0 <= k < i ==> parts[k] == ResultAt(w, calls, made0, budget.maxCalls, k)
      invariant log == ToolEvents(calls[..i], parts)
    {
      var c := calls[i];
      ChargedStep(w, calls, i, made0, budget.maxCalls);
      var r := Call(w, c.name, w.parse(c.arguments), budget);
      var p := ResultPart(c, r);
      EventsMore(calls, parts, i, p);
      log := log + EventPair(c, p);
      parts := parts + [p];
    }
    assert calls[..|calls|] == calls;
    m := Message(Tool, parts);
  }

  lemma NoEvents(calls: seq<ToolCall>)
    ensures ToolEvents(calls[..0], []) == []
  {
  }

  lemma ChargedStep(w: World, calls: seq<ToolCall>, i: nat, made: nat, max: nat)
    requires made <= max && i <= |calls|
    ensures Charged(w, calls[..0], made, max) == made
    ensures i < |calls| ==>
      var m := Charged(w, calls[..i], made, max);
      Charged(w, calls[..i + 1], made, max) ==
      if Dispatchable(w, calls[i].name, w.parse(calls[i].arguments)) && m < max then m + 1 else m
  {
    if i < |calls| {
      assert calls[..i + 1][..i] == calls[..i];
    }
  }

  /** One tool round: the two messages and the transcript events it adds. */
  method ToolRound(w: World, out: Output, budget: ToolBudget) returns (a: Message, t: Message, log: seq<TurnEvent>)
    requires budget.callsMade <= budget.maxCalls
    modifies budget
    ensures budget.callsMade == Charged(w, out.toolCalls, old(budget.callsMade), budget.maxCalls)
    ensures a == Asked(w, out) && t == Answered(w, out.toolCalls, old(budget.callsMade), budget.maxCalls)
    ensures log == ToolEvents(out.toolCalls, t.parts)
    ensures out.toolCalls != [] && DistinctIds(out.toolCalls) ==> Paired(a, t)
  {
    hide Charged, Answer, Paired, Asked, Answered, ToolEvents;
    ghost var made := budget.callsMade;
    a := AssistantMessage(w, out);
    t, log := ExecuteTools(w, out.toolCalls, budget);
    RoundPairs(w, out, made, budget.maxCalls);
  }

  lemma RoundPairs(w: World, out: Output, made: nat, max: nat)
    requires made <= max
    ensures out.toolCalls != [] && DistinctIds(out.toolCalls) ==> Paired(Asked(w, out), Answered(w, out.toolCalls, made, max))
  {
    hide Charged, Answer, RequestIds, ResultIds;
    AskedIds(w, out);
    AnsweredIds(out.toolCalls, Answered(w, out.toolCalls, made, max).parts);
  }

  lemma AskedIds(w: World, out: Output)
    ensures RequestIds(Asked(w, out).parts) == Ids(out.toolCalls)
  {
    hide RequestIds;
    var front: seq<Part> := if out.text != "" then [Text(out.text)] else [];
    var requests := RequestParts(w, out.toolCalls);
    TextHasNoIds(out.text);
    RequestIdsOf(w, front, out.toolCalls, |out.toolCalls|);
    assert requests[..|requests|] == requests && Ids(out.toolCalls)[..|requests|] == Ids(out.toolCalls);
  }

  lemma TextHasNoIds(text: string)
    ensures RequestIds([]) == [] && RequestIds([Text(text)]) == []
  {
    assert [Text(text)][..0] == [];
  }

  lemma RequestIdsMore(parts: seq<Part>, p: Part)
    ensures RequestIds(parts + [p]) == RequestIds(parts) + if p.CallRequest? then [p.id] else []
  {
    assert (parts + [p])[..|parts|] == parts;
  }

  lemma {:induction false} RequestIdsOf(w: World, front: seq<Part>, calls: seq<ToolCall>, n: nat)
    requires RequestIds(front) == [] && n <= |calls|
    ensures RequestIds(front + RequestParts(w, calls)[..n]) == Ids(calls)[..n]
  {
    hide RequestIds;
    var requests := RequestParts(w, calls);
    if n == 0 {
      assert front + requests[..0] == front;
    } else {
      RequestIdsOf(w, front, calls, n - 1);
      RequestIdsMore(front + requests[..n - 1], requests[n - 1]);
      assert front + requests[..n] == front + requests[..n - 1] + [requests[n - 1]];
    }
  }

  lemma {:induction false} AnsweredIds(calls: seq<ToolCall>, parts: seq<Part>)
    requires |calls| == |parts| && forall i :: 0 <= i < |parts| ==> parts[i].CallResult? && parts[i].callId == calls[i].id
    ensures ResultIds(parts) == Ids(calls)
  {
    if calls != [] {
      var n := |calls| - 1;
      AnsweredIds(calls[..n], parts[..n]);
      assert Ids(calls) == Ids(calls[..n]) + [calls[n].id];
    }
  }

  // ----- the whole turn -----

  function Response(now: Round): Result
  {
    ResponseOf(now.items, now.cancelAt)
  }

  /** The pass asks the provider: nothing stops the turn before the call. */
  predicate Asks(config: Config, now: Round, n: nat)
  {
    !now.cancelled && !now.expired && n < config.maxIterations
  }

  /** The pass ends in a tool round, so the loop goes on. */
  predicate Continues(config: Config, now: Round, n: nat)
  {
    && Asks(config, now, n) && Response(now).Ok?
    && var out := Response(now).output;
       !out.cancelled && out.stop == WantsTool && out.toolCalls != []
  }

  /** The outcome of the pass that does not continue: cancellation wins over the deadline, which
      wins over the iteration limit, which wins over whatever the provider says. */
  function Verdict(config: Config, now: Round, n: nat): Outcome
  {
    if now.cancelled then TurnEnded("", Cancel, true, false)
    else if now.expired then TurnEnded("", Error, false, true)
    else if n >= config.maxIterations then BudgetExceeded
    else if Response(now).Err? then ProviderError(Response(now).message)
    else
      var out := Response(now).output;
      if out.cancelled then TurnEnded(out.text, Cancel, true, false) else TurnEnded(out.text, out.stop, false, false)
  }

  function CallsIn(now: Round): seq<ToolCall>
  {
    if Response(now).Ok? then Response(now).output.toolCalls else []
  }

  /** The response event of a provider call; a failed call leaves none. */
  function ResponseEvent(now: Round): seq<TurnEvent>
  {
    var r := Response(now);
    if r.Ok? then [ModelResponse(r.output.text, r.output.toolCalls, r.output.usage)] else []
  }

  /** Tool calls charged in the first `n` rounds. */
  ghost function Spent(w: World, config: Config, round: nat -> Round, n: nat): (s: nat)
    ensures s <= config.toolBudget
  {
    if n == 0 then 0 else Charged(w, CallsIn(round(n - 1)), Spent(w, config, round, n - 1), config.toolBudget)
  }

  /** The tools' side of the k-th round. */
  ghost function AnsweredAt(w: World, config: Config, round: nat -> Round, k: nat): (m: Message)
    ensures |m.parts| == |CallsIn(round(k))| && forall i :: 0 <= i < |m.parts| ==> m.parts[i].CallResult?
    ensures forall i :: 0 <= i < |m.parts| ==> m.parts[i].callId == CallsIn(round(k))[i].id
  {
    Answered(w, CallsIn(round(k)), Spent(w, config, round, k), config.toolBudget)
  }

  /** The messages of the first `n` rounds. */
  ghost function Conversation(w: World, config: Config, round: nat -> Round, n: nat): (ms: seq<Message>)
    ensures |ms| == 2 * n
  {
    if n == 0 then []
    else
      var r := Response(round(n - 1));
      Conversation(w, config, round, n - 1) +
      [if r.Ok? then Asked(w, r.output) else Message(Assistant, []), AnsweredAt(w, config, round, n - 1)]
  }

  /** The transcript of the first `n` rounds. */
  ghost function Transcript(w: World, config: Config, round: nat -> Round, n: nat): seq<TurnEvent>
  {
    if n == 0 then []
    else
      Transcript(w, config, round, n - 1) + ResponseEvent(round(n - 1)) +
      ToolEvents(CallsIn(round(n - 1)), AnsweredAt(w, config, round, n - 1).parts)
  }

  /** What one more round adds. */
  lemma RoundStep(w: World, config: Config, round: nat -> Round, n: nat)
    requires Response(round(n)).Ok?
    ensures var out, made, max := Response(round(n)).output, Spent(w, config, round, n), config.toolBudget;
            var t := Answered(w, out.toolCalls, made, max);
            && Spent(w, config, round, n + 1) == Charged(w, out.toolCalls, made, max)
            && Conversation(w, config, round, n + 1) == Conversation(w, config, round, n) + [Asked(w, out), t]
            && Transcript(w, config, round, n + 1) ==
                 Transcript(w, config, round, n) + [ModelResponse(out.text, out.toolCalls, out.usage)] + ToolEvents(out.toolCalls, t.parts)
  {
    hide ResponseOf, Asked, Answered, Charged, ToolEvents;
  }

  lemma NoRounds(w: World, config: Config, round: nat -> Round)
    ensures Spent(w, config, round, 0) == 0 && Conversation(w, config, round, 0) == [] && Transcript(w, config, round, 0) == []
    ensures UsageSum([]) == Usage(0, 0) && PairedRounds([])
  {
  }

  /** A user-visible turn. `round(i)` gives the inputs of the i-th pass of the loop; `passes` is
      the number of tool rounds. */
  method RunTurn(w: World, config: Config, messages0: seq<Message>, round: nat -> Round)
    returns (r: Outcome, messages: seq<Message>, transcript: seq<TurnEvent>, usage: Usage, iterations: nat, dispatched: nat, ghost passes: nat)
    // the loop goes on exactly while passes continue, and the first that does not decides
    ensures forall k :: 0 <= k < passes ==> Continues(config, round(k), k)
    ensures !Continues(config, round(passes), passes) && r == Verdict(config, round(passes), passes)
    ensures iterations == passes + if Asks(config, round(passes), passes) then 1 else 0
    ensures iterations <= config.maxIterations
    // conversation, transcript and budget are those of the rounds, and of the ending
    ensures messages == messages0 + Conversation(w, config, round, passes) +
      if r.TurnEnded? && !r.cancelled && r.text != "" then [Message(Assistant, [Text(r.text)])] else []
    ensures transcript == Transcript(w, config, round, passes) +
      if Asks(config, round(passes), passes) then ResponseEvent(round(passes)) else []
    ensures dispatched == Spent(w, config, round, passes) <= config.toolBudget
    ensures usage == UsageSum(transcript)
  {
    hide UsageSum, ResponseOf, Asked, Answered, Charged, ToolEvents, Paired, Spent, Conversation, Transcript;
    var budget := new ToolBudget(config.toolBudget);
    transcript, usage, iterations := [], Usage(0, 0), 0;
    messages, passes := messages0, 0;
    NoRounds(w, config, round);
    assert messages0 + [] == messages0;
    while true
      invariant fresh(budget) && budget.maxCalls == config.toolBudget && budget.callsMade == Spent(w, config, round, passes)
      invariant passes == iterations <= config.maxIterations
      invariant forall k :: 0 <= k < passes ==> Continues(config, round(k), k)
      invariant messages == messages0 + Conversation(w, config, round, passes)
      invariant transcript == Transcript(w, config, round, passes) && usage == UsageSum(transcript)
      decreases config.maxIterations - iterations
    {
      dispatched := budget.callsMade;
      var now := round(iterations);
      if now.cancelled {
        return TurnEnded("", Cancel, true, false), messages, transcript, usage, iterations, dispatched, passes;
      }
      if now.expired {
        return TurnEnded("", Error, false, true), messages, transcript, usage, iterations, dispatched, passes;
      }
      if iterations >= config.maxIterations {
        return BudgetExceeded, messages, transcript, usage, iterations, dispatched, passes;
      }
      iterations := iterations + 1;
      var agg := AggregateSync(now.items, now.cancelAt);
      if agg.Err? {
        return ProviderError(agg.message), messages, transcript, usage, iterations, dispatched, passes;
      }
      var out := agg.output;
      if out.usage.Some? {
        usage := Usage(usage.prompt + out.usage.value.prompt, usage.completion + out.usage.value.completion);
      }
      LogStep(transcript, ModelResponse(out.text, out.toolCalls, out.usage));
      transcript := transcript + [ModelResponse(out.text, out.toolCalls, out.usage)];
      if out.cancelled {
        return TurnEnded(out.text, Cancel, true, false), messages, transcript, usage, iterations, dispatched, passes;
      }
      if out.stop != WantsTool || out.toolCalls == [] {
        if out.text != "" {
          messages := messages + [Message(Assistant, [Text(out.text)])];
        }
        return TurnEnded(out.text, out.stop, false, false), messages, transcript, usage, iterations, dispatched, passes;
      }
      RoundStep(w, config, round, passes);
      var a, t, log := ToolRound(w, out, budget);
      ToolEventsCostNothing(transcript, out.toolCalls, t.parts);
      AppendTwo(messages0, Conversation(w, config, round, passes), a, t);
      messages := messages + [a] + [t];
      transcript := transcript + log;
      passes := passes + 1;
    }
  }

  lemma AppendTwo(ms: seq<Message>, added: seq<Message>, a: Message, t: Message)
    ensures ms + added + [a] + [t] == ms + (added + [a, t])
  {
  }

  // ----- what the specification means -----

  /** The assistant's message: a text part first if there is text, then one request per call, in
      order, with its name and parsed arguments. */
  lemma AskedMeans(w: World, out: Output)
    ensures var m, t := Asked(w, out), if out.text != "" then 1 else 0;
            && m.role == Assistant && |m.parts| == t + |out.toolCalls|
            && (out.text != "" ==> m.parts[0] == Text(out.text))
            && Requests(m.parts[t..], w, out.toolCalls)
  {
    hide Requests;
    RequestPartsMean(w, out.toolCalls);
    var m, t := Asked(w, out), if out.text != "" then 1 else 0;
    assert m.parts[t..] == RequestParts(w, out.toolCalls);
  }

  ghost predicate Requests(parts: seq<Part>, w: World, calls: seq<ToolCall>)
  {
    && |parts| == |calls|
    && forall i :: 0 <= i < |parts| ==>
         && parts[i].CallRequest? && parts[i].id == calls[i].id && parts[i].name == calls[i].name
         && parts[i].arguments == w.parse(calls[i].arguments)
  }

  lemma RequestPartsMean(w: World, calls: seq<ToolCall>)
    ensures Requests(RequestParts(w, calls), w, calls)
  {
  }

  /** A call that succeeds is answered with its output and no error, one that fails with its error
      and no output. */
  ghost predicate AnswersCall(p: Part, id: string, r: ToolOutcome)
  {
    && p.CallResult? && p.callId == id
    && (r.Success? ==> p.output == r.output && p.error == None)
    && (r.Failure? ==> p.output == Null && p.error == Some(r.error))
  }

  /** The i-th result answers the i-th call: with what its tool returned, if it was dispatched. */
  lemma AnsweredMeans(w: World, calls: seq<ToolCall>, made: nat, max: nat, i: nat)
    requires made <= max && i < |calls|
    ensures var c, m := calls[i], Answered(w, calls, made, max);
            var args, before := w.parse(c.arguments), Charged(w, calls[..i], made, max);
            && m.role == Tool && |m.parts| == |calls|
            && AnswersCall(m.parts[i], c.id, Answer(w, c.name, args, before, max))
            && (Dispatchable(w, c.name, args) && before < max ==> AnswersCall(m.parts[i], c.id, w.run(c.name, args, before)))
            && (!(Dispatchable(w, c.name, args) && before < max) ==> m.parts[i].error.Some?)
  {
    hide Charged;
    assert Answered(w, calls, made, max).parts[i] == ResultAt(w, calls, made, max, i);
  }

  lemma {:induction false} ConversationAt(w: World, config: Config, round: nat -> Round, n: nat, k: nat)
    requires k < n && Response(round(k)).Ok?
    ensures Conversation(w, config, round, n)[2 * k] == Asked(w, Response(round(k)).output)
    ensures Conversation(w, config, round, n)[2 * k + 1] == AnsweredAt(w, config, round, k)
  {
    hide Asked, Answered, AnsweredAt, ResponseOf;
    if k < n - 1 {
      ConversationAt(w, config, round, n - 1, k);
    }
  }

  /** In every turn, the i-th call of the k-th round is answered in that round's tool message, and
      what its tool returned is what the model is told. */
  lemma ToolsReachTheModel(w: World, config: Config, round: nat -> Round, n: nat, k: nat, i: nat)
    requires k < n && Continues(config, round(k), k) && i < |Response(round(k)).output.toolCalls|
    ensures var ms, calls, made, max := Conversation(w, config, round, n), Response(round(k)).output.toolCalls, Spent(w, config, round, k), config.toolBudget;
            var c, args, before := calls[i], w.parse(calls[i].arguments), Charged(w, calls[..i], made, max);
            && ms[2 * k] == Asked(w, Response(round(k)).output)
            && i < |ms[2 * k + 1].parts|
            && AnswersCall(ms[2 * k + 1].parts[i], c.id, Answer(w, c.name, args, before, max))
            && (Dispatchable(w, c.name, args) && before < max ==>
                  AnswersCall(ms[2 * k + 1].parts[i], c.id, w.run(c.name, args, before)))
  {
    hide Asked, Answered, Conversation, Charged, ResponseOf, AnswersCall, Spent, Answer;
    ConversationAt(w, config, round, n, k);
    AnsweredMeans(w, CallsIn(round(k)), Spent(w, config, round, k), config.toolBudget, i);
  }

  lemma {:induction false} ToolEventsAt(calls: seq<ToolCall>, parts: seq<Part>, i: nat)
    requires |calls| == |parts| && (forall k :: 0 <= k < |parts| ==> parts[k].CallResult?) && i < |calls|
    ensures var log := ToolEvents(calls, parts);
            && |log| == 2 * |calls|
            && log[2 * i] == CallEvent(calls[i].id, calls[i].name, calls[i].arguments)
            && log[2 * i + 1] == ResultEvent(calls[i].id, parts[i].output, parts[i].error)
  {
    var n := |calls| - 1;
    if i < n {
      ToolEventsAt(calls[..n], parts[..n], i);
    } else if n > 0 {
      ToolEventsAt(calls[..n], parts[..n], 0);
    }
  }

  lemma {:induction false} TranscriptPrefix(w: World, config: Config, round: nat -> Round, k: nat, n: nat)
    requires k <= n
    ensures Transcript(w, config, round, k) <= Transcript(w, config, round, n)
  {
    hide ToolEvents, ResponseOf, AnsweredAt;
    if k < n {
      TranscriptPrefix(w, config, round, k, n - 1);
    }
  }

  /** In every turn, the transcript has the k-th response, and then each of its calls followed by
      the result the model was told. */
  lemma TranscriptAt(w: World, config: Config, round: nat -> Round, n: nat, k: nat, i: nat)
    requires k < n && Response(round(k)).Ok? && i < |Response(round(k)).output.toolCalls|
    ensures var log, at, out := Transcript(w, config, round, n), |Transcript(w, config, round, k)|, Response(round(k)).output;
            var c, p := out.toolCalls[i], AnsweredAt(w, config, round, k).parts[i];
            && at + 2 * i + 2 < |log|
            && log[at] == ModelResponse(out.text, out.toolCalls, out.usage)
            && log[at + 1 + 2 * i] == CallEvent(c.id, c.name, c.arguments)
            && log[at + 2 + 2 * i] == ResultEvent(c.id, p.output, p.error)
  {
    hide ToolEvents, ResponseOf, Transcript, Conversation, Spent, Answered, Charged, Asked;
    TranscriptPrefix(w, config, round, k + 1, n);
    RoundStep(w, config, round, k);
    var calls, parts := CallsIn(round(k)), AnsweredAt(w, config, round, k).parts;
    ToolEventsAt(calls, parts, i);
    LookUp(Transcript(w, config, round, k), ResponseEvent(round(k))[0], ToolEvents(calls, parts), 2 * i);
    LookUp(Transcript(w, config, round, k), ResponseEvent(round(k))[0], ToolEvents(calls, parts), 2 * i + 1);
  }

  lemma LookUp(head: seq<TurnEvent>, e: TurnEvent, tail: seq<TurnEvent>, j: nat)
    requires j < |tail|
    ensures var log := head + [e] + tail; log[|head|] == e && log[|head| + 1 + j] == tail[j]
  {
  }

  /** When each outcome happens, and what it carries. */
  lemma VerdictIff(config: Config, now: Round, n: nat)
    requires !Continues(config, now, n)
    ensures var r, asks := Verdict(config, now, n), Asks(config, now, n);
            && (r.BudgetExceeded? <==> !now.cancelled && !now.expired && n >= config.maxIterations)
            && (r.ProviderError? <==> asks && Response(now).Err?)
            && (r.ProviderError? ==> r.message == Response(now).message)
            && (r.TurnEnded? ==>
                  && (r.timedOut <==> now.expired && !now.cancelled)
                  && (r.cancelled <==> now.cancelled || (asks && Response(now).output.cancelled))
                  && r.text == (if asks then Response(now).output.text else "")
                  && r.stop == if r.cancelled then Cancel else if r.timedOut then Error else Response(now).output.stop)
  {
  }

  /** In every turn the added rounds are well paired: each request is answered once, in order,
      before anything else is said. */
  lemma {:induction false} ConversationIsPaired(w: World, config: Config, round: nat -> Round, n: nat)
    requires forall k :: 0 <= k < n ==> Continues(config, round(k), k)
    ensures PairedRounds(Conversation(w, config, round, n))
  {
    hide Asked, Answered, Paired, PairedRounds, Conversation, Transcript, Spent, Charged, ResponseOf;
    NoRounds(w, config, round);
    if n > 0 {
      ConversationIsPaired(w, config, round, n - 1);
      RoundIsPaired(w, config, round, n - 1);
      RoundStep(w, config, round, n - 1);
      AddRound(Conversation(w, config, round, n - 1), Asked(w, Response(round(n - 1)).output), AnsweredAt(w, config, round, n - 1));
    }
  }

  lemma RoundIsPaired(w: World, config: Config, round: nat -> Round, k: nat)
    requires Continues(config, round(k), k)
    ensures Paired(Asked(w, Response(round(k)).output), AnsweredAt(w, config, round, k))
  {
    hide ResponseOf, Paired, Asked, Answered, Spent;
    ResponseCalls(round(k).items, round(k).cancelAt);
    RoundPairs(w, Response(round(k)).output, Spent(w, config, round, k), config.toolBudget);
  }

  /** The dispatched calls of a batch, in order: those that reach their tool. */
  ghost function Dispatches(w: World, calls: seq<ToolCall>, made: nat, max: nat): seq<ToolCall>
    requires made <= max
  {
    if calls == [] then []
    else
      var init, c := calls[..|calls| - 1], calls[|calls| - 1];
      Dispatches(w, init, made, max) +
      if Dispatchable(w, c.name, w.parse(c.arguments)) && Charged(w, init, made, max) < max then [c] else []
  }

  ghost function TurnDispatches(w: World, config: Config, round: nat -> Round, n: nat): seq<ToolCall>
  {
    if n == 0 then []
    else TurnDispatches(w, config, round, n - 1) + Dispatches(w, CallsIn(round(n - 1)), Spent(w, config, round, n - 1), config.toolBudget)
  }

  lemma {:induction false} ChargedCountsDispatches(w: World, calls: seq<ToolCall>, made: nat, max: nat)
    requires made <= max
    ensures Charged(w, calls, made, max) == made + |Dispatches(w, calls, made, max)|
  {
    if calls != [] {
      ChargedCountsDispatches(w, calls[..|calls| - 1], made, max);
    }
  }

  /** What is charged over a whole turn is the number of calls that reached a tool, so at most
      the budget of them do. */
  lemma {:induction false} SpentCountsDispatches(w: World, config: Config, round: nat -> Round, n: nat)
    ensures |TurnDispatches(w, config, round, n)| == Spent(w, config, round, n) <= config.toolBudget
  {
    hide Charged, Dispatches;
    if n > 0 {
      SpentCountsDispatches(w, config, round, n - 1);
      ChargedCountsDispatches(w, CallsIn(round(n - 1)), Spent(w, config, round, n - 1), config.toolBudget);
    }
  }

  function UsageSum(log: seq<TurnEvent>): Usage
  {
    if log == [] then Usage(0, 0)
    else
      var rest, e := UsageSum(log[..|log| - 1]), log[|log| - 1];
      if e.ModelResponse? && e.usage.Some?
      then Usage(rest.prompt + e.usage.value.prompt, rest.completion + e.usage.value.completion)
      else rest
  }

  lemma LogStep(log: seq<TurnEvent>, e: TurnEvent)
    ensures !(e.ModelResponse? && e.usage.Some?) ==> UsageSum(log + [e]) == UsageSum(log)
    ensures e.ModelResponse? && e.usage.Some? ==>
      UsageSum(log + [e]) == Usage(UsageSum(log).prompt + e.usage.value.prompt, UsageSum(log).completion + e.usage.value.completion)
  {
    assert (log + [e])[..|log|] == log;
  }

  /** Tool events carry no usage. */
  lemma {:induction false} ToolEventsCostNothing(log: seq<TurnEvent>, calls: seq<ToolCall>, parts: seq<Part>)
    requires |calls| == |parts| && forall i :: 0 <= i < |parts| ==> parts[i].CallResult?
    ensures UsageSum(log + ToolEvents(calls, parts)) == UsageSum(log)
    decreases |calls|
  {
    hide UsageSum;
    if calls == [] {
      assert log + ToolEvents(calls, parts) == log;
    } else {
      var n := |calls| - 1;
      var init, pair := log + ToolEvents(calls[..n], parts[..n]), EventPair(calls[n], parts[n]);
      ToolEventsCostNothing(log, calls[..n], parts[..n]);
      LogStep(init, pair[0]);
      LogStep(init + [pair[0]], pair[1]);
      assert log + ToolEvents(calls, parts) == init + [pair[0]] + [pair[1]];
    }
  }

  /** Usage reported by the provider in one response. */
  function Reported(now: Round): Usage
  {
    var r := Response(now);
    if r.Ok? && r.output.usage.Some? then r.output.usage.value else Usage(0, 0)
  }

  ghost function TotalReported(round: nat -> Round, n: nat): Usage
  {
    if n == 0 then Usage(0, 0)
    else
      var rest, u := TotalReported(round, n - 1), Reported(round(n - 1));
      Usage(rest.prompt + u.prompt, rest.completion + u.completion)
  }

  /** The usage of a turn is the sum over the provider calls it made, whatever the tools did. */
  lemma UsageIsReported(w: World, config: Config, round: nat -> Round, n: nat)
    ensures UsageSum(Transcript(w, config, round, n)) == TotalReported(round, n)
    ensures UsageSum(Transcript(w, config, round, n) + ResponseEvent(round(n))) == TotalReported(round, n + 1)
  {
    hide UsageSum, ToolEvents, ResponseOf;
    if n == 0 {
      NoRounds(w, config, round);
    } else {
      UsageIsReported(w, config, round, n - 1);
      ToolEventsCostNothing(Transcript(w, config, round, n - 1) + ResponseEvent(round(n - 1)), CallsIn(round(n - 1)), AnsweredAt(w, config, round, n - 1).parts);
    }
    if Response(round(n)).Ok? {
      LogStep(Transcript(w, config, round, n), ResponseEvent(round(n))[0]);
    } else {
      assert Transcript(w, config, round, n) + [] == Transcript(w, config, round, n);
    }
  }
}
