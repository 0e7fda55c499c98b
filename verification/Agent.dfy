/** `Agent::run` of crates/graphnight-runtime/src/agent.rs: a loop that calls a model, runs the tools it asks
    for and feeds the results back, under hard bounds.

    The provider, the tools and the clock are unknown functions of what happened before they are asked, so one
    run of the method stands for every behaviour they can show. */
module Agent {
  import opened Results
  import opened Text
  import opened Transcript

  datatype AgentBudget = AgentBudget(
    maxSteps: nat,
    maxTokens: nat,
    maxDuration: nat,
    maxRepeatCalls: nat,
    maxConsecutiveErrors: nat)

  datatype AgentStopReason =
    | Completed
    | MaxSteps
    | TokenBudget
    | Timeout
    | RepeatedCalls
    | ConsecutiveErrors
    | Truncated
    | ProviderError(message: string)
  {
    predicate IsSuccess() { Completed? }
  }

  /** How a provider call ends: a reply, no reply in time, or a failure. */
  datatype Completion = Replied(reply: Reply) | TimedOut | Failed(message: string)

  /** What surrounds a run: the end of request `k` with these messages, the result of tool call `n`, and the
      time elapsed when that many requests were answered and that many calls were run. */
  datatype World = World(
    complete: (nat, seq<Message>) -> Completion,
    call: (nat, string, string) -> ToolResult,
    elapsed: (nat, nat) -> nat)

  datatype AgentRun = AgentRun(
    answer: Option<string>,
    stopReason: AgentStopReason,
    steps: seq<StepRecord>,
    usage: Usage,
    toolsUsed: seq<string>)

  /** A provider request as it was sent: the messages, the tokens used before, the time elapsed. */
  datatype Request = Request(messages: seq<Message>, usedTokens: nat, elapsed: nat)

  // ---------- finishing ----------

  const TRUNCATED_NOTICE := "The response was cut off before it finished."

  function Notice(reason: AgentStopReason, steps: nat, tokens: nat, seconds: nat): string {
    match reason
    case Completed => "Completed."
    case MaxSteps => "Stopped after " + Decimal(steps) + " steps without a final answer."
    case TokenBudget => "Stopped after using " + Decimal(tokens) + " tokens."
    case Timeout => "Stopped after " + Decimal(seconds) + "s."
    case RepeatedCalls => "Stopped because the agent repeated the same call."
    case ConsecutiveErrors => "Stopped after repeated tool failures."
    case Truncated => TRUNCATED_NOTICE
    case ProviderError(message) => "Model call failed: " + message
  }

  /** A partial answer never reads as a complete one: the notice is appended to it. */
  function WithNotice(text: string, notice: string): string {
    (if Trim(text) != [] then text + "\n\n" else text) + notice
  }

  /** The answer a caller sees: as it is when the run succeeded, else with the notice of the stop reason. */
  function Answer(answer: Option<string>, reason: AgentStopReason, steps: nat, tokens: nat,
                  seconds: nat): Option<string> {
    match answer
    case None => None
    case Some(text) =>
      if reason.IsSuccess() then answer else Some(WithNotice(text, Notice(reason, steps, tokens, seconds)))
  }

  function Noticed(content: Option<string>): Option<string> {
    if content.Some? then Some(WithNotice(content.value, TRUNCATED_NOTICE)) else None
  }

  /** An answer of a run that did not complete keeps the text of the model as it is and ends in the notice,
      behind an empty line unless the text is blank. */
  lemma NoticeIsAppended(text: string, reason: AgentStopReason, steps: nat, tokens: nat, seconds: nat)
    requires !reason.Completed?
    ensures var gap := if Blank(text) then "" else "\n\n";
      Answer(Some(text), reason, steps, tokens, seconds) ==
        Some(text + gap + Notice(reason, steps, tokens, seconds))
  {
    TrimIsEmptyIff(text);
    assert text + "" == text;
  }

  method Finish(elapsed: nat, answer: Option<string>, reason: AgentStopReason, steps: seq<StepRecord>, usage: Usage,
                toolsUsed: seq<string>) returns (run: AgentRun)
    ensures run == AgentRun(Answer(answer, reason, |steps|, usage.Total(), elapsed), reason, steps, usage, toolsUsed)
    ensures answer.None? ==> run.answer.None?
    ensures reason.Completed? ==> run == AgentRun(answer, reason, steps, usage, toolsUsed)
    ensures reason.Truncated? ==> run == AgentRun(Noticed(answer), reason, steps, usage, toolsUsed)
  {
    var final := answer;
    if answer.Some? && !reason.IsSuccess() {
      var text := answer.value;
      var notice := Notice(reason, |steps|, usage.Total(), elapsed);
      if Trim(text) != [] {
        text := text + "\n\n";
      }
      text := text + notice;
      final := Some(text);
    }
    run := AgentRun(final, reason, steps, usage, toolsUsed);
  }

  // ---------- what every run keeps ----------

  /** Every step was run in time and records what the tool answered, in the order of execution. */
  ghost predicate Executed(budget: AgentBudget, world: World, steps: seq<StepRecord>) {
    forall i {:trigger Answered(budget, world, i, steps[i])} ::
      0 <= i < |steps| ==> Answered(budget, world, i, steps[i])
  }

  ghost predicate Answered(budget: AgentBudget, world: World, i: nat, step: StepRecord) {
    && world.elapsed(step.step + 1, i) < budget.maxDuration
    && step.result == world.call(i, step.tool, step.arguments)
  }

  ghost predicate RepeatsWithin(budget: AgentBudget, steps: seq<StepRecord>) {
    forall fingerprint :: Executions(steps, fingerprint) <= budget.maxRepeatCalls
  }

  /** No run of failures exceeds its bound within the first `n` steps. */
  ghost predicate ErrorsWithin(budget: AgentBudget, steps: seq<StepRecord>, n: nat) {
    forall k :: 0 <= k <= n && k <= |steps| ==> TrailingErrors(steps[..k]) <= budget.maxConsecutiveErrors
  }

  /** The state of a run between two tool calls. */
  datatype Ledger = Ledger(
    messages: seq<Message>,
    steps: seq<StepRecord>,
    toolsUsed: seq<string>,
    callCounts: map<string, nat>,
    consecutiveErrors: nat)

  function Counted(counts: map<string, nat>, fingerprint: string): nat {
    if fingerprint in counts then counts[fingerprint] else 0
  }

  ghost predicate LedgerOk(budget: AgentBudget, world: World, l: Ledger) {
    && Executed(budget, world, l.steps)
    && RepeatsWithin(budget, l.steps)
    && ErrorsWithin(budget, l.steps, |l.steps|)
    && l.toolsUsed == FirstUses(l.steps)
    && l.consecutiveErrors == TrailingErrors(l.steps)
    && CountsHold(l.callCounts, l.steps)
  }

  ghost predicate CountsHold(counts: map<string, nat>, steps: seq<StepRecord>) {
    forall fingerprint :: Counted(counts, fingerprint) == Executions(steps, fingerprint)
  }

  lemma CountsExtend(counts: map<string, nat>, steps: seq<StepRecord>, record: StepRecord)
    requires CountsHold(counts, steps)
    ensures var fingerprint := Fingerprint(record.tool, record.arguments);
      CountsHold(counts[fingerprint := Counted(counts, fingerprint) + 1], steps + [record])
  {
    var extended, recorded := steps + [record], Fingerprint(record.tool, record.arguments);
    assert extended[..|steps|] == steps;
    forall fingerprint
      ensures Counted(counts[recorded := Counted(counts, recorded) + 1], fingerprint) ==
        Executions(extended, fingerprint)
    {
      assert Counted(counts, fingerprint) == Executions(steps, fingerprint);
    }
  }

  lemma ErrorsExtend(budget: AgentBudget, steps: seq<StepRecord>)
    requires steps != [] && ErrorsWithin(budget, steps, |steps| - 1) &&
      TrailingErrors(steps) <= budget.maxConsecutiveErrors
    ensures ErrorsWithin(budget, steps, |steps|)
  {
    forall k | 0 <= k <= |steps| ensures TrailingErrors(steps[..k]) <= budget.maxConsecutiveErrors {
      if k == |steps| {
        assert steps[..k] == steps;
      }
    }
  }

  /** What holds of the steps of a finished run: as above, except that the failure that ends a run is one
      too many. */
  ghost predicate StepsOk(budget: AgentBudget, world: World, steps: seq<StepRecord>, toolsUsed: seq<string>,
                          reason: AgentStopReason) {
    && Executed(budget, world, steps)
    && RepeatsWithin(budget, steps)
    && toolsUsed == FirstUses(steps)
    && (if reason.ConsecutiveErrors? then
          |steps| > 0 && ErrorsWithin(budget, steps, |steps| - 1) &&
            TrailingErrors(steps) == budget.maxConsecutiveErrors + 1
        else ErrorsWithin(budget, steps, |steps|))
  }

  /** The step that `record` is about was run next, in time. */
  ghost predicate Ran(budget: AgentBudget, world: World, l: Ledger, record: StepRecord) {
    && world.elapsed(record.step + 1, |l.steps|) < budget.maxDuration
    && record.result == world.call(|l.steps|, record.tool, record.arguments)
  }

  lemma ExecuteStep(budget: AgentBudget, world: World, l: Ledger, record: StepRecord)
    requires LedgerOk(budget, world, l)
    requires Ran(budget, world, l, record)
    requires Executions(l.steps, Fingerprint(record.tool, record.arguments)) < budget.maxRepeatCalls
    ensures var steps := l.steps + [record];
      && Executed(budget, world, steps)
      && RepeatsWithin(budget, steps)
      && WithTool(l.toolsUsed, record.tool) == FirstUses(steps)
      && TrailingErrors(steps) == (if record.result.Ok? then 0 else l.consecutiveErrors + 1)
      && ErrorsWithin(budget, steps, |l.steps|)
  {
    var steps := l.steps + [record];
    assert steps[..|steps| - 1] == l.steps;
    forall i | 0 <= i < |steps| ensures Answered(budget, world, i, steps[i]) {
      if i < |l.steps| {
        assert Answered(budget, world, i, l.steps[i]);
      }
    }
    forall k | 0 <= k <= |l.steps| ensures TrailingErrors(steps[..k]) <= budget.maxConsecutiveErrors {
      assert steps[..k] == l.steps[..k];
    }
  }

  function WithTool(toolsUsed: seq<string>, tool: string): seq<string> {
    if tool in toolsUsed then toolsUsed else toolsUsed + [tool]
  }

  /** A step whose failure is tolerated, or which succeeds, leaves the ledger in order. */
  lemma StepContinues(budget: AgentBudget, world: World, l: Ledger, record: StepRecord, messages: seq<Message>,
                      errors: nat)
    requires LedgerOk(budget, world, l)
    requires Ran(budget, world, l, record)
    requires Executions(l.steps, Fingerprint(record.tool, record.arguments)) < budget.maxRepeatCalls
    requires errors == (if record.result.Ok? then 0 else l.consecutiveErrors + 1) <= budget.maxConsecutiveErrors
    ensures var fingerprint := Fingerprint(record.tool, record.arguments);
      LedgerOk(budget, world, Ledger(messages, l.steps + [record], WithTool(l.toolsUsed, record.tool),
               l.callCounts[fingerprint := Counted(l.callCounts, fingerprint) + 1], errors))
  {
    ExecuteStep(budget, world, l, record);
    ErrorsExtend(budget, l.steps + [record]);
    CountsExtend(l.callCounts, l.steps, record);
  }

  /** The failure that is one too many ends the run. */
  lemma StepStops(budget: AgentBudget, world: World, l: Ledger, record: StepRecord)
    requires LedgerOk(budget, world, l)
    requires Ran(budget, world, l, record)
    requires Executions(l.steps, Fingerprint(record.tool, record.arguments)) < budget.maxRepeatCalls
    requires record.result.Err? && l.consecutiveErrors + 1 > budget.maxConsecutiveErrors
    ensures StepsOk(budget, world, l.steps + [record], WithTool(l.toolsUsed, record.tool), ConsecutiveErrors)
  {
    ExecuteStep(budget, world, l, record);
    assert l.steps[..|l.steps|] == l.steps;
    assert TrailingErrors(l.steps) <= budget.maxConsecutiveErrors;
  }

  lemma LedgerStops(budget: AgentBudget, world: World, l: Ledger, reason: AgentStopReason)
    requires LedgerOk(budget, world, l) && !reason.ConsecutiveErrors?
    ensures StepsOk(budget, world, l.steps, l.toolsUsed, reason)
  {
  }

  lemma ResultAppended(steps: seq<StepRecord>, messages: seq<Message>, step: nat, calls: seq<ToolCall>,
                       results: seq<ToolResult>, result: ToolResult)
    requires |results| < |calls|
    ensures var call := calls[|results|];
      && steps + Records(step, calls, results + [result]) ==
           steps + Records(step, calls, results) + [StepRecord(step, call.name, call.arguments, result)]
      && messages + ToolMessages(calls, results + [result]) ==
           messages + ToolMessages(calls, results) + [ToolMessage(call.id, call.name, result)]
  {
    var call := calls[|results|];
    assert Records(step, calls, results + [result]) ==
      Records(step, calls, results) + [StepRecord(step, call.name, call.arguments, result)];
    assert ToolMessages(calls, results + [result]) ==
      ToolMessages(calls, results) + [ToolMessage(call.id, call.name, result)];
  }

  /** The time was up when that many requests were answered and that many calls were run. */
  ghost predicate OutOfTime(budget: AgentBudget, world: World, requests: nat, calls: nat) {
    world.elapsed(requests, calls) >= budget.maxDuration
  }

  /** Why the calls of a turn were not all executed. */
  ghost predicate TurnStop(budget: AgentBudget, world: World, step: nat, steps: seq<StepRecord>, calls: seq<ToolCall>,
                           done: nat, reason: AgentStopReason) {
    match reason
    case Timeout => done < |calls| && OutOfTime(budget, world, step + 1, |steps|)
    case RepeatedCalls =>
      && done < |calls| && !OutOfTime(budget, world, step + 1, |steps|)
      && Executions(steps, Fingerprint(calls[done].name, calls[done].arguments)) == budget.maxRepeatCalls
    case ConsecutiveErrors => 0 < done <= |calls|
    case _ => false
  }

  /** Why one call was the last: no time, one execution too many (then it did not run), or one failure too
      many (then it did). */
  ghost predicate CallStop(budget: AgentBudget, world: World, step: nat, steps: seq<StepRecord>, call: ToolCall,
                           ran: bool, reason: AgentStopReason) {
    match reason
    case Timeout => !ran && OutOfTime(budget, world, step + 1, |steps|)
    case RepeatedCalls =>
      && !ran && !OutOfTime(budget, world, step + 1, |steps|)
      && Executions(steps, Fingerprint(call.name, call.arguments)) == budget.maxRepeatCalls
    case ConsecutiveErrors => ran
    case _ => false
  }

  ghost predicate CallStopped(budget: AgentBudget, world: World, step: nat, l: Ledger, call: ToolCall, ran: bool,
                              reason: AgentStopReason) {
    StepsOk(budget, world, l.steps, l.toolsUsed, reason) && CallStop(budget, world, step, l.steps, call, ran, reason)
  }

  ghost predicate TurnStopped(budget: AgentBudget, world: World, step: nat, l: Ledger, calls: seq<ToolCall>,
                              done: nat, reason: AgentStopReason) {
    StepsOk(budget, world, l.steps, l.toolsUsed, reason) && TurnStop(budget, world, step, l.steps, calls, done, reason)
  }

  lemma CallStopsTurn(budget: AgentBudget, world: World, step: nat, l: Ledger, calls: seq<ToolCall>, i: nat,
                      ran: bool, reason: AgentStopReason)
    requires i < |calls| && CallStopped(budget, world, step, l, calls[i], ran, reason)
    ensures TurnStopped(budget, world, step, l, calls, if ran then i + 1 else i, reason)
  {
  }

  /** Checks the clock and the repeats, then runs one call. */
  method RunCall(budget: AgentBudget, world: World, step: nat, call: ToolCall, start: Ledger)
    returns (l: Ledger, result: Option<ToolResult>, stop: Option<AgentStopReason>)
    requires LedgerOk(budget, world, start)
    ensures l.steps ==
      start.steps + (if result.Some? then [StepRecord(step, call.name, call.arguments, result.value)] else [])
    ensures stop.None? ==> result.Some? && LedgerOk(budget, world, l)
    ensures stop.None? ==> l.messages == start.messages + [ToolMessage(call.id, call.name, result.value)]
    ensures stop.Some? ==> CallStopped(budget, world, step, l, call, result.Some?, stop.value)
  {
    l, result := start, None;
    if world.elapsed(step + 1, |l.steps|) >= budget.maxDuration {
      LedgerStops(budget, world, l, Timeout);
      return l, result, Some(Timeout);
    }
    var fingerprint := Fingerprint(call.name, call.arguments);
    var seen := Counted(l.callCounts, fingerprint) + 1;
    assert seen == Executions(l.steps, fingerprint) + 1;
    if seen > budget.maxRepeatCalls {
      LedgerStops(budget, world, l, RepeatedCalls);
      return l, result, Some(RepeatedCalls);
    }
    var answer := world.call(|l.steps|, call.name, call.arguments);
    result := Some(answer);
    var errors := if answer.Ok? then 0 else l.consecutiveErrors + 1;
    var record := StepRecord(step, call.name, call.arguments, answer);
    if errors > budget.maxConsecutiveErrors {
      StepStops(budget, world, l, record);
      l := l.(steps := l.steps + [record], toolsUsed := WithTool(l.toolsUsed, call.name));
      return l, result, Some(ConsecutiveErrors);
    }
    var messages := l.messages + [ToolMessage(call.id, call.name, answer)];
    StepContinues(budget, world, l, record, messages, errors);
    l := Ledger(messages, l.steps + [record], WithTool(l.toolsUsed, call.name), l.callCounts[fingerprint := seen],
                errors);
    stop := None;
  }

  /** Executes the calls of one reply in order, until they are done or a bound stops the run. */
  method RunCalls(budget: AgentBudget, world: World, step: nat, calls: seq<ToolCall>, start: Ledger)
    returns (l: Ledger, results: seq<ToolResult>, stop: Option<AgentStopReason>)
    requires LedgerOk(budget, world, start)
    ensures |results| <= |calls| && l.steps == start.steps + Records(step, calls, results)
    ensures stop.None? ==> |results| == |calls| && LedgerOk(budget, world, l)
    ensures stop.None? ==> l.messages == start.messages + ToolMessages(calls, results)
    ensures stop.Some? ==> TurnStopped(budget, world, step, l, calls, |results|, stop.value)
  {
    l, results := start, [];
    for i := 0 to |calls|
      invariant |results| == i && l.steps == start.steps + Records(step, calls, results)
      invariant l.messages == start.messages + ToolMessages(calls, results)
      invariant LedgerOk(budget, world, l)
    {
      var result;
      l, result, stop := RunCall(budget, world, step, calls[i], l);
      if result.Some? {
        ResultAppended(start.steps, start.messages, step, calls, results, result.value);
        results := results + [result.value];
      }
      if stop.Some? {
        CallStopsTurn(budget, world, step, l, calls, i, result.Some?, stop.value);
        return;
      }
    }
    stop := None;
  }

  // ---------- a whole run ----------

  /** A request sees the question followed by whole turns, and is sent within every bound. */
  ghost predicate RequestOk(budget: AgentBudget, world: World, question: string, request: Request, turns: seq<Turn>) {
    && AllWhole(turns)
    && request.messages == MessagesOf(question, turns)
    && request.usedTokens == UsageOf(turns).Total() < budget.maxTokens
    && request.elapsed == world.elapsed(|turns|, |StepsOf(turns)|) < budget.maxDuration
  }

  /** The requests of a run: request `k` follows the first `k` turns, and each turn is the reply to its
      request. */
  ghost predicate RequestsOk(budget: AgentBudget, world: World, question: string, requests: seq<Request>,
                             turns: seq<Turn>) {
    && |requests| <= budget.maxSteps
    && |turns| <= |requests| <= |turns| + 1
    && WellFormed(turns)
    && AllSentRight(budget, world, question, requests, turns)
    && AllReplied(world, requests, turns)
  }

  ghost predicate AllSentRight(budget: AgentBudget, world: World, question: string, requests: seq<Request>,
                               turns: seq<Turn>)
    requires |requests| <= |turns| + 1
  {
    forall k {:trigger RequestOk(budget, world, question, requests[k], turns[..k])} ::
      0 <= k < |requests| ==> RequestOk(budget, world, question, requests[k], turns[..k])
  }

  ghost predicate AllReplied(world: World, requests: seq<Request>, turns: seq<Turn>)
    requires |turns| <= |requests|
  {
    forall k {:trigger ReplyOk(world, k, requests[k], turns[k].reply)} ::
      0 <= k < |turns| ==> ReplyOk(world, k, requests[k], turns[k].reply)
  }

  ghost predicate ReplyOk(world: World, k: nat, request: Request, reply: Reply) {
    world.complete(k, request.messages) == Replied(reply) && !reply.cutOff && reply.toolCalls != []
  }

  /** How the last request ended. */
  ghost predicate LastEnded(world: World, requests: seq<Request>, completion: Completion) {
    requests != [] && world.complete(|requests| - 1, requests[|requests| - 1].messages) == completion
  }

  /** Each stop reason is given only for its own cause, and only two of them come with an answer. */
  ghost predicate Explained(budget: AgentBudget, world: World, run: AgentRun, requests: seq<Request>, turns: seq<Turn>)
    requires WellFormed(turns)
  {
    match run.stopReason
    case MaxSteps =>
      run.answer.None? && run.usage == UsageOf(turns) && |turns| == |requests| == budget.maxSteps
    case TokenBudget =>
      && run.answer.None? && run.usage == UsageOf(turns) && |turns| == |requests| < budget.maxSteps
      && run.usage.Total() >= budget.maxTokens
    case Timeout =>
      && run.answer.None? && run.usage == UsageOf(turns)
      && (|| LateBetweenTurns(budget, world, run, requests, turns)
          || (|requests| == |turns| + 1 && LastEnded(world, requests, TimedOut))
          || StoppedInTurn(budget, world, run, requests, turns))
    case RepeatedCalls =>
      run.answer.None? && run.usage == UsageOf(turns) && StoppedInTurn(budget, world, run, requests, turns)
    case ConsecutiveErrors =>
      run.answer.None? && run.usage == UsageOf(turns) && StoppedInTurn(budget, world, run, requests, turns)
    case ProviderError(message) =>
      run.answer.None? && run.usage == UsageOf(turns) && |requests| == |turns| + 1 &&
        LastEnded(world, requests, Failed(message))
    case Completed =>
      |requests| == |turns| + 1 && exists reply ::
        LastEnded(world, requests, Replied(reply)) && FinalReply(run, turns, reply, false) &&
          reply.toolCalls == [] && run.answer == reply.content
    case Truncated =>
      |requests| == |turns| + 1 && exists reply ::
        LastEnded(world, requests, Replied(reply)) && FinalReply(run, turns, reply, true) &&
          run.answer == Noticed(reply.content)
  }

  /** The other bounds held, and the time was up before the next request. */
  ghost predicate LateBetweenTurns(budget: AgentBudget, world: World, run: AgentRun, requests: seq<Request>,
                                   turns: seq<Turn>) {
    && |requests| == |turns| < budget.maxSteps && run.usage.Total() < budget.maxTokens
    && OutOfTime(budget, world, |turns|, |run.steps|)
  }

  /** The run stopped at a call of the last turn, for the reason it gives. */
  ghost predicate StoppedInTurn(budget: AgentBudget, world: World, run: AgentRun, requests: seq<Request>,
                                turns: seq<Turn>) {
    && turns != [] && |requests| == |turns|
    && var last := turns[|turns| - 1];
       TurnStop(budget, world, |turns| - 1, run.steps, last.reply.toolCalls, |last.results|, run.stopReason)
  }

  ghost predicate FinalReply(run: AgentRun, turns: seq<Turn>, reply: Reply, cutOff: bool) {
    reply.cutOff == cutOff && run.usage == UsageOf(turns).Merge(reply.usage)
  }

  lemma SendRequest(budget: AgentBudget, world: World, question: string, requests: seq<Request>, turns: seq<Turn>,
                    request: Request)
    requires RequestsOk(budget, world, question, requests, turns) && |requests| == |turns| < budget.maxSteps
    requires RequestOk(budget, world, question, request, turns)
    ensures RequestsOk(budget, world, question, requests + [request], turns)
  {
    var sent := requests + [request];
    assert turns[..|turns|] == turns;
    forall k | 0 <= k < |sent| ensures RequestOk(budget, world, question, sent[k], turns[..k]) {
      assert k < |requests| ==> RequestOk(budget, world, question, requests[k], turns[..k]);
    }
    forall k | 0 <= k < |turns| ensures ReplyOk(world, k, sent[k], turns[k].reply) {
      assert ReplyOk(world, k, requests[k], turns[k].reply);
    }
  }

  lemma TurnAppended(question: string, turns: seq<Turn>, turn: Turn)
    requires WellFormed(turns) && |turn.results| <= |turn.reply.toolCalls|
    ensures WellFormed(turns + [turn])
    ensures StepsOf(turns + [turn]) == StepsOf(turns) + Records(|turns|, turn.reply.toolCalls, turn.results)
    ensures UsageOf(turns + [turn]) == UsageOf(turns).Merge(turn.reply.usage)
    ensures MessagesOf(question, turns + [turn]) ==
      MessagesOf(question, turns) + [Assistant(turn.reply.content, turn.reply.toolCalls)] +
        ToolMessages(turn.reply.toolCalls, turn.results)
  {
    assert (turns + [turn])[..|turns|] == turns;
  }

  lemma StillSentRight(budget: AgentBudget, world: World, question: string, requests: seq<Request>, turns: seq<Turn>,
                       turn: Turn)
    requires |requests| <= |turns| + 1 && AllSentRight(budget, world, question, requests, turns)
    ensures AllSentRight(budget, world, question, requests, turns + [turn])
  {
    forall k | 0 <= k < |requests| ensures RequestOk(budget, world, question, requests[k], (turns + [turn])[..k]) {
      assert (turns + [turn])[..k] == turns[..k];
    }
  }

  lemma StillReplied(world: World, requests: seq<Request>, turns: seq<Turn>, turn: Turn)
    requires |turns| < |requests| && AllReplied(world, requests, turns)
    requires ReplyOk(world, |turns|, requests[|turns|], turn.reply)
    ensures AllReplied(world, requests, turns + [turn])
  {
  }

  lemma TakeTurn(budget: AgentBudget, world: World, question: string, requests: seq<Request>, turns: seq<Turn>,
                 turn: Turn)
    requires RequestsOk(budget, world, question, requests, turns) && |requests| == |turns| + 1
    requires |turn.results| <= |turn.reply.toolCalls| && ReplyOk(world, |turns|, requests[|turns|], turn.reply)
    ensures RequestsOk(budget, world, question, requests, turns + [turn])
  {
    StillSentRight(budget, world, question, requests, turns, turn);
    StillReplied(world, requests, turns, turn);
  }

  /** Everything that holds of a finished run. */
  ghost predicate RunOk(budget: AgentBudget, world: World, question: string, run: AgentRun, requests: seq<Request>,
                        turns: seq<Turn>) {
    && RequestsOk(budget, world, question, requests, turns)
    && run.steps == StepsOf(turns)
    && StepsOk(budget, world, run.steps, run.toolsUsed, run.stopReason)
    && Explained(budget, world, run, requests, turns)
  }

  /** The state of a run when it is about to check its bounds: whole turns, everything in order. */
  ghost predicate BetweenTurns(budget: AgentBudget, world: World, question: string, requests: seq<Request>,
                               turns: seq<Turn>, l: Ledger, usage: Usage) {
    && RequestsOk(budget, world, question, requests, turns) && |requests| == |turns| && AllWhole(turns)
    && LedgerOk(budget, world, l)
    && l.messages == MessagesOf(question, turns) && l.steps == StepsOf(turns) && usage == UsageOf(turns)
  }

  lemma StopBetweenTurns(budget: AgentBudget, world: World, question: string, requests: seq<Request>,
                         turns: seq<Turn>, l: Ledger, usage: Usage, run: AgentRun)
    requires BetweenTurns(budget, world, question, requests, turns, l, usage)
    requires run == AgentRun(None, run.stopReason, l.steps, usage, l.toolsUsed)
    requires match run.stopReason
      case MaxSteps => |turns| >= budget.maxSteps
      case TokenBudget => |turns| < budget.maxSteps && usage.Total() >= budget.maxTokens
      case Timeout =>
        |turns| < budget.maxSteps && usage.Total() < budget.maxTokens && OutOfTime(budget, world, |turns|, |l.steps|)
      case _ => false
    ensures RunOk(budget, world, question, run, requests, turns)
  {
    LedgerStops(budget, world, l, run.stopReason);
  }

  lemma StopAtRequest(budget: AgentBudget, world: World, question: string, requests: seq<Request>, turns: seq<Turn>,
                      l: Ledger, usage: Usage,
                      request: Request, run: AgentRun)
    requires BetweenTurns(budget, world, question, requests, turns, l, usage)
    requires |turns| < budget.maxSteps && RequestOk(budget, world, question, request, turns)
    requires match world.complete(|turns|, request.messages)
      case TimedOut => run == AgentRun(None, Timeout, l.steps, usage, l.toolsUsed)
      case Failed(message) => run == AgentRun(None, ProviderError(message), l.steps, usage, l.toolsUsed)
      case Replied(reply) =>
        && (reply.cutOff || reply.toolCalls == [])
        && var (answer, reason) :=
             if reply.cutOff then (Noticed(reply.content), Truncated) else (reply.content, Completed);
           run == AgentRun(answer, reason, l.steps, usage.Merge(reply.usage), l.toolsUsed)
    ensures RunOk(budget, world, question, run, requests + [request], turns)
  {
    LedgerStops(budget, world, l, run.stopReason);
    SendRequest(budget, world, question, requests, turns, request);
    assert LastEnded(world, requests + [request], world.complete(|turns|, request.messages));
    if world.complete(|turns|, request.messages).Replied? {
      var reply := world.complete(|turns|, request.messages).reply;
      assert FinalReply(run, turns, reply, reply.cutOff);
    }
  }

  /** A reply that asks for tools: what the turn makes of the state, whether or not it was cut short. */
  lemma AfterTurn(budget: AgentBudget, world: World, question: string, requests: seq<Request>, turns: seq<Turn>,
                  l: Ledger, usage: Usage,
                  request: Request, turn: Turn)
    requires BetweenTurns(budget, world, question, requests, turns, l, usage)
    requires |turns| < budget.maxSteps && RequestOk(budget, world, question, request, turns)
    requires ReplyOk(world, |turns|, request, turn.reply) && |turn.results| <= |turn.reply.toolCalls|
    ensures RequestsOk(budget, world, question, requests + [request], turns + [turn])
    ensures StepsOf(turns + [turn]) == l.steps + Records(|turns|, turn.reply.toolCalls, turn.results)
    ensures UsageOf(turns + [turn]) == usage.Merge(turn.reply.usage)
    ensures MessagesOf(question, turns + [turn]) ==
      l.messages + [Assistant(turn.reply.content, turn.reply.toolCalls)] +
        ToolMessages(turn.reply.toolCalls, turn.results)
  {
    SendRequest(budget, world, question, requests, turns, request);
    TakeTurn(budget, world, question, requests + [request], turns, turn);
    TurnAppended(question, turns, turn);
  }

  /** What `RunCalls` makes of the state `l` and the turn it is given. */
  ghost predicate TurnRan(budget: AgentBudget, world: World, step: nat, l: Ledger, turn: Turn, after: Ledger,
                          stop: Option<AgentStopReason>) {
    && |turn.results| <= |turn.reply.toolCalls|
    && after.steps == l.steps + Records(step, turn.reply.toolCalls, turn.results)
    && match stop
       case None =>
         && |turn.results| == |turn.reply.toolCalls| && LedgerOk(budget, world, after)
         && after.messages ==
           l.messages + [Assistant(turn.reply.content, turn.reply.toolCalls)] +
             ToolMessages(turn.reply.toolCalls, turn.results)
       case Some(reason) => TurnStopped(budget, world, step, after, turn.reply.toolCalls, |turn.results|, reason)
  }

  lemma ContinueAfterTurn(budget: AgentBudget, world: World, question: string, requests: seq<Request>,
                          turns: seq<Turn>, l: Ledger, usage: Usage,
                          request: Request, turn: Turn, after: Ledger)
    requires BetweenTurns(budget, world, question, requests, turns, l, usage)
    requires |turns| < budget.maxSteps && RequestOk(budget, world, question, request, turns)
    requires ReplyOk(world, |turns|, request, turn.reply)
    requires TurnRan(budget, world, |turns|, l, turn, after, None)
    ensures BetweenTurns(budget, world, question, requests + [request], turns + [turn], after,
                         usage.Merge(turn.reply.usage))
  {
    AfterTurn(budget, world, question, requests, turns, l, usage, request, turn);
  }

  lemma StopInTurn(budget: AgentBudget, world: World, question: string, requests: seq<Request>, turns: seq<Turn>,
                   l: Ledger, usage: Usage,
                   request: Request, turn: Turn, after: Ledger, run: AgentRun)
    requires BetweenTurns(budget, world, question, requests, turns, l, usage)
    requires |turns| < budget.maxSteps && RequestOk(budget, world, question, request, turns)
    requires ReplyOk(world, |turns|, request, turn.reply)
    requires TurnRan(budget, world, |turns|, l, turn, after, Some(run.stopReason))
    requires run == AgentRun(None, run.stopReason, after.steps, usage.Merge(turn.reply.usage), after.toolsUsed)
    ensures RunOk(budget, world, question, run, requests + [request], turns + [turn])
  {
    AfterTurn(budget, world, question, requests, turns, l, usage, request, turn);
    assert (turns + [turn])[|turns + [turn]| - 1] == turn;
  }

  /** Runs the agent against a question.  Besides the run, answers what was sent to the provider and, for the
      proof only, the turns that were taken. */
  method Run(budget: AgentBudget, world: World, question: string)
    returns (run: AgentRun, requests: seq<Request>, ghost turns: seq<Turn>)
    ensures RunOk(budget, world, question, run, requests, turns)
    ensures run.answer.Some? ==> run.stopReason.Completed? || run.stopReason.Truncated?
  {
    requests, turns := [], [];
    var usage := Usage(0, 0);
    var step := 0;
    var l := Ledger([User(question)], [], [], map[], 0);
    while true
      invariant BetweenTurns(budget, world, question, requests, turns, l, usage) && |turns| == step
      decreases budget.maxSteps - step
    {
      if step >= budget.maxSteps {
        run := Finish(world.elapsed(step, |l.steps|), None, MaxSteps, l.steps, usage, l.toolsUsed);
        StopBetweenTurns(budget, world, question, requests, turns, l, usage, run);
        return;
      }
      if usage.Total() >= budget.maxTokens {
        run := Finish(world.elapsed(step, |l.steps|), None, TokenBudget, l.steps, usage, l.toolsUsed);
        StopBetweenTurns(budget, world, question, requests, turns, l, usage, run);
        return;
      }
      var elapsed := world.elapsed(step, |l.steps|);
      if elapsed >= budget.maxDuration {
        run := Finish(elapsed, None, Timeout, l.steps, usage, l.toolsUsed);
        StopBetweenTurns(budget, world, question, requests, turns, l, usage, run);
        return;
      }
      var request := Request(l.messages, usage.Total(), elapsed);
      var completion := world.complete(step, request.messages);
      match completion {
        case TimedOut =>
          run := Finish(world.elapsed(step + 1, |l.steps|), None, Timeout, l.steps, usage, l.toolsUsed);
          StopAtRequest(budget, world, question, requests, turns, l, usage, request, run);
          requests := requests + [request];
          return;
        case Failed(message) =>
          run := Finish(world.elapsed(step + 1, |l.steps|), None, ProviderError(message), l.steps, usage, l.toolsUsed);
          StopAtRequest(budget, world, question, requests, turns, l, usage, request, run);
          requests := requests + [request];
          return;
        case Replied(reply) =>
          if reply.cutOff {
            run := Finish(world.elapsed(step + 1, |l.steps|), reply.content, Truncated, l.steps,
                          usage.Merge(reply.usage), l.toolsUsed);
            StopAtRequest(budget, world, question, requests, turns, l, usage, request, run);
            requests := requests + [request];
            return;
          }
          if reply.toolCalls == [] {
            run := Finish(world.elapsed(step + 1, |l.steps|), reply.content, Completed, l.steps,
                          usage.Merge(reply.usage), l.toolsUsed);
            StopAtRequest(budget, world, question, requests, turns, l, usage, request, run);
            requests := requests + [request];
            return;
          }
          var asked := l.(messages := l.messages + [Assistant(reply.content, reply.toolCalls)]);
          var after, results, stop := RunCalls(budget, world, step, reply.toolCalls, asked);
          ghost var turn := Turn(reply, results);
          assert TurnRan(budget, world, step, l, turn, after, stop);
          if stop.Some? {
            run := Finish(world.elapsed(step + 1, |after.steps|), None, stop.value, after.steps,
                          usage.Merge(reply.usage), after.toolsUsed);
            StopInTurn(budget, world, question, requests, turns, l, usage, request, turn, after, run);
            requests, turns := requests + [request], turns + [turn];
            return;
          }
          ContinueAfterTurn(budget, world, question, requests, turns, l, usage, request, turn, after);
          requests, turns := requests + [request], turns + [turn];
          usage := usage.Merge(reply.usage);
          l := after;
      }
      step := step + 1;
    }
  }

  // ---------- what follows for every run ----------

  /** At every request the messages are the question and whole turns, each assistant turn answered by exactly
      one result per call, in order and under matching ids. */
  lemma RequestsAreWellFormed(budget: AgentBudget, world: World, question: string, run: AgentRun,
                              requests: seq<Request>, turns: seq<Turn>, k: nat)
    requires RunOk(budget, world, question, run, requests, turns) && k < |requests|
    ensures WellFormedMessages(question, requests[k].messages)
    ensures requests[k].usedTokens < budget.maxTokens &&
      requests[k].elapsed == world.elapsed(k, |StepsOf(turns[..k])|) < budget.maxDuration
  {
    assert RequestOk(budget, world, question, requests[k], turns[..k]);
    WholeTurnsAreWellFormed(question, turns[..k]);
  }

  /** Each result in the transcript is what the tool answered to the very call it stands under. */
  lemma ResultsAreAnswers(budget: AgentBudget, world: World, question: string, run: AgentRun, requests: seq<Request>,
                          turns: seq<Turn>, k: nat, i: nat)
    requires RunOk(budget, world, question, run, requests, turns) && k < |turns| && i < |turns[k].results|
    ensures var call := turns[k].reply.toolCalls[i];
      turns[k].results[i] == world.call(|StepsOf(turns[..k])| + i, call.name, call.arguments)
  {
    StepAt(turns, k, i);
    assert Answered(budget, world, |StepsOf(turns[..k])| + i, run.steps[|StepsOf(turns[..k])| + i]);
  }

  /** A stretch of failures exceeds its bound by at most one, and then it ends the run. */
  lemma FailuresAreBounded(budget: AgentBudget, world: World, question: string, run: AgentRun, requests: seq<Request>,
                           turns: seq<Turn>, i: nat, n: nat)
    requires RunOk(budget, world, question, run, requests, turns)
    requires i <= n <= |run.steps| && forall k :: i <= k < n ==> run.steps[k].result.Err?
    ensures n - i <= budget.maxConsecutiveErrors + 1
    ensures n - i > budget.maxConsecutiveErrors ==> n == |run.steps| && run.stopReason.ConsecutiveErrors?
  {
    FailuresTrail(run.steps, i, n);
    assert run.steps[..|run.steps|] == run.steps;
    assert TrailingErrors(run.steps[..n]) >= n - i;
  }

  /** In every run no tool is called with the same arguments more often than the budget allows. */
  lemma RepeatsAreBounded(budget: AgentBudget, world: World, question: string, run: AgentRun, requests: seq<Request>,
                          turns: seq<Turn>, tool: string, arguments: string)
    requires RunOk(budget, world, question, run, requests, turns)
    ensures Repeats(run.steps, tool, arguments) <= budget.maxRepeatCalls
  {
    RepeatsAreExecutions(run.steps, tool, arguments);
  }

  /** A run that stops for repeated calls does so in time, at a call that was not run and that the steps hold as
      often as the budget allows, where no tool has a colon in its name. */
  lemma RepeatedCallsWereRepeated(budget: AgentBudget, world: World, question: string, run: AgentRun,
                                  requests: seq<Request>, turns: seq<Turn>)
    requires RunOk(budget, world, question, run, requests, turns) && run.stopReason.RepeatedCalls?
    requires forall k, i :: 0 <= k < |turns| && 0 <= i < |turns[k].reply.toolCalls| ==>
      ':' !in turns[k].reply.toolCalls[i].name
    ensures turns != [] && |turns[|turns| - 1].results| < |turns[|turns| - 1].reply.toolCalls|
    ensures var last := turns[|turns| - 1];
      var refused := last.reply.toolCalls[|last.results|];
      && Repeats(run.steps, refused.name, refused.arguments) == budget.maxRepeatCalls
      && world.elapsed(|turns|, |run.steps|) < budget.maxDuration
  {
    var last := turns[|turns| - 1];
    var refused := last.reply.toolCalls[|last.results|];
    StepsAreCalls(turns);
    RepeatsAreExecutions(run.steps, refused.name, refused.arguments);
  }

  lemma {:induction false} StepsAreCalls(turns: seq<Turn>)
    requires WellFormed(turns)
    requires forall k, i :: 0 <= k < |turns| && 0 <= i < |turns[k].reply.toolCalls| ==>
      ':' !in turns[k].reply.toolCalls[i].name
    ensures forall s :: 0 <= s < |StepsOf(turns)| ==> ':' !in StepsOf(turns)[s].tool
  {
    if turns != [] {
      StepsAreCalls(turns[..|turns| - 1]);
    }
  }

  /** Without that condition it can stop at a call that was never made: two calls of two tools may look alike. */
  lemma ColonsConfuse()
    ensures var steps := [StepRecord(0, "files", "read:notes", Ok(""))];
      && Repeats(steps, "files:read", "notes") == 0
      && Executions(steps, Fingerprint("files:read", "notes")) == 1
  {
    var steps := [StepRecord(0, "files", "read:notes", Ok(""))];
    assert steps[..0] == [];
    assert Fingerprint("files:read", "notes") == "files:read:notes" == Fingerprint("files", "read:notes");
  }

  /** A run that stops for failures ends with one more of them than the budget allows, all in a row. */
  lemma FailuresWereConsecutive(budget: AgentBudget, world: World, question: string, run: AgentRun,
                                requests: seq<Request>, turns: seq<Turn>)
    requires RunOk(budget, world, question, run, requests, turns) && run.stopReason.ConsecutiveErrors?
    ensures var n, k := |run.steps|, budget.maxConsecutiveErrors + 1;
      && k <= n && (forall i :: n - k <= i < n ==> run.steps[i].result.Err?)
      && (k < n ==> run.steps[n - k - 1].result.Ok?)
  {
    TrailingAreFailures(run.steps);
  }

  /** The tokens used, before a request and over the run, are those its replies read and wrote. */
  lemma TokensAreCounted(budget: AgentBudget, world: World, question: string, run: AgentRun, requests: seq<Request>,
                         turns: seq<Turn>, k: nat)
    requires RunOk(budget, world, question, run, requests, turns) && k < |requests|
    ensures requests[k].usedTokens == InputOf(turns[..k]) + OutputOf(turns[..k]) < budget.maxTokens
    ensures run.stopReason.TokenBudget? ==> InputOf(turns) + OutputOf(turns) >= budget.maxTokens
    ensures !run.stopReason.Completed? && !run.stopReason.Truncated? ==>
      run.usage == Usage(InputOf(turns), OutputOf(turns))
  {
    assert RequestOk(budget, world, question, requests[k], turns[..k]);
    UsageIsSum(turns[..k]);
    UsageIsSum(turns);
  }

  lemma ShownInRequest(budget: AgentBudget, world: World, question: string, request: Request, turns: seq<Turn>, t: nat)
    requires RequestOk(budget, world, question, request, turns) && t < |turns|
    ensures |turns[t].results| == |turns[t].reply.toolCalls|
    ensures ShowsTurn(request.messages, TurnStart(turns, t), turns[t])
  {
    assert Whole(turns[t]);
    MessagesAt(question, turns, t);
  }

  /** A request shows each earlier reply as it was given and, under each of its calls, what the tool answered
      to that call. */
  lemma RequestsShowAnswers(budget: AgentBudget, world: World, question: string, run: AgentRun,
                            requests: seq<Request>, turns: seq<Turn>, k: nat, t: nat, i: nat)
    requires RunOk(budget, world, question, run, requests, turns)
    requires t < k < |requests| && i < |turns[t].reply.toolCalls|
    ensures var messages, start, reply := requests[k].messages, TurnStart(turns, t), turns[t].reply;
      var call := reply.toolCalls[i];
      && world.complete(t, requests[t].messages) == Replied(reply)
      && start + 1 + i < |messages|
      && messages[start] == Assistant(reply.content, reply.toolCalls)
      && messages[start + 1 + i] ==
           ToolMessage(call.id, call.name, world.call(|StepsOf(turns[..t])| + i, call.name, call.arguments))
  {
    assert ReplyOk(world, t, requests[t], turns[t].reply);
    ShownInRequest(budget, world, question, requests[k], turns[..k], t);
    assert turns[..k][..t] == turns[..t] && turns[..k][t] == turns[t];
    ResultsAreAnswers(budget, world, question, run, requests, turns, t, i);
  }
}
