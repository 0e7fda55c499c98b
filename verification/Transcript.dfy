/** The records of an agent run: crates/graphnight-runtime/src/agent.rs and the messages of
    crates/graphnight-runtime/src/llm.rs. */
module Transcript {
  import opened Results
  import opened Text

  datatype ToolCall = ToolCall(id: string, name: string, arguments: string)

  /** What a tool answers: its value, or its structured error, as text. */
  type ToolResult = Result<string, string>

  datatype Usage = Usage(inputTokens: nat, outputTokens: nat) {
    function Total(): nat { inputTokens + outputTokens }

    function Merge(other: Usage): Usage {
      Usage(inputTokens + other.inputTokens, outputTokens + other.outputTokens)
    }
  }

  /** A reply of the model; `cutOff` when it stopped because it ran out of output tokens. */
  datatype Reply = Reply(content: Option<string>, toolCalls: seq<ToolCall>, usage: Usage, cutOff: bool)

  datatype Message =
    | User(text: string)
    | Assistant(content: Option<string>, toolCalls: seq<ToolCall>)
    | ToolMessage(callId: string, name: string, result: ToolResult)

  datatype StepRecord = StepRecord(step: nat, tool: string, arguments: string, result: ToolResult)

  /** A reply that asked for tools, with the results of the calls that were executed, in order. */
  datatype Turn = Turn(reply: Reply, results: seq<ToolResult>)

  // ---------- what turns leave behind ----------

  function ToolMessages(calls: seq<ToolCall>, results: seq<ToolResult>): (r: seq<Message>)
    requires |results| <= |calls|
    ensures |r| == |results|
  {
    seq(|results|, i requires 0 <= i < |results| => ToolMessage(calls[i].id, calls[i].name, results[i]))
  }

  function Records(step: nat, calls: seq<ToolCall>, results: seq<ToolResult>): (r: seq<StepRecord>)
    requires |results| <= |calls|
    ensures |r| == |results|
  {
    seq(|results|, i requires 0 <= i < |results| => StepRecord(step, calls[i].name, calls[i].arguments, results[i]))
  }

  /** Every call of the turn was answered. */
  predicate Whole(turn: Turn) {
    turn.reply.toolCalls != [] && |turn.results| == |turn.reply.toolCalls|
  }

  ghost predicate WellFormed(turns: seq<Turn>) {
    forall k :: 0 <= k < |turns| ==> |turns[k].results| <= |turns[k].reply.toolCalls|
  }

  ghost predicate AllWhole(turns: seq<Turn>) {
    WellFormed(turns) && forall k {:trigger Whole(turns[k])} :: 0 <= k < |turns| ==> Whole(turns[k])
  }

  /** The message list after the given turns: the question, then for each turn the assistant's message and
      one tool message per executed call, in order and under the call's own id. */
  function MessagesOf(question: string, turns: seq<Turn>): seq<Message>
    requires WellFormed(turns)
  {
    if turns == [] then [User(question)]
    else
      var n := |turns| - 1;
      MessagesOf(question, turns[..n]) + [Assistant(turns[n].reply.content, turns[n].reply.toolCalls)]
      + ToolMessages(turns[n].reply.toolCalls, turns[n].results)
  }

  function StepsOf(turns: seq<Turn>): seq<StepRecord>
    requires WellFormed(turns)
  {
    if turns == [] then []
    else
      var n := |turns| - 1;
      StepsOf(turns[..n]) + Records(n, turns[n].reply.toolCalls, turns[n].results)
  }

  /** Call `i` of turn `k` is the step after those of the turns before and of the calls before. */
  lemma {:induction false} StepAt(turns: seq<Turn>, k: nat, i: nat)
    requires WellFormed(turns) && k < |turns| && i < |turns[k].results|
    ensures var before := |StepsOf(turns[..k])|;
      && before + i < |StepsOf(turns)|
      && StepsOf(turns)[before + i] ==
           StepRecord(k, turns[k].reply.toolCalls[i].name, turns[k].reply.toolCalls[i].arguments, turns[k].results[i])
  {
    var n := |turns| - 1;
    if k < n {
      assert turns[..n][..k] == turns[..k];
      StepAt(turns[..n], k, i);
    }
  }

  function UsageOf(turns: seq<Turn>): Usage {
    if turns == [] then Usage(0, 0) else UsageOf(turns[..|turns| - 1]).Merge(turns[|turns| - 1].reply.usage)
  }

  /** The tokens the replies read and wrote. */
  function InputOf(turns: seq<Turn>): nat {
    if turns == [] then 0 else InputOf(turns[..|turns| - 1]) + turns[|turns| - 1].reply.usage.inputTokens
  }

  function OutputOf(turns: seq<Turn>): nat {
    if turns == [] then 0 else OutputOf(turns[..|turns| - 1]) + turns[|turns| - 1].reply.usage.outputTokens
  }

  lemma {:induction false} UsageIsSum(turns: seq<Turn>)
    ensures UsageOf(turns) == Usage(InputOf(turns), OutputOf(turns))
    ensures UsageOf(turns).Total() == InputOf(turns) + OutputOf(turns)
  {
    if turns != [] {
      UsageIsSum(turns[..|turns| - 1]);
    }
  }

  /** Where the messages of a turn begin: behind the question and those of the turns before. */
  function TurnStart(turns: seq<Turn>, t: nat): nat
    requires WellFormed(turns) && t <= |turns|
  {
    1 + t + |StepsOf(turns[..t])|
  }

  /** From `start` on the messages hold the reply of a turn and the results of its calls, word for word. */
  ghost predicate ShowsTurn(messages: seq<Message>, start: nat, turn: Turn) {
    && |turn.results| <= |turn.reply.toolCalls| && start + |turn.results| < |messages|
    && messages[start] == Assistant(turn.reply.content, turn.reply.toolCalls)
    && forall i :: 0 <= i < |turn.results| ==>
         messages[start + 1 + i] ==
           ToolMessage(turn.reply.toolCalls[i].id, turn.reply.toolCalls[i].name, turn.results[i])
  }

  lemma ShowsStill(messages: seq<Message>, more: seq<Message>, start: nat, turn: Turn)
    requires ShowsTurn(messages, start, turn)
    ensures ShowsTurn(messages + more, start, turn)
  {
  }

  /** Each turn puts its reply and the results of its calls in place. */
  lemma {:induction false} MessagesAt(question: string, turns: seq<Turn>, t: nat)
    requires WellFormed(turns) && t < |turns|
    ensures ShowsTurn(MessagesOf(question, turns), TurnStart(turns, t), turns[t])
  {
    var n := |turns| - 1;
    LastTurnShows(question, turns);
    if t < n {
      assert turns[..n][..t] == turns[..t];
      MessagesAt(question, turns[..n], t);
      ShowsStill(MessagesOf(question, turns[..n]), TurnMessages(turns[n]), TurnStart(turns, t), turns[t]);
    } else {
      MessageCount(question, turns[..n]);
      TurnShows(MessagesOf(question, turns[..n]), turns[n]);
    }
  }

  lemma LastTurnShows(question: string, turns: seq<Turn>)
    requires WellFormed(turns) && turns != []
    ensures var last := turns[|turns| - 1];
      MessagesOf(question, turns) == MessagesOf(question, turns[..|turns| - 1]) + TurnMessages(last)
  {
  }

  lemma TurnShows(before: seq<Message>, turn: Turn)
    requires |turn.results| <= |turn.reply.toolCalls|
    ensures ShowsTurn(before + TurnMessages(turn), |before|, turn)
  {
    var shown := TurnMessages(turn);
    forall i | 0 <= i < |turn.results|
      ensures (before + shown)[|before| + 1 + i] ==
        ToolMessage(turn.reply.toolCalls[i].id, turn.reply.toolCalls[i].name, turn.results[i])
    {
      assert shown[1 + i] == ToolMessages(turn.reply.toolCalls, turn.results)[i];
    }
  }

  lemma {:induction false} MessageCount(question: string, turns: seq<Turn>)
    requires WellFormed(turns)
    ensures |MessagesOf(question, turns)| == 1 + |turns| + |StepsOf(turns)|
  {
    if turns != [] {
      MessageCount(question, turns[..|turns| - 1]);
    }
  }

  // ---------- what is counted over the steps ----------

  function Fingerprint(name: string, arguments: string): string {
    name + ":" + arguments
  }

  function Executions(steps: seq<StepRecord>, fingerprint: string): nat {
    if steps == [] then 0
    else
      var n := |steps| - 1;
      Executions(steps[..n], fingerprint) +
        (if Fingerprint(steps[n].tool, steps[n].arguments) == fingerprint then 1 else 0)
  }

  /** How many steps called this tool with these arguments. */
  function Repeats(steps: seq<StepRecord>, tool: string, arguments: string): nat {
    if steps == [] then 0
    else
      var last := steps[|steps| - 1];
      Repeats(steps[..|steps| - 1], tool, arguments) +
        (if last.tool == tool && last.arguments == arguments then 1 else 0)
  }

  /** Calls of two tools can share a fingerprint exactly when the names are equal or one continues the other
      behind a colon. */
  lemma FingerprintsMeetIff(a: string, b: string)
    ensures (exists x, y :: Fingerprint(a, x) == Fingerprint(b, y)) <==> a + ":" <= b + ":" || b + ":" <= a + ":"
  {
    if x, y :| Fingerprint(a, x) == Fingerprint(b, y) {
      var text := Fingerprint(a, x);
      assert a + ":" <= text && b + ":" <= text;
      PrefixesNest(a + ":", b + ":", text);
    }
    if a + ":" <= b + ":" {
      var x := (b + ":")[|a + ":"|..];
      assert Fingerprint(a, x) == Fingerprint(b, "");
    } else if b + ":" <= a + ":" {
      var y := (a + ":")[|b + ":"|..];
      assert Fingerprint(a, "") == Fingerprint(b, y);
    }
  }

  lemma PrefixesNest(a: string, b: string, text: string)
    requires a <= text && b <= text
    ensures a <= b || b <= a
  {
    assert a == text[..|a|] && b == text[..|b|];
  }

  /** A fingerprint of a tool without a colon in its name tells the tool and the arguments. */
  lemma FingerprintTells(a: string, x: string, b: string, y: string)
    requires ':' !in a && ':' !in b
    ensures Fingerprint(a, x) == Fingerprint(b, y) <==> a == b && x == y
  {
    FindConcat(a, ':', x);
    FindConcat(b, ':', y);
    if Fingerprint(a, x) == Fingerprint(b, y) {
      var text := Fingerprint(a, x);
      assert a == text[..|a|] && b == text[..|b|];
      assert x == text[|a| + 1..] && y == text[|b| + 1..];
    }
  }

  lemma {:induction false} RepeatsAreExecutions(steps: seq<StepRecord>, tool: string, arguments: string)
    ensures Repeats(steps, tool, arguments) <= Executions(steps, Fingerprint(tool, arguments))
    ensures ':' !in tool && (forall i :: 0 <= i < |steps| ==> ':' !in steps[i].tool) ==>
      Repeats(steps, tool, arguments) == Executions(steps, Fingerprint(tool, arguments))
  {
    if steps != [] {
      var n := |steps| - 1;
      RepeatsAreExecutions(steps[..n], tool, arguments);
      if ':' !in tool && ':' !in steps[n].tool {
        FingerprintTells(steps[n].tool, steps[n].arguments, tool, arguments);
      }
    }
  }

  /** The length of the run of failures the steps end with. */
  function TrailingErrors(steps: seq<StepRecord>): nat {
    if steps == [] || steps[|steps| - 1].result.Ok? then 0 else TrailingErrors(steps[..|steps| - 1]) + 1
  }

  /** The tools used, each where it was used first. */
  function FirstUses(steps: seq<StepRecord>): seq<string> {
    if steps == [] then []
    else
      var n := |steps| - 1;
      var before := FirstUses(steps[..n]);
      if steps[n].tool in before then before else before + [steps[n].tool]
  }

  lemma {:induction false} FirstUsesAreTheTools(steps: seq<StepRecord>)
    ensures forall tool :: tool in FirstUses(steps) <==> exists i :: 0 <= i < |steps| && steps[i].tool == tool
    ensures forall i, j :: 0 <= i < j < |FirstUses(steps)| ==> FirstUses(steps)[i] != FirstUses(steps)[j]
  {
    if steps != [] {
      var n := |steps| - 1;
      FirstUsesAreTheTools(steps[..n]);
      forall tool ensures tool in FirstUses(steps) <==> exists i :: 0 <= i < |steps| && steps[i].tool == tool {
        if i :| 0 <= i < n && steps[i].tool == tool {
          assert steps[..n][i].tool == tool;
        }
      }
    }
  }

  /** The first step that used `tool`, or the number of steps. */
  function FirstUse(steps: seq<StepRecord>, tool: string): (r: nat)
    ensures r <= |steps|
    ensures r < |steps| ==> steps[r].tool == tool
    ensures forall i :: 0 <= i < r ==> steps[i].tool != tool
  {
    if steps == [] then 0
    else
      var before := FirstUse(steps[..|steps| - 1], tool);
      if before < |steps| - 1 || steps[|steps| - 1].tool == tool then before else |steps|
  }

  /** The tools are listed in the order in which they were first used. */
  lemma {:induction false} FirstUsesAreInOrder(steps: seq<StepRecord>, i: nat, j: nat)
    requires i < j < |FirstUses(steps)|
    ensures FirstUse(steps, FirstUses(steps)[i]) < FirstUse(steps, FirstUses(steps)[j]) < |steps|
    decreases |steps|
  {
    var n := |steps| - 1;
    FirstUsesAreTheTools(steps[..n]);
    if j < |FirstUses(steps[..n])| {
      FirstUsesAreInOrder(steps[..n], i, j);
    } else {
      assert FirstUses(steps[..n])[i] in FirstUses(steps[..n]);
      assert FirstUse(steps[..n], FirstUses(steps)[i]) < n;
      assert FirstUse(steps[..n], FirstUses(steps)[j]) == n;
    }
  }

  /** The trailing run is made of failures, and what comes before it, if anything does, succeeded. */
  lemma {:induction false} TrailingAreFailures(steps: seq<StepRecord>)
    ensures var k := TrailingErrors(steps);
      && k <= |steps|
      && (forall i :: |steps| - k <= i < |steps| ==> steps[i].result.Err?)
      && (k < |steps| ==> steps[|steps| - k - 1].result.Ok?)
  {
    if steps != [] && steps[|steps| - 1].result.Err? {
      TrailingAreFailures(steps[..|steps| - 1]);
    }
  }

  /** A stretch of failures that ends at `n` is part of the trailing run there. */
  lemma {:induction false} FailuresTrail(steps: seq<StepRecord>, i: nat, n: nat)
    requires i <= n <= |steps| && forall k :: i <= k < n ==> steps[k].result.Err?
    ensures TrailingErrors(steps[..n]) >= n - i
    decreases n
  {
    if i < n {
      assert steps[..n][..n - 1] == steps[..n - 1];
      FailuresTrail(steps, i, n - 1);
    }
  }

  // ---------- the transcript of whole turns is well formed ----------

  predicate IsAnswer(message: Message, call: ToolCall) {
    message.ToolMessage? && message.callId == call.id && message.name == call.name
  }

  /** Position `p` holds an assistant message answered by the tool messages right behind it. */
  ghost predicate AnsweredAt(messages: seq<Message>, p: int) {
    && 0 <= p < |messages| && messages[p].Assistant?
    && p + |messages[p].toolCalls| < |messages|
    && forall i :: 0 <= i < |messages[p].toolCalls| ==> IsAnswer(messages[p + 1 + i], messages[p].toolCalls[i])
  }

  /** Every message is the question, an assistant message all of whose calls are answered right behind it
      in order, or such an answer. */
  ghost predicate WellFormedMessages(question: string, messages: seq<Message>) {
    && messages != [] && messages[0] == User(question)
    && forall p :: 1 <= p < |messages| ==>
         && !messages[p].User?
         && (messages[p].Assistant? ==> AnsweredAt(messages, p))
         && (messages[p].ToolMessage? ==> exists q :: AnsweredAt(messages, q) && q < p <= q + |messages[q].toolCalls|)
  }

  lemma AnsweredStays(messages: seq<Message>, more: seq<Message>, p: int)
    requires AnsweredAt(messages, p)
    ensures AnsweredAt(messages + more, p)
  {
    var grown := messages + more;
    forall i | 0 <= i < |grown[p].toolCalls| ensures IsAnswer(grown[p + 1 + i], grown[p].toolCalls[i]) {
      assert IsAnswer(messages[p + 1 + i], messages[p].toolCalls[i]);
    }
  }

  lemma {:induction false} WholeTurnsAreWellFormed(question: string, turns: seq<Turn>)
    requires AllWhole(turns)
    ensures WellFormedMessages(question, MessagesOf(question, turns))
  {
    if turns != [] {
      var n := |turns| - 1;
      WholeTurnsAreWellFormed(question, turns[..n]);
      AppendWholeTurn(question, MessagesOf(question, turns[..n]), turns[n]);
      assert MessagesOf(question, turns) == MessagesOf(question, turns[..n]) + TurnMessages(turns[n]);
    }
  }

  function TurnMessages(turn: Turn): seq<Message>
    requires |turn.results| <= |turn.reply.toolCalls|
  {
    [Assistant(turn.reply.content, turn.reply.toolCalls)] + ToolMessages(turn.reply.toolCalls, turn.results)
  }

  lemma AppendWholeTurn(question: string, messages: seq<Message>, turn: Turn)
    requires WellFormedMessages(question, messages) && Whole(turn)
    ensures WellFormedMessages(question, messages + TurnMessages(turn))
  {
    var grown, q := messages + TurnMessages(turn), |messages|;
    assert grown[q].Assistant? && grown[q].toolCalls == turn.reply.toolCalls;
    forall i | 0 <= i < |turn.results|
      ensures grown[q + 1 + i] == ToolMessage(turn.reply.toolCalls[i].id, turn.reply.toolCalls[i].name, turn.results[i])
    {
    }
    assert AnsweredAt(grown, q);
    forall p | 1 <= p < |grown|
      ensures !grown[p].User?
      ensures grown[p].Assistant? ==> AnsweredAt(grown, p)
      ensures grown[p].ToolMessage? ==> exists o :: AnsweredAt(grown, o) && o < p <= o + |grown[o].toolCalls|
    {
      if p < q {
        if messages[p].Assistant? {
          AnsweredStays(messages, TurnMessages(turn), p);
        } else {
          var o :| AnsweredAt(messages, o) && o < p <= o + |messages[o].toolCalls|;
          AnsweredStays(messages, TurnMessages(turn), o);
          assert grown[o] == messages[o];
        }
      } else if p > q {
        assert grown[p] == grown[q + 1 + (p - q - 1)];
      }
    }
  }
}
