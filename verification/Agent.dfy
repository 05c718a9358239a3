/**
 The agent's tool-call loop (agent.rs): asking the provider, running tool calls, suspending at an approval gate and
 resuming after the decision.

 The provider and the tools are arbitrary: their answers may depend on everything that happened before.  `log` lists
 what the agent did to the outside world during one chain of `run` and `resume` calls.
 */
module AgentLoops {
  import opened Names
  import opened JsonValues

  datatype Role = System | User | Assistant | Tool

  datatype ToolCall = ToolCall(id: Name, name: Name, arguments: string)

  datatype ToolResult = ToolResult(callId: Name, ok: bool, output: string)

  datatype Message = Message(role: Role, toolCalls: seq<ToolCall>, toolResult: Option<ToolResult>)

  /**
   The registry, with normalized arguments and the approval requirement, or `None` for the errors; and the caller's
   execution of a tool at a given moment.
   */
  datatype ToolRegistry = ToolRegistry(
    normalize: (Name, string) -> Option<string>,
    requiresApproval: Name -> Option<bool>,
    execute: (nat, Name, string) -> ToolReply)

  datatype ApprovalRequest = ApprovalRequest(callId: Name, toolName: Name, arguments: string, steps: nat)

  datatype ApprovalDecision = Approve | Reject

  datatype Reply = Answer(message: Message) | ProviderError

  datatype ToolReply = Output(text: string) | ToolError(text: string)

  datatype Outcome =
    | Finished(messages: seq<Message>, steps: nat)
    | AwaitingApproval(messages: seq<Message>, pending: ApprovalRequest, steps: nat)
    | MaxStepsExceeded
    | Failed

  /** The call at `position` of message `at` was executed, or the provider was asked with some messages. */
  datatype Event =
    | Executed(at: nat, position: nat, approved: bool, arguments: string, when: nat, reply: ToolReply)
    | Asked(messages: seq<Message>)

  predicate Calling(m: Message) {
    m.role == Assistant && |m.toolCalls| > 0
  }

  predicate IsResultFor(m: Message, id: Name) {
    m.toolResult.Some? && m.toolResult.value.callId == id
  }

  /** Some message after `at` carries a result for the id. */
  ghost predicate Answered(messages: seq<Message>, at: nat, id: Name) {
    exists j :: at < j < |messages| && IsResultFor(messages[j], id)
  }

  ghost predicate CallsAnswered(messages: seq<Message>, at: nat)
    requires at < |messages|
  {
    forall c :: c in messages[at].toolCalls ==> Answered(messages, at, c.id)
  }

  /** Every tool-calling assistant message from `base` on has all its calls answered, `except` one perhaps. */
  ghost predicate AnsweredFrom(messages: seq<Message>, base: nat, except: int) {
    forall i: nat :: base <= i < |messages| && Calling(messages[i]) && i != except ==> CallsAnswered(messages, i)
  }

  predicate Gated(tools: ToolRegistry, name: Name) {
    tools.requiresApproval(name) == Some(true)
  }

  /**
   The arguments a call is executed with, `None` when it must fail instead.  An approved call's normalized arguments are
   normalized once more on resuming.
   */
  function RunArguments(tools: ToolRegistry, call: ToolCall): Option<string> {
    match (tools.normalize(call.name, call.arguments), tools.requiresApproval(call.name))
    case (Some(arguments), Some(false)) => Some(arguments)
    case (Some(arguments), Some(true)) => tools.normalize(call.name, arguments)
    case _ => None
  }

  function ResultOf(id: Name, reply: ToolReply): ToolResult {
    match reply
    case Output(text) => ToolResult(id, true, text)
    case ToolError(text) => ToolResult(id, false, text)
  }

  /** Some message after `at` carries exactly this result. */
  ghost predicate HasResult(messages: seq<Message>, at: nat, result: ToolResult) {
    exists j :: at < j < |messages| && messages[j].toolResult == Some(result)
  }

  /** Some message after `at` tells the model that the call failed. */
  ghost predicate ToldFailed(messages: seq<Message>, at: nat, id: Name) {
    exists j :: at < j < |messages| && IsResultFor(messages[j], id) && !messages[j].toolResult.value.ok
  }

  /** The execution was of this call, with its arguments, and was approved if the call is gated. */
  predicate Proper(tools: ToolRegistry, call: ToolCall, e: Event)
    requires e.Executed?
  {
    && RunArguments(tools, call) == Some(e.arguments)
    && e.reply == tools.execute(e.when, call.name, e.arguments)
    && (Gated(tools, call.name) ==> e.approved)
  }

  /** Executed calls exist, were executed properly, and their outcome is in the conversation. */
  ghost predicate ExecutionsSound(tools: ToolRegistry, messages: seq<Message>, log: seq<Event>) {
    forall e :: e in log && e.Executed? ==>
      && e.at < |messages| && e.position < |messages[e.at].toolCalls|
      && HasResult(messages, e.at, ResultOf(messages[e.at].toolCalls[e.position].id, e.reply))
      && Proper(tools, messages[e.at].toolCalls[e.position], e)
  }

  ghost predicate WasExecuted(log: seq<Event>, at: nat, position: nat) {
    exists e :: e in log && e.Executed? && e.at == at && e.position == position
  }

  /** No call is executed twice. */
  ghost predicate ExecutedOnce(log: seq<Event>) {
    forall i, j :: 0 <= i < j < |log| && log[i].Executed? && log[j].Executed? ==>
      log[i].at != log[j].at || log[i].position != log[j].position
  }

  /** Whenever the provider was asked, every tool call since `base` had its result. */
  ghost predicate AskedWhenAnswered(log: seq<Event>, base: nat) {
    forall e :: e in log && e.Asked? ==> AnsweredFrom(e.messages, base, -1)
  }

  ghost function AskCount(log: seq<Event>): nat {
    if |log| == 0 then 0 else AskCount(log[..|log| - 1]) + if log[|log| - 1].Asked? then 1 else 0
  }

  /** One tool call of the conversation: its message and its position in it. */
  datatype CallSite = CallSite(at: nat, position: nat)

  /** The refused calls have their refusal as result and were not executed. */
  ghost predicate RefusalsKept(messages: seq<Message>, log: seq<Event>, refused: set<CallSite>) {
    forall c :: c in refused ==>
      && c.at < |messages| && c.position < |messages[c.at].toolCalls|
      && ToldFailed(messages, c.at, messages[c.at].toolCalls[c.position].id)
      && !WasExecuted(log, c.at, c.position)
  }

  predicate DistinctCallIds(m: Message) {
    forall p, q :: 0 <= p < q < |m.toolCalls| ==> m.toolCalls[p].id != m.toolCalls[q].id
  }

  /** A call that must be run, was not refused and has a result, has been executed. */
  ghost predicate AnswerEarned(tools: ToolRegistry, messages: seq<Message>, log: seq<Event>, refused: set<CallSite>,
                               at: nat, position: nat)
    requires at < |messages| && position < |messages[at].toolCalls|
  {
    var call := messages[at].toolCalls[position];
    Answered(messages, at, call.id) && RunArguments(tools, call).Some? && CallSite(at, position) !in refused ==>
      WasExecuted(log, at, position)
  }

  /** No call of this chain with an id of its own was answered without being run. */
  ghost predicate Earned(tools: ToolRegistry, messages: seq<Message>, log: seq<Event>, base: nat,
                         refused: set<CallSite>) {
    forall i: nat, p: nat ::
      base <= i < |messages| && Calling(messages[i]) && DistinctCallIds(messages[i]) && p < |messages[i].toolCalls| ==>
        AnswerEarned(tools, messages, log, refused, i, p)
  }

  /** What every point of a chain satisfies. */
  ghost predicate ChainSound(tools: ToolRegistry, messages: seq<Message>, log: seq<Event>, base: nat,
                             refused: set<CallSite>) {
    && ExecutionsSound(tools, messages, log) && ExecutedOnce(log) && AskedWhenAnswered(log, base)
    && RefusalsKept(messages, log, refused) && Earned(tools, messages, log, base, refused)
  }

  ghost predicate IsLastCalling(messages: seq<Message>, at: nat) {
    && at < |messages| && Calling(messages[at])
    && forall i :: at < i < |messages| ==> !Calling(messages[i])
  }

  /**
   The chain stopped at the gate of the call at `position` of message `at`, which has not been executed; every call
   before it has its result.
   */
  ghost predicate Suspended(tools: ToolRegistry, messages: seq<Message>, log: seq<Event>, base: nat,
                            refused: set<CallSite>, pending: ApprovalRequest, at: nat, position: nat) {
    && IsLastCalling(messages, at) && position < |messages[at].toolCalls|
    && pending.callId == messages[at].toolCalls[position].id
    && pending.toolName == messages[at].toolCalls[position].name
    && Gated(tools, pending.toolName)
    && tools.normalize(pending.toolName, messages[at].toolCalls[position].arguments) == Some(pending.arguments)
    && !WasExecuted(log, at, position)
    && (forall q :: 0 <= q < position ==> Answered(messages, at, messages[at].toolCalls[q].id))
    && AnsweredFrom(messages, base, at)
    && ChainSound(tools, messages, log, base, refused)
    && AskCount(log) == pending.steps
  }

  // ---- growing a conversation ----

  lemma StillAnswered(messages: seq<Message>, m: Message, at: nat, id: Name)
    requires Answered(messages, at, id)
    ensures Answered(messages + [m], at, id)
  {
    var j :| at < j < |messages| && IsResultFor(messages[j], id);
    assert (messages + [m])[j] == messages[j];
  }

  lemma AppendKeepsAnswers(messages: seq<Message>, m: Message, base: nat, except: int)
    requires AnsweredFrom(messages, base, except)
    ensures AnsweredFrom(messages + [m], base, if Calling(m) && except == -1 then |messages| else except)
            || (Calling(m) && except != -1)
  {
    if !Calling(m) || except == -1 {
      forall i: nat | base <= i < |messages| && Calling(messages[i]) && i != except
        ensures CallsAnswered(messages + [m], i)
      {
        forall c | c in messages[i].toolCalls ensures Answered(messages + [m], i, c.id) {
          assert CallsAnswered(messages, i);
          StillAnswered(messages, m, i, c.id);
        }
      }
    }
  }

  lemma HasResultAnswers(messages: seq<Message>, at: nat, result: ToolResult)
    requires HasResult(messages, at, result)
    ensures Answered(messages, at, result.callId)
  {
    var j :| at < j < |messages| && messages[j].toolResult == Some(result);
    assert IsResultFor(messages[j], result.callId);
  }

  lemma ToldFailedAnswers(messages: seq<Message>, at: nat, id: Name)
    requires ToldFailed(messages, at, id)
    ensures Answered(messages, at, id)
  {
  }

  lemma AppendKeepsExecutions(tools: ToolRegistry, messages: seq<Message>, m: Message, log: seq<Event>)
    requires ExecutionsSound(tools, messages, log)
    ensures ExecutionsSound(tools, messages + [m], log)
  {
    forall e | e in log && e.Executed?
      ensures e.at < |messages + [m]| && e.position < |(messages + [m])[e.at].toolCalls|
      ensures HasResult(messages + [m], e.at, ResultOf((messages + [m])[e.at].toolCalls[e.position].id, e.reply))
      ensures Proper(tools, (messages + [m])[e.at].toolCalls[e.position], e)
    {
      var result := ResultOf(messages[e.at].toolCalls[e.position].id, e.reply);
      var j :| e.at < j < |messages| && messages[j].toolResult == Some(result);
      assert (messages + [m])[j] == messages[j];
    }
  }

  lemma AppendKeepsRefusals(messages: seq<Message>, m: Message, log: seq<Event>, refused: set<CallSite>)
    requires RefusalsKept(messages, log, refused)
    ensures RefusalsKept(messages + [m], log, refused)
  {
    forall c | c in refused
      ensures c.at < |messages + [m]| && c.position < |(messages + [m])[c.at].toolCalls|
      ensures ToldFailed(messages + [m], c.at, (messages + [m])[c.at].toolCalls[c.position].id)
    {
      var id := messages[c.at].toolCalls[c.position].id;
      var j :| c.at < j < |messages| && IsResultFor(messages[j], id) && !messages[j].toolResult.value.ok;
      assert (messages + [m])[j] == messages[j];
    }
  }

  /** A message appended when every call has its result answers nothing new. */
  lemma AskKeepsEarned(tools: ToolRegistry, messages: seq<Message>, m: Message, log: seq<Event>, base: nat,
                       refused: set<CallSite>)
    requires Earned(tools, messages, log, base, refused) && AnsweredFrom(messages, base, -1)
    ensures Earned(tools, messages + [m], log, base, refused)
  {
    var after := messages + [m];
    forall i: nat, p: nat | base <= i < |after| && Calling(after[i]) && DistinctCallIds(after[i])
        && p < |after[i].toolCalls|
      ensures AnswerEarned(tools, after, log, refused, i, p)
    {
      if i < |messages| {
        assert after[i] == messages[i] && CallsAnswered(messages, i);
        assert AnswerEarned(tools, messages, log, refused, i, p);
        assert messages[i].toolCalls[p] in messages[i].toolCalls;
      }
    }
  }

  /** A result appended for call `k` of the open message is earned if call `k` is settled by then. */
  lemma AnswerKeepsEarned(tools: ToolRegistry, messages: seq<Message>, m: Message, log: seq<Event>, log': seq<Event>,
                          base: nat, refused: set<CallSite>, refused': set<CallSite>, at: nat, k: nat)
    requires Earned(tools, messages, log, base, refused) && AnsweredFrom(messages, base, at) && !Calling(m)
    requires at < |messages| && k < |messages[at].toolCalls| && IsResultFor(m, messages[at].toolCalls[k].id)
    requires refused <= refused' && forall a, p :: WasExecuted(log, a, p) ==> WasExecuted(log', a, p)
    requires RunArguments(tools, messages[at].toolCalls[k]).None? || CallSite(at, k) in refused'
             || WasExecuted(log', at, k)
    ensures Earned(tools, messages + [m], log', base, refused')
  {
    var after := messages + [m];
    forall i: nat, p: nat | base <= i < |after| && Calling(after[i]) && DistinctCallIds(after[i])
        && p < |after[i].toolCalls|
      ensures AnswerEarned(tools, after, log', refused', i, p)
    {
      assert i < |messages| && after[i] == messages[i];
      assert AnswerEarned(tools, messages, log, refused, i, p);
      var call := messages[i].toolCalls[p];
      if i != at {
        assert CallsAnswered(messages, i) && call in messages[i].toolCalls;
      } else if p != k && Answered(after, at, call.id) {
        assert call.id != messages[at].toolCalls[k].id;
        var j :| at < j < |after| && IsResultFor(after[j], call.id);
        assert j < |messages| && messages[j] == after[j];
      }
    }
  }

  lemma LogExecution(log: seq<Event>, e: Event)
    requires e.Executed? && ExecutedOnce(log) && !WasExecuted(log, e.at, e.position)
    ensures ExecutedOnce(log + [e]) && AskCount(log + [e]) == AskCount(log)
    ensures forall a, p :: WasExecuted(log + [e], a, p)
                           <==> WasExecuted(log, a, p) || (a == e.at && p == e.position)
  {
    forall i | 0 <= i < |log| && log[i].Executed? ensures log[i].at != e.at || log[i].position != e.position {
      assert log[i] in log;
    }
    assert (log + [e])[..|log|] == log;
    forall a, p | WasExecuted(log, a, p) ensures WasExecuted(log + [e], a, p) {
      var f :| f in log && f.Executed? && f.at == a && f.position == p;
      assert f in log + [e];
    }
    assert e in log + [e];
  }

  /** A failure result for a call that cannot be run, or that the user refused. */
  lemma FailStep(tools: ToolRegistry, messages: seq<Message>, log: seq<Event>, base: nat, refused: set<CallSite>,
                 refused': set<CallSite>, at: nat, k: nat, m: Message)
    requires ChainSound(tools, messages, log, base, refused) && AnsweredFrom(messages, base, at) && !Calling(m)
    requires at < |messages| && k < |messages[at].toolCalls| && IsResultFor(m, messages[at].toolCalls[k].id)
    requires !m.toolResult.value.ok
    requires (refused' == refused && RunArguments(tools, messages[at].toolCalls[k]).None?)
             || (refused' == refused + {CallSite(at, k)} && !WasExecuted(log, at, k))
    ensures ChainSound(tools, messages + [m], log, base, refused')
  {
    AppendKeepsExecutions(tools, messages, m, log);
    AppendKeepsRefusals(messages, m, log, refused);
    AnswerKeepsEarned(tools, messages, m, log, log, base, refused, refused', at, k);
    var after := messages + [m];
    assert after[|messages|] == m && after[at] == messages[at];
    assert ToldFailed(after, at, messages[at].toolCalls[k].id);
  }

  /** An execution of a call that is neither executed nor refused is logged, and its result appended. */
  lemma ExecuteStep(tools: ToolRegistry, messages: seq<Message>, log: seq<Event>, base: nat, refused: set<CallSite>,
                    e: Event, m: Message)
    requires ChainSound(tools, messages, log, base, refused) && e.Executed? && !WasExecuted(log, e.at, e.position)
    requires e.at < |messages| && e.position < |messages[e.at].toolCalls| && CallSite(e.at, e.position) !in refused
    requires AnsweredFrom(messages, base, e.at) && Proper(tools, messages[e.at].toolCalls[e.position], e)
    requires m == ToolResultMessage(ResultOf(messages[e.at].toolCalls[e.position].id, e.reply))
    ensures ChainSound(tools, messages + [m], log + [e], base, refused)
    ensures AskCount(log + [e]) == AskCount(log)
  {
    AppendKeepsExecutions(tools, messages, m, log);
    AppendKeepsRefusals(messages, m, log, refused);
    LogExecution(log, e);
    AnswerKeepsEarned(tools, messages, m, log, log + [e], base, refused, refused, e.at, e.position);
    var after := messages + [m];
    assert after[|messages|] == m && after[e.at] == messages[e.at];
    assert HasResult(after, e.at, ResultOf(messages[e.at].toolCalls[e.position].id, e.reply));
  }

  lemma AskStep(tools: ToolRegistry, messages: seq<Message>, log: seq<Event>, base: nat, refused: set<CallSite>,
                reply: Message)
    requires ChainSound(tools, messages, log, base, refused) && AnsweredFrom(messages, base, -1)
    ensures ChainSound(tools, messages + [reply], log + [Asked(messages)], base, refused)
    ensures AskCount(log + [Asked(messages)]) == AskCount(log) + 1
  {
    AskLogged(tools, messages, log, base, refused);
    AppendKeepsExecutions(tools, messages, reply, log + [Asked(messages)]);
    AppendKeepsRefusals(messages, reply, log + [Asked(messages)], refused);
    AskKeepsEarned(tools, messages, reply, log + [Asked(messages)], base, refused);
  }

  lemma AskLogged(tools: ToolRegistry, messages: seq<Message>, log: seq<Event>, base: nat, refused: set<CallSite>)
    requires ChainSound(tools, messages, log, base, refused) && AnsweredFrom(messages, base, -1)
    ensures ChainSound(tools, messages, log + [Asked(messages)], base, refused)
    ensures AskCount(log + [Asked(messages)]) == AskCount(log) + 1
  {
    var log' := log + [Asked(messages)];
    assert log'[..|log|] == log;
    forall i, j | 0 <= i < j < |log'| && log'[i].Executed? && log'[j].Executed?
      ensures log'[i].at != log'[j].at || log'[i].position != log'[j].position {
      assert log'[i] == log[i] && log'[j] == log[j];
    }
    forall a, p ensures WasExecuted(log', a, p) <==> WasExecuted(log, a, p) {
      if WasExecuted(log, a, p) {
        var e :| e in log && e.Executed? && e.at == a && e.position == p;
        assert e in log';
      }
    }
    forall i: nat, p: nat |
        base <= i < |messages| && Calling(messages[i]) && DistinctCallIds(messages[i]) && p < |messages[i].toolCalls|
      ensures AnswerEarned(tools, messages, log', refused, i, p)
    {
      assert AnswerEarned(tools, messages, log, refused, i, p);
    }
  }

  /**
   In a message with distinct call ids whose calls all have results, the executed calls are exactly those with valid
   arguments and a known tool that the user did not refuse.
   */
  lemma ExecutedIff(tools: ToolRegistry, messages: seq<Message>, log: seq<Event>, base: nat, except: int,
                    refused: set<CallSite>, i: nat, p: nat)
    requires ChainSound(tools, messages, log, base, refused) && AnsweredFrom(messages, base, except)
    requires base <= i < |messages| && i != except && Calling(messages[i]) && DistinctCallIds(messages[i])
    requires p < |messages[i].toolCalls|
    ensures WasExecuted(log, i, p)
       <==> RunArguments(tools, messages[i].toolCalls[p]).Some? && CallSite(i, p) !in refused
  {
    assert CallsAnswered(messages, i) && messages[i].toolCalls[p] in messages[i].toolCalls;
    assert AnswerEarned(tools, messages, log, refused, i, p);
  }

  /** With distinct call ids in each message, no call id of a message is executed twice. */
  lemma OncePerCallId(tools: ToolRegistry, messages: seq<Message>, log: seq<Event>, i: nat, j: nat)
    requires ExecutionsSound(tools, messages, log) && ExecutedOnce(log)
    requires i < j < |log| && log[i].Executed? && log[j].Executed? && log[i].at == log[j].at
    requires DistinctCallIds(messages[log[i].at])
    ensures messages[log[i].at].toolCalls[log[i].position].id != messages[log[i].at].toolCalls[log[j].position].id
  {
    assert log[i] in log && log[j] in log;
  }

  function ToolResultMessage(result: ToolResult): Message {
    Message(Tool, [], Some(result))
  }

  /** The executed calls of message `at` come before `k`, or have a result from before this pass. */
  ghost predicate PassedBefore(messages: seq<Message>, log: seq<Event>, at: nat, k: nat, completed: set<Name>) {
    forall e :: e in log && e.Executed? && e.at == at ==>
      e.position < k || (at < |messages| && e.position < |messages[at].toolCalls|
                         && messages[at].toolCalls[e.position].id in completed)
  }

  /** The ids with a result after message `at`. */
  function Completed(messages: seq<Message>, at: nat): set<Name> {
    set j | at < j < |messages| && messages[j].toolResult.Some? :: messages[j].toolResult.value.callId
  }

  lemma CompletedMeaning(messages: seq<Message>, at: nat, id: Name)
    ensures id in Completed(messages, at) <==> Answered(messages, at, id)
  {
  }

  lemma NotYetExecuted(messages: seq<Message>, log: seq<Event>, at: nat, k: nat, completed: set<Name>)
    requires PassedBefore(messages, log, at, k, completed)
    requires at < |messages| && k < |messages[at].toolCalls| && messages[at].toolCalls[k].id !in completed
    ensures !WasExecuted(log, at, k)
  {
  }

  lemma BeginPass(tools: ToolRegistry, messages: seq<Message>, log: seq<Event>, at: nat)
    requires ExecutionsSound(tools, messages, log)
    ensures PassedBefore(messages, log, at, 0, Completed(messages, at))
  {
    forall e | e in log && e.Executed? && e.at == at
      ensures at < |messages| && e.position < |messages[at].toolCalls|
      ensures messages[at].toolCalls[e.position].id in Completed(messages, at)
    {
      HasResultAnswers(messages, at, ResultOf(messages[at].toolCalls[e.position].id, e.reply));
      CompletedMeaning(messages, at, messages[at].toolCalls[e.position].id);
    }
  }

  /** What one pass over the calls of message `at` has established before its `k`-th call. */
  ghost predicate MidPass(tools: ToolRegistry, history: seq<Message>, messages: seq<Message>, log: seq<Event>,
                          base: nat, refused: set<CallSite>, at: nat, k: nat)
  {
    && at < |history| <= |messages| && messages[..|history|] == history
    && IsLastCalling(messages, at) && k <= |messages[at].toolCalls|
    && AnsweredFrom(messages, base, at) && ChainSound(tools, messages, log, base, refused)
    && PassedBefore(messages, log, at, k, Completed(history, at))
    && (forall j :: 0 <= j < k ==> Answered(messages, at, messages[at].toolCalls[j].id))
    && (forall c :: c in refused && c.at == at && c.at < |history| && c.position < |history[c.at].toolCalls| ==>
          history[c.at].toolCalls[c.position].id in Completed(history, at))
  }

  lemma StartPass(tools: ToolRegistry, history: seq<Message>, log: seq<Event>, base: nat, refused: set<CallSite>,
                  at: nat)
    requires IsLastCalling(history, at) && AnsweredFrom(history, base, at)
             && ChainSound(tools, history, log, base, refused)
    ensures MidPass(tools, history, history, log, base, refused, at, 0)
  {
    BeginPass(tools, history, log, at);
    assert history[..|history|] == history;
    forall c | c in refused && c.at == at && c.at < |history| && c.position < |history[c.at].toolCalls|
      ensures history[c.at].toolCalls[c.position].id in Completed(history, at)
    {
      ToldFailedAnswers(history, at, history[c.at].toolCalls[c.position].id);
      CompletedMeaning(history, at, history[c.at].toolCalls[c.position].id);
    }
  }

  /** Skipping a call that already had its result. */
  lemma SkipCall(tools: ToolRegistry, history: seq<Message>, messages: seq<Message>, log: seq<Event>, base: nat,
                 refused: set<CallSite>, at: nat, k: nat)
    requires MidPass(tools, history, messages, log, base, refused, at, k) && k < |messages[at].toolCalls|
    requires messages[at].toolCalls[k].id in Completed(history, at)
    ensures MidPass(tools, history, messages, log, base, refused, at, k + 1)
  {
    var id := messages[at].toolCalls[k].id;
    CompletedMeaning(history, at, id);
    var j :| at < j < |history| && IsResultFor(history[j], id);
    assert messages[j] == messages[..|history|][j];
  }

  /** Appending the result of the `k`-th call, with or without an execution before it. */
  lemma AnswerCall(tools: ToolRegistry, history: seq<Message>, messages: seq<Message>, log: seq<Event>,
                   log': seq<Event>, base: nat, refused: set<CallSite>, at: nat, k: nat, m: Message)
    requires MidPass(tools, history, messages, log, base, refused, at, k) && k < |messages[at].toolCalls|
    requires IsResultFor(m, messages[at].toolCalls[k].id) && !Calling(m)
    requires log' == log || exists e: Event :: e.Executed? && e.at == at && e.position == k && log' == log + [e]
    requires ChainSound(tools, messages + [m], log', base, refused)
    ensures MidPass(tools, history, messages + [m], log', base, refused, at, k + 1)
  {
    var after := messages + [m];
    AppendKeepsAnswers(messages, m, base, at);
    assert after[at] == messages[at] && after[|messages|] == m;
    assert after[..|history|] == messages[..|history|];
    forall j | 0 <= j < k + 1 ensures Answered(after, at, after[at].toolCalls[j].id) {
      if j < k {
        StillAnswered(messages, m, at, messages[at].toolCalls[j].id);
      }
    }
  }

  /** The first unanswered call of the pass that has a gate is neither executed nor refused. */
  lemma CallIsOpen(tools: ToolRegistry, history: seq<Message>, messages: seq<Message>, log: seq<Event>, base: nat,
                   refused: set<CallSite>, at: nat, k: nat)
    requires MidPass(tools, history, messages, log, base, refused, at, k) && k < |messages[at].toolCalls|
    requires messages[at].toolCalls[k].id !in Completed(history, at)
    ensures !WasExecuted(log, at, k) && CallSite(at, k) !in refused
  {
    NotYetExecuted(messages, log, at, k, Completed(history, at));
    assert messages[at] == messages[..|history|][at];
  }

  lemma EndPass(tools: ToolRegistry, history: seq<Message>, messages: seq<Message>, log: seq<Event>, base: nat,
                refused: set<CallSite>, at: nat)
    requires at < |history| && MidPass(tools, history, messages, log, base, refused, at, |history[at].toolCalls|)
    ensures AnsweredFrom(messages, base, -1)
  {
    assert messages[at] == messages[..|history|][at];
    forall c | c in messages[at].toolCalls ensures Answered(messages, at, c.id) {
      var j :| 0 <= j < |messages[at].toolCalls| && messages[at].toolCalls[j] == c;
    }
  }

  lemma OnlyTheLastIsOpen(messages: seq<Message>, base: nat, except: int, at: nat)
    requires AnsweredFrom(messages, base, except) && (except == -1 || except == at)
    ensures AnsweredFrom(messages, base, at)
  {
  }

  class Agent {
    const tools: ToolRegistry
    const maxSteps: nat
    const provider: (nat, seq<Message>) -> Reply
    ghost var log: seq<Event>
    var clock: nat  // external actions so far; the provider and the tools may depend on it

    constructor (tools: ToolRegistry, maxSteps: nat, provider: (nat, seq<Message>) -> Reply)
      ensures log == []
    {
      this.tools, this.maxSteps, this.provider := tools, maxSteps, provider;
      log, clock := [], 0;
    }

    /** The conversation handed back continues the one handed in. */
    static predicate Continues(outcome: Outcome, history: seq<Message>) {
      outcome.Finished? || outcome.AwaitingApproval? ==> history <= outcome.messages
    }

    /**
     What a chain may rely on when a call returns, with an error too: everything done so far was sound for the
     conversation at that point, even where that conversation is not handed back.
     */
    ghost predicate Delivers(outcome: Outcome, base: nat, refused: set<CallSite>)
      reads this
    {
      && AskCount(log) <= maxSteps
      && (exists messages :: ChainSound(tools, messages, log, base, refused))
      && (outcome.MaxStepsExceeded? ==> AskCount(log) == maxSteps)
      && (outcome.Finished? ==>
            ChainSound(tools, outcome.messages, log, base, refused) && AnsweredFrom(outcome.messages, base, -1)
            && AskCount(log) == outcome.steps)
      && (outcome.AwaitingApproval? ==>
            && outcome.pending.steps <= maxSteps
            && exists at, position ::
                 Suspended(tools, outcome.messages, log, base, refused, outcome.pending, at, position)
                 && CallSite(at, position) !in refused)
    }

    /** Starts a chain; calls the caller's own history left open are not the chain's concern. */
    method Run(history: seq<Message>) returns (outcome: Outcome)
      modifies this
      ensures Delivers(outcome, |history|, {}) && Continues(outcome, history)
    {
      log := [];
      outcome := Drive(history, 0, |history|, {});
    }

    /** Continues a suspended chain with the decision on its pending call. */
    method Resume(history: seq<Message>, decision: ApprovalDecision, pending: ApprovalRequest,
                  ghost base: nat, ghost refused: set<CallSite>, ghost at: nat, ghost position: nat)
      returns (outcome: Outcome)
      requires Suspended(tools, history, log, base, refused, pending, at, position) && pending.steps <= maxSteps
      requires CallSite(at, position) !in refused
      modifies this
      ensures Delivers(outcome, base, if decision == Reject then refused + {CallSite(at, position)} else refused)
      ensures Continues(outcome, history)
    {
      ghost var refused' := if decision == Reject then refused + {CallSite(at, position)} else refused;
      var messages := Decide(history, decision, pending, base, refused, at, position);
      var request;
      messages, request := ProcessCurrentCalls(messages, pending.steps, base, refused', at);
      if request.Some? {
        return AwaitingApproval(messages, request.value, pending.steps);
      }
      outcome := Drive(messages, pending.steps, base, refused');
    }

    /** Executes the pending call if it was approved, and appends its result or the refusal. */
    method Decide(history: seq<Message>, decision: ApprovalDecision, pending: ApprovalRequest,
                  ghost base: nat, ghost refused: set<CallSite>, ghost at: nat, ghost position: nat)
      returns (messages: seq<Message>)
      requires Suspended(tools, history, log, base, refused, pending, at, position)
      requires CallSite(at, position) !in refused
      modifies this
      ensures IsLastCalling(messages, at) && AnsweredFrom(messages, base, at) && AskCount(log) == pending.steps
      ensures ChainSound(tools, messages, log, base,
                         if decision == Reject then refused + {CallSite(at, position)} else refused)
      ensures |messages| == |history| + 1 && messages[..|history|] == history
      ensures IsResultFor(messages[|history|], pending.callId)
      ensures decision == Approve && tools.normalize(pending.toolName, pending.arguments).Some? ==>
                WasExecuted(log, at, position)
      ensures decision == Reject || tools.normalize(pending.toolName, pending.arguments).None? ==>
                !WasExecuted(log, at, position) && !messages[|history|].toolResult.value.ok
    {
      if decision == Reject {
        messages := Refuse(history, ToolResult(pending.callId, false, "tool call denied by user"), base, refused,
                           refused + {CallSite(at, position)}, at, position);
        return;
      }
      match tools.normalize(pending.toolName, pending.arguments)
      case Some(arguments) =>
        messages := RunCall(history, base, refused, at, position, pending.callId, pending.toolName, arguments, true);
      case None =>
        messages := Refuse(history, ToolResult(pending.callId, false, "invalid arguments"), base, refused, refused,
                           at, position);
    }

    /** Appends a failure result for a call that cannot be run or that the user refused. */
    method Refuse(history: seq<Message>, result: ToolResult, ghost base: nat, ghost refused: set<CallSite>,
                  ghost refused': set<CallSite>, ghost at: nat, ghost k: nat) returns (messages: seq<Message>)
      requires IsLastCalling(history, at) && k < |history[at].toolCalls|
      requires ChainSound(tools, history, log, base, refused) && AnsweredFrom(history, base, at)
      requires result.callId == history[at].toolCalls[k].id && !result.ok
      requires (refused' == refused && RunArguments(tools, history[at].toolCalls[k]).None?)
               || (refused' == refused + {CallSite(at, k)} && !WasExecuted(log, at, k))
      ensures ChainSound(tools, messages, log, base, refused') && messages == history + [ToolResultMessage(result)]
      ensures IsLastCalling(messages, at) && AnsweredFrom(messages, base, at)
    {
      var m := ToolResultMessage(result);
      FailStep(tools, history, log, base, refused, refused', at, k, m);
      AppendKeepsAnswers(history, m, base, at);
      messages := history + [m];
      assert messages[at] == history[at];
    }

    /** Executes a call and appends its result. */
    method RunCall(history: seq<Message>, ghost base: nat, ghost refused: set<CallSite>, ghost at: nat, ghost k: nat,
                   id: Name, name: Name, arguments: string, ghost approved: bool) returns (messages: seq<Message>)
      requires IsLastCalling(history, at) && k < |history[at].toolCalls|
      requires id == history[at].toolCalls[k].id && name == history[at].toolCalls[k].name
      requires ChainSound(tools, history, log, base, refused) && AnsweredFrom(history, base, at)
      requires RunArguments(tools, history[at].toolCalls[k]) == Some(arguments) && (Gated(tools, name) ==> approved)
      requires !WasExecuted(log, at, k) && CallSite(at, k) !in refused
      modifies this
      ensures |log| == |old(log)| + 1 && log[..|old(log)|] == old(log) && log[|old(log)|].Executed?
      ensures log[|old(log)|].at == at && log[|old(log)|].position == k
      ensures AskCount(log) == AskCount(old(log)) && ChainSound(tools, messages, log, base, refused)
      ensures |messages| == |history| + 1 && messages == history + [messages[|history|]]
      ensures IsResultFor(messages[|history|], id) && !Calling(messages[|history|])
      ensures IsLastCalling(messages, at) && AnsweredFrom(messages, base, at)
    {
      var reply := tools.execute(clock, name, arguments);
      ghost var e := Executed(at, k, approved, arguments, clock, reply);
      var m := ToolResultMessage(ResultOf(id, reply));
      ExecuteStep(tools, history, log, base, refused, e, m);
      AppendKeepsAnswers(history, m, base, at);
      clock, log := clock + 1, log + [e];
      messages := history + [m];
      assert messages[at] == history[at];
    }

    /**
     Works through the calls of the last tool-calling message that had no result when the pass began: invalid ones fail,
     ungated ones are executed, and the first gated one stops the pass.
     */
    method ProcessCurrentCalls(history: seq<Message>, steps: nat, ghost base: nat, ghost refused: set<CallSite>,
                               ghost except: int)
      returns (messages: seq<Message>, request: Option<ApprovalRequest>)
      requires ChainSound(tools, history, log, base, refused) && AnsweredFrom(history, base, except)
      requires except == -1 || (except >= 0 && IsLastCalling(history, except))
      requires AskCount(log) == steps
      modifies this
      ensures AskCount(log) == steps
      ensures request.None? ==> ChainSound(tools, messages, log, base, refused) && AnsweredFrom(messages, base, -1)
      ensures request.Some? ==>
                request.value.steps == steps && exists at, position ::
                  Suspended(tools, messages, log, base, refused, request.value, at, position)
                  && CallSite(at, position) !in refused
      ensures history <= messages
    {
      messages := history;
      var at := |history|;
      while at > 0 && !Calling(history[at - 1])
        invariant 0 <= at <= |history|
        invariant forall i :: at <= i < |history| ==> !Calling(history[i])
      {
        at := at - 1;
      }
      if at == 0 {
        return messages, None;
      }
      at := at - 1;
      OnlyTheLastIsOpen(history, base, except, at);
      var completed := Completed(history, at);
      var calls := history[at].toolCalls;
      StartPass(tools, history, log, base, refused, at);
      for k := 0 to |calls|
        invariant MidPass(tools, history, messages, log, base, refused, at, k)
        invariant AskCount(log) == steps
      {
        assert messages[at] == messages[..|history|][at];
        if calls[k].id in completed {
          SkipCall(tools, history, messages, log, base, refused, at, k);
        } else {
          CallIsOpen(tools, history, messages, log, base, refused, at, k);
          match (tools.normalize(calls[k].name, calls[k].arguments), tools.requiresApproval(calls[k].name))
          case (None, _) =>
            messages := Answer(history, messages, base, refused, at, k, ToolResult(calls[k].id, false, "invalid"));
          case (Some(arguments), Some(true)) =>
            request := Some(ApprovalRequest(calls[k].id, calls[k].name, arguments, steps));
            assert Suspended(tools, messages, log, base, refused, request.value, at, k);
            return messages, request;
          case (Some(arguments), Some(false)) =>
            messages := Execute(history, messages, base, refused, at, k, calls[k], arguments);
          case (Some(arguments), None) =>
            messages := Answer(history, messages, base, refused, at, k, ToolResult(calls[k].id, false, "unknown"));
        }
      }
      EndPass(tools, history, messages, log, base, refused, at);
      return messages, None;
    }

    /** Appends a failure result for the `k`-th call, which cannot be run. */
    method Answer(ghost history: seq<Message>, messages: seq<Message>, ghost base: nat, ghost refused: set<CallSite>,
                  ghost at: nat, ghost k: nat, result: ToolResult)
      returns (messages': seq<Message>)
      requires MidPass(tools, history, messages, log, base, refused, at, k) && k < |messages[at].toolCalls|
      requires result.callId == messages[at].toolCalls[k].id && !result.ok
      requires RunArguments(tools, messages[at].toolCalls[k]).None?
      ensures MidPass(tools, history, messages', log, base, refused, at, k + 1)
    {
      messages' := Refuse(messages, result, base, refused, refused, at, k);
      AnswerCall(tools, history, messages, log, log, base, refused, at, k, ToolResultMessage(result));
    }

    /** Executes the `k`-th call, which has no gate, and appends its result. */
    method Execute(ghost history: seq<Message>, messages: seq<Message>, ghost base: nat, ghost refused: set<CallSite>,
                   ghost at: nat, ghost k: nat, call: ToolCall, arguments: string)
      returns (messages': seq<Message>)
      requires MidPass(tools, history, messages, log, base, refused, at, k) && k < |messages[at].toolCalls|
      requires call == messages[at].toolCalls[k] && !Gated(tools, call.name)
      requires RunArguments(tools, call) == Some(arguments)
      requires !WasExecuted(log, at, k) && CallSite(at, k) !in refused
      modifies this
      ensures MidPass(tools, history, messages', log, base, refused, at, k + 1)
      ensures AskCount(log) == AskCount(old(log))
    {
      ghost var before := log;
      messages' := RunCall(messages, base, refused, at, k, call.id, call.name, arguments, false);
      assert log == before + [log[|before|]];
      AnswerCall(tools, history, messages, before, log, base, refused, at, k, messages'[|messages|]);
    }

    /** The loop of `drive`: ask, then process the calls of the answer, within the step limit. */
    method Drive(history: seq<Message>, start: nat, ghost base: nat, ghost refused: set<CallSite>)
      returns (outcome: Outcome)
      requires ChainSound(tools, history, log, base, refused) && AnsweredFrom(history, base, -1)
      requires AskCount(log) == start <= maxSteps
      modifies this
      ensures Delivers(outcome, base, refused) && Continues(outcome, history)
    {
      var messages, steps := history, start;
      while true
        invariant ChainSound(tools, messages, log, base, refused) && AnsweredFrom(messages, base, -1)
        invariant AskCount(log) == steps <= maxSteps && history <= messages
        decreases maxSteps - steps
      {
        if steps >= maxSteps {
          return MaxStepsExceeded;
        }
        var reply := provider(clock, messages);
        AskLogged(tools, messages, log, base, refused);
        ghost var before := log;
        clock, log := clock + 1, log + [Asked(messages)];
        if reply.ProviderError? {
          return Failed;
        }
        AppendKeepsAnswers(messages, reply.message, base, -1);
        AskStep(tools, messages, before, base, refused, reply.message);
        ghost var open: int := if Calling(reply.message) then |messages| else -1;
        messages, steps := messages + [reply.message], steps + 1;
        if |reply.message.toolCalls| == 0 {
          return Finished(messages, steps);
        }
        var request;
        messages, request := ProcessCurrentCalls(messages, steps, base, refused, open);
        if request.Some? {
          return AwaitingApproval(messages, request.value, steps);
        }
      }
    }
  }
}
