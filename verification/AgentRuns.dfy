/** One agent run: call the model, run the tools it asks for, and stop at an answer or at a limit. */
module AgentRuns {
  import opened Text

  datatype ToolCall = ToolCall(id: string, name: string, arguments: string)

  datatype ToolResult = ToolResult(name: string, ok: bool, content: string)

  /** `Opening` stands for the prompt, memories, history and the user's input, built before the loop. */
  datatype Message =
    | Opening(text: string)
    | Assistant(content: Option<string>, toolCalls: seq<ToolCall>)
    | Tool(answer: ToolResult)

  datatype Reply =
    | Completed(content: Option<string>, toolCalls: seq<ToolCall>, complete: bool, tokens: nat, costCents: nat)
    | Threw(message: string)

  /**
   * Everything outside the loop, by step: the abort signal and the clock at its start, the gateway's
   * reply to what it is sent, the tools' results, and whether recording a turn or the progress
   * callback throws.
   */
  datatype World = World(
    aborted: nat -> bool,
    clock: nat -> int,
    complete: (nat, seq<Message>) -> Reply,
    recordTurnThrows: nat -> bool,
    execute: (nat, seq<ToolCall>) -> Option<seq<ToolResult>>,
    recordToolThrows: (nat, nat) -> bool,
    onStepThrows: nat -> bool)

  datatype Agent = Agent(
    maxSteps: nat,
    maxTokens: nat,
    maxRuntimeMs: int,
    hasOutputSchema: bool,
    stopsOnToolSuccess: bool,
    stopAfterTool: Option<string>)

  datatype Policy = Policy(maxAgentSteps: nat, maxRuntimeMs: int)

  datatype Limits = Limits(maxSteps: nat, maxTokens: nat, deadline: int)

  function Min(a: int, b: int): int { if a <= b then a else b }

  /** The tightest of the agent's own limits and the policy's. */
  function LimitsFor(a: Agent, p: Option<Policy>, startedAt: int): Limits {
    match p
    case None => Limits(a.maxSteps, a.maxTokens, startedAt + a.maxRuntimeMs)
    case Some(policy) =>
      Limits(Min(a.maxSteps, policy.maxAgentSteps), a.maxTokens, startedAt + Min(a.maxRuntimeMs, policy.maxRuntimeMs))
  }

  datatype Step = Step(
    number: nat,
    content: Option<string>,
    toolCalls: seq<ToolCall>,
    toolResults: seq<ToolResult>,
    tokens: nat,
    costCents: nat)

  datatype StopReason = FinalAnswer | ToolSuccess | SchemaSatisfied | LimitReached | Error {
    predicate Success() { FinalAnswer? || ToolSuccess? || SchemaSatisfied? }
  }

  datatype Limit = Steps | Tokens | Runtime

  datatype Problem = Cancelled | CutOff | Exception | Explained(limit: Limit)

  datatype Result = Result(
    output: Option<string>,
    stopReason: StopReason,
    limitHit: Option<Limit>,
    steps: seq<Step>,
    totalTokens: nat,
    totalCostCents: nat,
    error: Option<Problem>)

  // --- what a list of steps means ---------------------------------------------

  function TokensOf(steps: seq<Step>): nat {
    if steps == [] then 0 else TokensOf(steps[..|steps| - 1]) + steps[|steps| - 1].tokens
  }

  function CostOf(steps: seq<Step>): nat {
    if steps == [] then 0 else CostOf(steps[..|steps| - 1]) + steps[|steps| - 1].costCents
  }

  function ToolMessages(results: seq<ToolResult>): (ms: seq<Message>)
    ensures |ms| == |results| && forall i :: 0 <= i < |results| ==> ms[i] == Tool(results[i])
  {
    seq(|results|, i requires 0 <= i < |results| => Tool(results[i]))
  }

  /** The conversation after these steps: each turn of the model, then the answer of every tool it called. */
  function Transcript(opening: seq<Message>, steps: seq<Step>): seq<Message> {
    if steps == [] then opening
    else
      var s := steps[|steps| - 1];
      Transcript(opening, steps[..|steps| - 1]) + [Assistant(s.content, s.toolCalls)] + ToolMessages(s.toolResults)
  }

  predicate Landed(a: Agent, results: seq<ToolResult>) {
    a.stopsOnToolSuccess && a.stopAfterTool.Some? && a.stopAfterTool.value != ""
    && exists i :: 0 <= i < |results| && results[i].name == a.stopAfterTool.value && results[i].ok
  }

  /** Step `i` was allowed to begin: not cancelled, in time, and with budget left. */
  predicate MayBegin(w: World, l: Limits, steps: seq<Step>, i: nat)
    requires i <= |steps|
  {
    !w.aborted(i + 1) && w.clock(i + 1) <= l.deadline && TokensOf(steps[..i]) < l.maxTokens
  }

  /** Step `i` records the gateway's reply to the whole conversation before it, and the tools' results. */
  predicate Records(w: World, opening: seq<Message>, steps: seq<Step>, i: nat)
    requires i < |steps|
  {
    var s, reply := steps[i], w.complete(i + 1, Transcript(opening, steps[..i]));
    && s.number == i + 1
    && reply.Completed?
    && s.content == reply.content && s.toolCalls == reply.toolCalls
    && s.tokens == reply.tokens && s.costCents == reply.costCents
    && !w.recordTurnThrows(i + 1)
    && (if s.toolCalls == [] then s.toolResults == []
        else !ToolsThrow(w, i + 1, s.toolCalls) && w.execute(i + 1, s.toolCalls) == Some(s.toolResults))
  }

  /** Executing the tools throws, or recording one of their results does. */
  predicate ToolsThrow(w: World, n: nat, toolCalls: seq<ToolCall>) {
    var results := w.execute(n, toolCalls);
    results.None? || exists k: nat :: k < |results.value| && w.recordToolThrows(n, k)
  }

  /** The model asked for tools, none of them was the one that ends the run, and its caller was told. */
  predicate GoesOn(w: World, a: Agent, s: Step) {
    s.toolCalls != [] && !Landed(a, s.toolResults) && !w.onStepThrows(s.number)
  }

  ghost predicate Faithful(w: World, l: Limits, opening: seq<Message>, steps: seq<Step>) {
    && |steps| <= l.maxSteps
    && (forall i :: 0 <= i < |steps| ==> MayBegin(w, l, steps, i))
    && (forall i :: 0 <= i < |steps| ==> Records(w, opening, steps, i))
  }

  lemma FaithfulAppend(w: World, l: Limits, opening: seq<Message>, steps: seq<Step>, s: Step)
    requires Faithful(w, l, opening, steps) && |steps| < l.maxSteps
    requires MayBegin(w, l, steps + [s], |steps|) && Records(w, opening, steps + [s], |steps|)
    ensures Faithful(w, l, opening, steps + [s])
    ensures TokensOf(steps + [s]) == TokensOf(steps) + s.tokens && CostOf(steps + [s]) == CostOf(steps) + s.costCents
    ensures Transcript(opening, steps + [s])
            == Transcript(opening, steps) + [Assistant(s.content, s.toolCalls)] + ToolMessages(s.toolResults)
  {
    var all := steps + [s];
    assert all[..|steps|] == steps;
    forall i | 0 <= i < |all| ensures MayBegin(w, l, all, i) && Records(w, opening, all, i) {
      if i < |steps| {
        assert all[..i] == steps[..i];
        assert MayBegin(w, l, steps, i) && Records(w, opening, steps, i);
      }
    }
  }

  // --- what a result means ----------------------------------------------------

  /** The last step, when it was an answer rather than a request for tools. */
  predicate Answered(w: World, opening: seq<Message>, steps: seq<Step>, complete: bool) {
    steps != [] && steps[|steps| - 1].toolCalls == []
    && var reply := w.complete(|steps|, Transcript(opening, steps[..|steps| - 1]));
       reply.Completed? && reply.complete == complete
  }

  /** The first `n` steps went on. */
  predicate WentOn(w: World, a: Agent, steps: seq<Step>, n: int) { forall i :: 0 <= i < |steps| && i < n ==> GoesOn(w, a, steps[i]) }

  /** After these steps the loop comes round once more. */
  predicate ComesRound(w: World, a: Agent, l: Limits, steps: seq<Step>) { |steps| < l.maxSteps && WentOn(w, a, steps, |steps|) }

  /** The gateway's reply to the conversation after these steps. */
  function NextReply(w: World, opening: seq<Message>, steps: seq<Step>): Reply {
    w.complete(|steps| + 1, Transcript(opening, steps))
  }

  /** The next call throws, or something after it does before the step is recorded. */
  ghost predicate CallFails(w: World, opening: seq<Message>, steps: seq<Step>) {
    var n, reply := |steps| + 1, NextReply(w, opening, steps);
    reply.Threw? || w.recordTurnThrows(n) || (reply.toolCalls != [] && ToolsThrow(w, n, reply.toolCalls))
  }

  /** Why the run stopped, told by its steps and the world: no two of these hold of one list of steps. */
  ghost predicate StoppedBecause(w: World, a: Agent, l: Limits, opening: seq<Message>, r: Result) {
    var n, told := |r.steps|, !w.onStepThrows(|r.steps|);
    match r.stopReason
    case FinalAnswer => Answered(w, opening, r.steps, true) && told && !a.hasOutputSchema
    case SchemaSatisfied => Answered(w, opening, r.steps, true) && told && a.hasOutputSchema
    case ToolSuccess => n > 0 && told && r.steps[n - 1].toolCalls != [] && Landed(a, r.steps[n - 1].toolResults)
    case LimitReached =>
      (match r.limitHit
       case None => false
       case Some(Steps) => n == l.maxSteps && WentOn(w, a, r.steps, n)
       case Some(Runtime) => ComesRound(w, a, l, r.steps) && !w.aborted(n + 1) && w.clock(n + 1) > l.deadline
       case Some(Tokens) =>
         || (Answered(w, opening, r.steps, false) && told)
         || (ComesRound(w, a, l, r.steps) && !w.aborted(n + 1) && w.clock(n + 1) <= l.deadline && TokensOf(r.steps) >= l.maxTokens))
    case Error =>
      || (ComesRound(w, a, l, r.steps) && w.aborted(n + 1))
      || (ComesRound(w, a, l, r.steps) && MayBegin(w, l, r.steps, n) && CallFails(w, opening, r.steps))
      || (n > 0 && !told)
  }

  /** A call was made, in time and within budget, that no recorded step accounts for. */
  ghost predicate CallLost(w: World, a: Agent, l: Limits, opening: seq<Message>, r: Result) {
    r.stopReason.Error? && ComesRound(w, a, l, r.steps) && MayBegin(w, l, r.steps, |r.steps|)
    && NextReply(w, opening, r.steps).Completed?
  }

  /** The totals count every recorded step, and the one lost call when there is one. */
  ghost predicate TotalsAddUp(w: World, a: Agent, l: Limits, opening: seq<Message>, r: Result) {
    if CallLost(w, a, l, opening, r) then
      var reply := NextReply(w, opening, r.steps);
      r.totalTokens == TokensOf(r.steps) + reply.tokens && r.totalCostCents == CostOf(r.steps) + reply.costCents
    else r.totalTokens == TokensOf(r.steps) && r.totalCostCents == CostOf(r.steps)
  }

  /** The answer, or what landed: a success has one, and so has an answer whose caller could not be told. */
  ghost predicate OutputFits(w: World, opening: seq<Message>, r: Result) {
    r.output == if r.steps != [] && (r.stopReason.Success() || Answered(w, opening, r.steps, true))
                then r.steps[|r.steps| - 1].content else None
  }

  /** Everything a run promises about its result. */
  ghost predicate Promised(w: World, a: Agent, l: Limits, opening: seq<Message>, r: Result) {
    && Faithful(w, l, opening, r.steps)
    && WentOn(w, a, r.steps, |r.steps| - 1)
    && StoppedBecause(w, a, l, opening, r)
    && TotalsAddUp(w, a, l, opening, r)
    && OutputFits(w, opening, r)
    && (r.limitHit.Some? <==> r.stopReason.LimitReached?)
  }

  function Broken(steps: seq<Step>, tokens: nat, costCents: nat, problem: Problem): Result {
    Result(None, Error, None, steps, tokens, costCents, Some(problem))
  }

  /** What the loop itself says went wrong; the limits are explained after it. */
  ghost predicate ErrorFits(w: World, a: Agent, l: Limits, r: Result) {
    r.error == match r.stopReason
               case LimitReached => if r.steps != [] && r.steps[|r.steps| - 1].toolCalls == [] then Some(CutOff) else None
               case Error => if ComesRound(w, a, l, r.steps) && w.aborted(|r.steps| + 1) then Some(Cancelled) else Some(Exception)
               case _ => None
  }

  // The three ways out of the loop, besides an answer.

  lemma Breaks(w: World, a: Agent, l: Limits, opening: seq<Message>, steps: seq<Step>, tokens: nat, costCents: nat, problem: Problem)
    requires Faithful(w, l, opening, steps) && ComesRound(w, a, l, steps)
    requires if w.aborted(|steps| + 1) then problem == Cancelled && tokens == TokensOf(steps) && costCents == CostOf(steps)
             else
               && problem == Exception && MayBegin(w, l, steps, |steps|) && CallFails(w, opening, steps)
               && var reply := NextReply(w, opening, steps);
                  && tokens == TokensOf(steps) + (if reply.Completed? then reply.tokens else 0)
                  && costCents == CostOf(steps) + (if reply.Completed? then reply.costCents else 0)
    ensures var r := Broken(steps, tokens, costCents, problem); Promised(w, a, l, opening, r) && ErrorFits(w, a, l, r)
  {
    hide Faithful, TokensOf, CostOf, NextReply, CallFails, Landed;
    assert steps != [] ==> GoesOn(w, a, steps[|steps| - 1]);
  }

  lemma Limited(w: World, a: Agent, l: Limits, opening: seq<Message>, steps: seq<Step>, limit: Limit)
    requires Faithful(w, l, opening, steps) && WentOn(w, a, steps, |steps|)
    requires match limit
             case Steps => |steps| == l.maxSteps
             case Runtime => |steps| < l.maxSteps && !w.aborted(|steps| + 1) && w.clock(|steps| + 1) > l.deadline
             case Tokens => |steps| < l.maxSteps && !w.aborted(|steps| + 1) && w.clock(|steps| + 1) <= l.deadline
                            && TokensOf(steps) >= l.maxTokens
    ensures var r := Result(None, LimitReached, Some(limit), steps, TokensOf(steps), CostOf(steps), None);
            Promised(w, a, l, opening, r) && ErrorFits(w, a, l, r)
  {
    hide Faithful, TokensOf, CostOf, Landed;
    assert steps != [] ==> GoesOn(w, a, steps[|steps| - 1]);
  }

  lemma EndsOnStep(w: World, a: Agent, l: Limits, opening: seq<Message>, steps: seq<Step>)
    requires Faithful(w, l, opening, steps) && WentOn(w, a, steps, |steps| - 1)
    requires steps != [] && steps[|steps| - 1].toolCalls != [] && steps[|steps| - 1].number == |steps|
    ensures var r := Broken(steps, TokensOf(steps), CostOf(steps), Exception);
            w.onStepThrows(|steps|) ==> Promised(w, a, l, opening, r) && ErrorFits(w, a, l, r)
    ensures var r := Result(steps[|steps| - 1].content, ToolSuccess, None, steps, TokensOf(steps), CostOf(steps), None);
            !w.onStepThrows(|steps|) && Landed(a, steps[|steps| - 1].toolResults) ==>
              Promised(w, a, l, opening, r) && ErrorFits(w, a, l, r)
  {
    hide Faithful, TokensOf, CostOf, Landed;
    assert w.onStepThrows(|steps|) ==> !GoesOn(w, a, steps[|steps| - 1]);
  }

  /** The whole loop, and the exceptions it catches. */
  method Loop(w: World, a: Agent, l: Limits, opening: seq<Message>) returns (r: Result)
    ensures Promised(w, a, l, opening, r)
    ensures ErrorFits(w, a, l, r)
  {
    hide Faithful, Landed, TokensOf, CostOf, ToolsThrow, Transcript, Promised, ErrorFits, WentOn, MayBegin;
    var messages, steps := opening, [];
    var totalTokens, totalCostCents := 0, 0;
    Nothing(w, a, l, opening);
    for n := 1 to l.maxSteps + 1
      invariant |steps| == n - 1
      invariant Faithful(w, l, opening, steps) && WentOn(w, a, steps, |steps|)
      invariant messages == Transcript(opening, steps)
      invariant totalTokens == TokensOf(steps) && totalCostCents == CostOf(steps)
    {
      MayBeginNow(w, l, steps);
      if w.aborted(n) {
        Breaks(w, a, l, opening, steps, totalTokens, totalCostCents, Cancelled);
        return Broken(steps, totalTokens, totalCostCents, Cancelled);
      }
      if w.clock(n) > l.deadline {
        Limited(w, a, l, opening, steps, Runtime);
        return Result(None, LimitReached, Some(Runtime), steps, totalTokens, totalCostCents, None);
      }
      if totalTokens >= l.maxTokens {
        Limited(w, a, l, opening, steps, Tokens);
        return Result(None, LimitReached, Some(Tokens), steps, totalTokens, totalCostCents, None);
      }
      var reply := w.complete(n, messages);
      if reply.Threw? {
        Breaks(w, a, l, opening, steps, totalTokens, totalCostCents, Exception);
        return Broken(steps, totalTokens, totalCostCents, Exception);
      }
      totalTokens, totalCostCents := totalTokens + reply.tokens, totalCostCents + reply.costCents;
      messages := messages + [Assistant(reply.content, reply.toolCalls)];
      if w.recordTurnThrows(n) {
        Breaks(w, a, l, opening, steps, totalTokens, totalCostCents, Exception);
        return Broken(steps, totalTokens, totalCostCents, Exception);
      }
      if reply.toolCalls == [] {
        r := Conclude(w, a, l, opening, steps, reply);
        return;
      }
      var executed := RunTools(w, n, reply.toolCalls);
      if executed.None? {
        Breaks(w, a, l, opening, steps, totalTokens, totalCostCents, Exception);
        return Broken(steps, totalTokens, totalCostCents, Exception);
      }
      messages := messages + ToolMessages(executed.value);
      var record := Step(n, reply.content, reply.toolCalls, executed.value, reply.tokens, reply.costCents);
      NextStep(w, l, opening, steps, record);
      WentOnAppend(w, a, steps, record);
      steps := steps + [record];
      EndsOnStep(w, a, l, opening, steps);
      if w.onStepThrows(n) { return Broken(steps, totalTokens, totalCostCents, Exception); }
      if Landed(a, executed.value) { return Result(reply.content, ToolSuccess, None, steps, totalTokens, totalCostCents, None); }
    }
    Limited(w, a, l, opening, steps, Steps);
    return Result(None, LimitReached, Some(Steps), steps, totalTokens, totalCostCents, None);
  }

  lemma MayBeginNow(w: World, l: Limits, steps: seq<Step>)
    ensures MayBegin(w, l, steps, |steps|)
            <==> !w.aborted(|steps| + 1) && w.clock(|steps| + 1) <= l.deadline && TokensOf(steps) < l.maxTokens
  {
    assert steps[..|steps|] == steps;
  }

  lemma WentOnAppend(w: World, a: Agent, steps: seq<Step>, s: Step)
    requires WentOn(w, a, steps, |steps|)
    ensures WentOn(w, a, steps + [s], |steps|)
    ensures GoesOn(w, a, s) ==> WentOn(w, a, steps + [s], |steps| + 1)
  {
    hide GoesOn;
    forall i | 0 <= i < |steps| ensures GoesOn(w, a, (steps + [s])[i]) { assert GoesOn(w, a, steps[i]); }
  }

  lemma Nothing(w: World, a: Agent, l: Limits, opening: seq<Message>)
    ensures WentOn(w, a, [], 0)
    ensures Faithful(w, l, opening, []) && TokensOf([]) == 0 && CostOf([]) == 0 && Transcript(opening, []) == opening
  {
  }

  lemma NextStep(w: World, l: Limits, opening: seq<Message>, steps: seq<Step>, s: Step)
    requires Faithful(w, l, opening, steps) && |steps| < l.maxSteps
    requires MayBegin(w, l, steps, |steps|)
    requires var reply := w.complete(|steps| + 1, Transcript(opening, steps));
             && s.number == |steps| + 1 && reply.Completed?
             && s.content == reply.content && s.toolCalls == reply.toolCalls
             && s.tokens == reply.tokens && s.costCents == reply.costCents
             && !CallFails(w, opening, steps)
             && (if s.toolCalls == [] then s.toolResults == [] else w.execute(|steps| + 1, s.toolCalls) == Some(s.toolResults))
    ensures Faithful(w, l, opening, steps + [s])
    ensures TokensOf(steps + [s]) == TokensOf(steps) + s.tokens && CostOf(steps + [s]) == CostOf(steps) + s.costCents
    ensures Transcript(opening, steps + [s])
            == Transcript(opening, steps) + [Assistant(s.content, s.toolCalls)] + ToolMessages(s.toolResults)
  {
    assert (steps + [s])[..|steps|] == steps && steps[..|steps|] == steps;
    FaithfulAppend(w, l, opening, steps, s);
  }

  /** Runs the tools and records each result's turn, unless one of the two throws. */
  method RunTools(w: World, n: nat, toolCalls: seq<ToolCall>) returns (results: Option<seq<ToolResult>>)
    ensures results.None? <==> ToolsThrow(w, n, toolCalls)
    ensures results.Some? ==> results == w.execute(n, toolCalls)
  {
    results := w.execute(n, toolCalls);
    if results.None? { return None; }
    for k := 0 to |results.value|
      invariant forall j: nat :: j < k ==> !w.recordToolThrows(n, j)
    {
      if w.recordToolThrows(n, k) { return None; }
    }
  }

  /** The model asked for no tools: an answer, unless it was cut off. */
  method Conclude(w: World, a: Agent, l: Limits, opening: seq<Message>, steps: seq<Step>, reply: Reply) returns (r: Result)
    requires Faithful(w, l, opening, steps) && ComesRound(w, a, l, steps) && MayBegin(w, l, steps, |steps|)
    requires reply.Completed? && reply == NextReply(w, opening, steps) && reply.toolCalls == [] && !w.recordTurnThrows(|steps| + 1)
    ensures Promised(w, a, l, opening, r)
    ensures ErrorFits(w, a, l, r)
  {
    hide Faithful, Landed;
    var n := |steps| + 1;
    var record := Step(n, reply.content, [], [], reply.tokens, reply.costCents);
    NextStep(w, l, opening, steps, record);
    var all := steps + [record];
    assert all[..|all| - 1] == steps;
    if !reply.complete {
      if w.onStepThrows(n) { return Result(None, Error, None, all, TokensOf(all), CostOf(all), Some(Exception)); }
      return Result(None, LimitReached, Some(Tokens), all, TokensOf(all), CostOf(all), Some(CutOff));
    }
    if w.onStepThrows(n) { return Result(reply.content, Error, None, all, TokensOf(all), CostOf(all), Some(Exception)); }
    return Result(reply.content, if a.hasOutputSchema then SchemaSatisfied else FinalAnswer, None,
                  all, TokensOf(all), CostOf(all), None);
  }

  /**
   * A run: at most the tighter step limit, no model call begun late, cancelled or without budget,
   * every call sent the whole conversation so far, and a stop reason that says what happened.
   */
  method Run(w: World, a: Agent, p: Option<Policy>, opening: seq<Message>, startedAt: int) returns (r: Result)
    ensures Promised(w, a, LimitsFor(a, p, startedAt), opening, r)
    ensures |r.steps| <= a.maxSteps && (p.Some? ==> |r.steps| <= p.value.maxAgentSteps)
    ensures r.error.None? <==> r.stopReason.Success()
    ensures r.error == Some(Cancelled) <==> r.stopReason.Error? && ComesRound(w, a, LimitsFor(a, p, startedAt), r.steps) && w.aborted(|r.steps| + 1)
  {
    var l := LimitsFor(a, p, startedAt);
    r := Loop(w, a, l, opening);
    assert Faithful(w, l, opening, r.steps);
    if r.limitHit.Some? && r.stopReason.LimitReached? && r.error.None? {
      r := r.(error := Some(Explained(r.limitHit.value)));
    }
  }

  /** The tokens of the last call made, whether a step records it or not. */
  ghost function LastCallTokens(w: World, a: Agent, l: Limits, opening: seq<Message>, r: Result): nat {
    if CallLost(w, a, l, opening, r) then NextReply(w, opening, r.steps).tokens
    else if r.steps != [] then r.steps[|r.steps| - 1].tokens
    else 0
  }

  /** However a run ends, it overshoots its budget by at most the last call it made. */
  lemma OvershootIsOneCall(w: World, a: Agent, l: Limits, opening: seq<Message>, r: Result)
    requires Promised(w, a, l, opening, r)
    ensures r.totalTokens == 0 || r.totalTokens < l.maxTokens + LastCallTokens(w, a, l, opening, r)
  {
    hide StoppedBecause, Records;
    var n := |r.steps|;
    assert r.steps[..n] == r.steps;
    if n > 0 { assert MayBegin(w, l, r.steps, n - 1); }
  }

  /** What earlier steps said is never changed: each conversation extends the ones before it. */
  lemma {:induction false} TranscriptExtends(opening: seq<Message>, steps: seq<Step>, i: nat)
    requires i <= |steps|
    ensures var before, after := Transcript(opening, steps[..i]), Transcript(opening, steps);
            |before| <= |after| && after[..|before|] == before
  {
    if i == |steps| {
      assert steps[..i] == steps;
    } else {
      var front := steps[..|steps| - 1];
      TranscriptExtends(opening, front, i);
      assert front[..i] == steps[..i];
    }
  }

  /** Steps that record the same world agree as far as both go. */
  lemma {:induction false} SameSteps(w: World, l: Limits, opening: seq<Message>, s: seq<Step>, t: seq<Step>, n: nat)
    requires Faithful(w, l, opening, s) && Faithful(w, l, opening, t) && n <= |s| && n <= |t|
    ensures s[..n] == t[..n]
  {
    if n > 0 {
      SameSteps(w, l, opening, s, t, n - 1);
      assert Records(w, opening, s, n - 1) && Records(w, opening, t, n - 1);
      assert s[..n] == s[..n - 1] + [s[n - 1]] && t[..n] == t[..n - 1] + [t[n - 1]];
    }
  }

  /** After these steps one more would be recorded. */
  ghost predicate GoesFurther(w: World, a: Agent, l: Limits, opening: seq<Message>, steps: seq<Step>) {
    ComesRound(w, a, l, steps) && MayBegin(w, l, steps, |steps|) && !CallFails(w, opening, steps)
  }

  /** Whatever stops a run rules out a further step. */
  lemma NoneFurther(w: World, a: Agent, l: Limits, opening: seq<Message>, r: Result)
    requires Promised(w, a, l, opening, r)
    ensures !GoesFurther(w, a, l, opening, r.steps)
  {
    hide TotalsAddUp, OutputFits, Landed, CallFails;
    MayBeginNow(w, l, r.steps);
    var n := |r.steps|;
    assert n > 0 ==> Records(w, opening, r.steps, n - 1);
    assert n > 0 && WentOn(w, a, r.steps, n) ==> GoesOn(w, a, r.steps[n - 1]);
    hide Faithful, WentOn, MayBegin, Records;
  }

  lemma RecordedWentFurther(w: World, a: Agent, l: Limits, opening: seq<Message>, steps: seq<Step>, n: nat)
    requires Faithful(w, l, opening, steps) && WentOn(w, a, steps, |steps| - 1) && n < |steps|
    ensures GoesFurther(w, a, l, opening, steps[..n])
  {
    hide Landed;
    assert MayBegin(w, l, steps, n) && Records(w, opening, steps, n);
    assert steps[..n][..n] == steps[..n];
  }

  lemma NoFurther(w: World, a: Agent, l: Limits, opening: seq<Message>, r: Result, t: Result)
    requires Promised(w, a, l, opening, r) && Promised(w, a, l, opening, t)
    ensures |t.steps| <= |r.steps|
  {
    var n := |r.steps|;
    if n < |t.steps| {
      SameSteps(w, l, opening, r.steps, t.steps, n);
      assert t.steps[..n] == r.steps && r.steps[..n] == r.steps;
      RecordedWentFurther(w, a, l, opening, t.steps, n);
      NoneFurther(w, a, l, opening, r);
    }
  }

  /** What is promised leaves no choice: a world and its limits admit one result, the error's wording aside. */
  lemma ResultDetermined(w: World, a: Agent, l: Limits, opening: seq<Message>, r: Result, t: Result)
    requires Promised(w, a, l, opening, r) && Promised(w, a, l, opening, t)
    ensures t == r.(error := t.error)
    ensures ErrorFits(w, a, l, r) && ErrorFits(w, a, l, t) ==> r == t
  {
    NoFurther(w, a, l, opening, r, t);
    NoFurther(w, a, l, opening, t, r);
    var n := |r.steps|;
    SameSteps(w, l, opening, r.steps, t.steps, n);
    assert r.steps[..n] == r.steps && t.steps[..n] == t.steps;
    if n > 0 { assert Records(w, opening, r.steps, n - 1); }
    assert WentOn(w, a, r.steps, n) && n > 0 ==> GoesOn(w, a, r.steps[n - 1]);
    hide Faithful, WentOn, Landed;
  }

  // --- the same promises, in the world's and the agent's own terms --------------

  /** One of these results is the success the agent is to stop at. */
  ghost predicate StopsAt(a: Agent, results: seq<ToolResult>) {
    a.stopsOnToolSuccess && a.stopAfterTool != None && a.stopAfterTool.value != ""
    && exists k :: 0 <= k < |results| && results[k].name == a.stopAfterTool.value && results[k].ok
  }

  /** Recording one of the first results of this step throws. */
  ghost predicate SomeRecordThrows(w: World, n: nat, results: nat) { exists k: nat :: k < results && w.recordToolThrows(n, k) }

  /** No step begins cancelled, or after the agent's own time or the policy's, or with the agent's tokens spent. */
  lemma BegunInTime(w: World, a: Agent, p: Option<Policy>, opening: seq<Message>, startedAt: int, r: Result, i: nat)
    requires Promised(w, a, LimitsFor(a, p, startedAt), opening, r) && i < |r.steps|
    ensures !w.aborted(i + 1) && w.clock(i + 1) <= startedAt + a.maxRuntimeMs && TokensOf(r.steps[..i]) < a.maxTokens
    ensures p.Some? ==> w.clock(i + 1) <= startedAt + p.value.maxRuntimeMs
    ensures |r.steps| <= a.maxSteps && (p.Some? ==> |r.steps| <= p.value.maxAgentSteps)
  {
    hide StoppedBecause, TotalsAddUp, OutputFits, Records, WentOn, TokensOf;
    assert MayBegin(w, LimitsFor(a, p, startedAt), r.steps, i);
  }

  /** Every step is the reply to the whole conversation before it, recorded, with what its tools answered, each recorded too. */
  lemma StepRecords(w: World, a: Agent, l: Limits, opening: seq<Message>, r: Result, i: nat)
    requires Promised(w, a, l, opening, r) && i < |r.steps|
    ensures var s, reply := r.steps[i], w.complete(i + 1, Transcript(opening, r.steps[..i]));
            && s.number == i + 1 && reply.Completed? && reply == Completed(s.content, s.toolCalls, reply.complete, s.tokens, s.costCents)
            && !w.recordTurnThrows(i + 1)
            && (s.toolCalls == [] ==> s.toolResults == [])
            && (s.toolCalls != [] ==> w.execute(i + 1, s.toolCalls) == Some(s.toolResults)
                                      && !SomeRecordThrows(w, i + 1, |s.toolResults|))
    ensures i < |r.steps| - 1 ==> r.steps[i].toolCalls != [] && !w.onStepThrows(i + 1) && !StopsAt(a, r.steps[i].toolResults)
  {
    hide StoppedBecause, TotalsAddUp, OutputFits, MayBegin, Transcript;
    assert Records(w, opening, r.steps, i);
    assert i < |r.steps| - 1 ==> GoesOn(w, a, r.steps[i]);
  }

  lemma {:induction false} TokensAddUp(steps: seq<Step>, s: Step)
    ensures TokensOf([]) == 0 && TokensOf(steps + [s]) == TokensOf(steps) + s.tokens
    ensures CostOf([]) == 0 && CostOf(steps + [s]) == CostOf(steps) + s.costCents
  {
    assert (steps + [s])[..|steps|] == steps;
  }

  /** What each way of stopping says of the last step and of what would have come next. */
  lemma StoppedMeans(w: World, a: Agent, p: Option<Policy>, opening: seq<Message>, startedAt: int, r: Result)
    requires Promised(w, a, LimitsFor(a, p, startedAt), opening, r)
    ensures var n := |r.steps|;
            var deadline := startedAt + if p.Some? && p.value.maxRuntimeMs < a.maxRuntimeMs then p.value.maxRuntimeMs else a.maxRuntimeMs;
            var most := if p.Some? && p.value.maxAgentSteps < a.maxSteps then p.value.maxAgentSteps else a.maxSteps;
            match r.stopReason
            case ToolSuccess => n > 0 && StopsAt(a, r.steps[n - 1].toolResults) && !w.onStepThrows(n) && r.output == r.steps[n - 1].content
            case FinalAnswer => n > 0 && r.steps[n - 1].toolCalls == [] && !a.hasOutputSchema && !w.onStepThrows(n) && r.output == r.steps[n - 1].content
            case SchemaSatisfied => n > 0 && r.steps[n - 1].toolCalls == [] && a.hasOutputSchema && !w.onStepThrows(n) && r.output == r.steps[n - 1].content
            case LimitReached =>
              && r.output == None
              && (r.limitHit == Some(Steps) ==> n == most)
              && (r.limitHit == Some(Runtime) ==> n < most && w.clock(n + 1) > deadline && !w.aborted(n + 1))
              && (r.limitHit == Some(Tokens) ==> (n > 0 && r.steps[n - 1].toolCalls == []) || (n < most && TokensOf(r.steps) >= a.maxTokens))
            case Error =>
              || (n < most && w.aborted(n + 1))
              || (n > 0 && w.onStepThrows(n))
              || (n < most && !w.aborted(n + 1) && w.clock(n + 1) <= deadline && TokensOf(r.steps) < a.maxTokens
                  && var reply := w.complete(n + 1, Transcript(opening, r.steps));
                     reply.Threw? || w.recordTurnThrows(n + 1)
                     || (reply.toolCalls != []
                         && var results := w.execute(n + 1, reply.toolCalls);
                            results == None || SomeRecordThrows(w, n + 1, |results.value|)))
  {
    hide TotalsAddUp, Records, WentOn, TokensOf, Transcript;
    MayBeginNow(w, LimitsFor(a, p, startedAt), r.steps);
    hide MayBegin;
    AnsweredMeans(w, a, opening, r);
    hide Answered, Faithful;
  }

  lemma AnsweredMeans(w: World, a: Agent, opening: seq<Message>, r: Result)
    ensures forall complete :: Answered(w, opening, r.steps, complete) ==> r.steps != [] && r.steps[|r.steps| - 1].toolCalls == []
    ensures !(Answered(w, opening, r.steps, true) && Answered(w, opening, r.steps, false))
    ensures r.steps != [] && WentOn(w, a, r.steps, |r.steps|) ==> r.steps[|r.steps| - 1].toolCalls != []
  {
    hide Transcript, Landed;
    assert r.steps != [] && WentOn(w, a, r.steps, |r.steps|) ==> GoesOn(w, a, r.steps[|r.steps| - 1]);
  }

  /** An answer cut off by the model is never taken for one. */
  lemma AnswerIsComplete(w: World, a: Agent, l: Limits, opening: seq<Message>, r: Result)
    requires Promised(w, a, l, opening, r) && (r.stopReason == FinalAnswer || r.stopReason == SchemaSatisfied)
    ensures var n := |r.steps|; n > 0 && w.complete(n, Transcript(opening, r.steps[..n - 1])).Completed? && w.complete(n, Transcript(opening, r.steps[..n - 1])).complete
  {
    hide TotalsAddUp, Faithful, WentOn, Transcript;
  }
}
