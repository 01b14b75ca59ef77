/** The imperative agent turn, proved against the reading of the model's completions in AgentSpec. */
module Agent {
  import opened Text
  import opened AgentSpec
  import Escalation

  // ---- The turn ---------------------------------------------------------------------------------

  /** What the model and the tools of a plan answer. */
  datatype World = World(llm: Llm, plan: PlanWorld)

  datatype CapKind = IterationKind | TokenKind | EmptyMessage

  /** How far one completion's calls were executed. */
  datatype Progress = Progress(messages: seq<Message>, usedTools: seq<Tool>, captured: bool)

  /** What executing a tool gives: an exception, or a result with what the loop reads from it. */
  datatype Execution = Thrown | Answered(escalated: bool, captured: bool, writable: bool)

  lemma OneMoreCall(calls: seq<ToolCall>, i: nat, iteration: int)
    requires i < |calls|
    ensures AuditOf(calls[..i + 1], iteration) == AuditOf(calls[..i], iteration) + [ToolCalled(calls[i].tool, iteration)]
    ensures ToolsOf(calls[..i + 1]) == ToolsOf(calls[..i]) + [calls[i].tool]
    ensures RunsOf(calls[..i + 1]) == RunsOf(calls[..i]) + RunOf(calls[i])
    ensures Results(calls[..i + 1]) == Results(calls[..i]) + [ToolResult(calls[i].id, calls[i].tool)]
  {
    assert calls[..i + 1][..i] == calls[..i];
  }

  lemma OneMoreCapture(calls: seq<ToolCall>, i: nat, before: bool)
    requires i < |calls|
    ensures CapturedAfter(calls[..i + 1], before)
      == if calls[i].tool.CaptureLead? then calls[i].args.Accepted? && calls[i].captured else CapturedAfter(calls[..i], before)
  {
    assert calls[..i + 1][..i] == calls[..i];
  }

  /** The reason the deterministic plan gives for an escalation. */
  const PLAN_REASON := "Visitor explicitly requested human help or the request is out of scope."

  datatype IterationResult = GoesOn | Ends(outcome: Outcome)

  /** The loop's local variables. */
  datatype Vars = Vars(messages: seq<Message>, usedTools: seq<Tool>, tokens: int, captured: bool)

  /** After n completions that all let the loop go on. */
  ghost predicate AtStep(llm: Llm, opening: seq<Message>, n: nat, log: Log, v: Vars) {
    && n == |log.asks| && (forall i: nat :: i < n ==> Continues(llm, i))
    && log.audit == AuditAfter(llm, n) && log.runs == Bodies(llm, n)
    && v == Vars(History(llm, opening, n), UsedTools(llm, n), Spent(llm, n), Captured(llm, n))
    && forall k :: 0 <= k < n ==> IsAsk(llm, opening, log.asks, k)
  }

  /** What one iteration does with the completion c it is given. */
  ghost predicate IsEffect(c: Completion, iteration: int, f: Fallback, before: Log, v: Vars, after: Log, v': Vars,
                           result: IterationResult) {
    var done, spent := Processed(Calls(c)), v.tokens + Tokens(c);
    && after.asks == before.asks + [Ask(v.messages, v.tokens)]
    && match result
       case GoesOn =>
         && LetsGoOn(c, spent)
         && after.audit == before.audit + AuditOf(done, iteration) && after.runs == before.runs + RunsOf(done)
         && v' == Vars(v.messages + Exchange(c), v.usedTools + ToolsOf(done), spent, CapturedAfter(done, v.captured))
       case Ends(o) => !LetsGoOn(c, spent) && IsEnding(ExitBy(c, spent), c, iteration, f, before, v, after, o)
  }

  /** What is left behind when the turn ends with completion c. */
  ghost predicate IsEnding(exit: Exit, c: Completion, iteration: int, f: Fallback, before: Log, v: Vars, after: Log, o: Outcome) {
    var done := Processed(Calls(c));
    && after.audit == before.audit + AuditOf(done, iteration) + ClosingRows(exit, f)
    && after.runs == before.runs + RunsOf(done) + ClosingRuns(exit, f)
    && IsReportOf(exit, c, v.captured, v.usedTools + ToolsOf(done), f, o)
  }

  /** What one iteration of the loop leaves behind. */
  ghost predicate IsIteration(llm: Llm, opening: seq<Message>, f: Fallback, n: nat, log: Log, v: Vars, result: IterationResult) {
    match result
    case GoesOn => AtStep(llm, opening, n, log, v)
    case Ends(o) => IsLlmTurn(llm, opening, f, log, o)
  }

  /** A completion without calls executes nothing. */
  lemma NoCallsEffect(c: Completion, iteration: int, f: Fallback, before: Log, v: Vars, after: Log, v': Vars, o: Outcome)
    requires Calls(c) == []
    requires after == Log(before.audit + ClosingRows(ExitBy(c, v.tokens + Tokens(c)), f),
                          before.runs + ClosingRuns(ExitBy(c, v.tokens + Tokens(c)), f), before.asks + [Ask(v.messages, v.tokens)])
    requires IsReportOf(ExitBy(c, v.tokens + Tokens(c)), c, v.captured, v.usedTools, f, o)
    ensures IsEffect(c, iteration, f, before, v, after, v', Ends(o))
  {
    assert before.audit + AuditOf([], iteration) == before.audit;
    assert before.runs + RunsOf([]) == before.runs;
    assert v.usedTools + ToolsOf([]) == v.usedTools;
  }

  lemma {:induction false} AsksAppend(llm: Llm, opening: seq<Message>, n: nat, asks: seq<Ask>, ask: Ask)
    requires n == |asks| && forall k :: 0 <= k < n ==> IsAsk(llm, opening, asks, k)
    requires ask == Ask(History(llm, opening, n), Spent(llm, n))
    ensures forall k :: 0 <= k < n + 1 ==> IsAsk(llm, opening, asks + [ask], k)
  {
    forall k | 0 <= k < n + 1 ensures IsAsk(llm, opening, asks + [ask], k) {
      if k < n { assert IsAsk(llm, opening, asks, k); }
    }
  }

  /** One more completion was asked for, its calls were executed, and the loop goes on. */
  lemma {:induction false} LoopGoesOn(llm: Llm, opening: seq<Message>, n: nat, before: Log, v: Vars, after: Log, f: Fallback, v': Vars)
    requires AtStep(llm, opening, n, before, v) && IsEffect(llm(n), n + 1, f, before, v, after, v', GoesOn)
    ensures AtStep(llm, opening, n + 1, after, v')
  {
    assert Continues(llm, n);
    AsksAppend(llm, opening, n, before.asks, Ask(v.messages, v.tokens));
  }

  lemma {:induction false} SameExit(llm: Llm, n: nat, tokens: int)
    requires tokens == Spent(llm, n)
    ensures ExitBy(llm(n), tokens + Tokens(llm(n))) == ExitOf(llm, n + 1)
    ensures LetsGoOn(llm(n), tokens + Tokens(llm(n))) <==> Continues(llm, n)
  {
    assert Spent(llm, n + 1) == tokens + Tokens(llm(n));
  }

  lemma {:induction false} OutcomeEnds(llm: Llm, n: nat, f: Fallback, before: Log, v: Vars, after: Log, o: Outcome)
    requires before.audit == AuditAfter(llm, n) && before.runs == Bodies(llm, n)
    requires v.usedTools == UsedTools(llm, n) && v.captured == Captured(llm, n)
    requires IsEnding(ExitOf(llm, n + 1), llm(n), n + 1, f, before, v, after, o)
    ensures IsOutcome(llm, n + 1, f, after.audit, after.runs, o)
  {
    assert Done(llm, n + 1) == Processed(Calls(llm(n)));
  }

  /** ... or it ends there. */
  lemma {:induction false} LoopEnds(llm: Llm, opening: seq<Message>, n: nat, before: Log, v: Vars, after: Log, f: Fallback, v': Vars,
                                    o: Outcome)
    requires AtStep(llm, opening, n, before, v) && n < MAX_AGENT_ITERATIONS
    requires IsEffect(llm(n), n + 1, f, before, v, after, v', Ends(o))
    ensures IsLlmTurn(llm, opening, f, after, o)
  {
    SameExit(llm, n, v.tokens);
    OutcomeEnds(llm, n, f, before, v, after, o);
    AsksAppend(llm, opening, n, before.asks, Ask(v.messages, v.tokens));
  }

  lemma {:induction false} LoopStep(llm: Llm, opening: seq<Message>, n: nat, before: Log, v: Vars, after: Log, f: Fallback, v': Vars,
                                    result: IterationResult)
    requires AtStep(llm, opening, n, before, v) && n < MAX_AGENT_ITERATIONS
    requires IsEffect(llm(n), n + 1, f, before, v, after, v', result)
    ensures IsIteration(llm, opening, f, n + 1, after, v', result)
  {
    match result {
      case GoesOn => LoopGoesOn(llm, opening, n, before, v, after, f, v');
      case Ends(o) => LoopEnds(llm, opening, n, before, v, after, f, v', o);
    }
  }

  /** ... or it has gone on five times. */
  lemma {:induction false} LoopIsExhausted(llm: Llm, opening: seq<Message>, before: Log, v: Vars, after: Log, f: Fallback, r: AgentResult)
    requires AtStep(llm, opening, MAX_AGENT_ITERATIONS, before, v)
    requires after == Log(before.audit + [IterationCapHit], before.runs + [Run(Escalate, CapReached)], before.asks)
    requires r == AgentResult(CapHitMessage, v.usedTools + [Escalate], true)
    ensures IsLlmTurn(llm, opening, f, after, Returned(r))
  {
    assert Continues(llm, MAX_AGENT_ITERATIONS - 1);
    assert ExitOf(llm, MAX_AGENT_ITERATIONS).ByIterationCap?;
  }

  class Turn {
    const world: World
    const planner: string -> seq<Tool>
    var audit: seq<Audit>
    var runs: seq<Run>
    var asks: seq<Ask>

    constructor (world: World, planner: string -> seq<Tool>)
      ensures this.world == world && this.planner == planner && audit == [TurnStarted] && runs == [] && asks == []
    {
      this.world, this.planner := world, planner;
      audit, runs, asks := [TurnStarted], [], [];
    }

    /** The planner names one of the four plans. */
    ghost predicate Ready() {
      forall m :: IsPlan(planner(m))
    }

    /** Escalate once, never capture a lead, and return the fixed message. */
    method CapHitPath(kind: CapKind, usedTools: seq<Tool>) returns (r: AgentResult)
      modifies this`audit, this`runs
      ensures audit == old(audit) + [if kind.TokenKind? then TokenCapHit else IterationCapHit]
      ensures runs == old(runs) + [Run(Escalate, CapReached)]
      ensures r == AgentResult(CapHitMessage, usedTools + [Escalate], true)
    {
      Escalation.AlwaysEscalated("agent_cap_hit");
      var status := Escalation.StatusFor("agent_cap_hit");
      runs := runs + [Run(Escalate, CapReached)];
      audit := audit + [if kind.TokenKind? then TokenCapHit else IterationCapHit];
      r := AgentResult(CapHitMessage, usedTools + [Escalate], status == Escalation.ESCALATED);
    }

    /** Validate, then run the body.  Refused calls run nothing; arguments that are no object raise, except
        for a tool outside the allowlist, which does not look at them. */
    method ExecuteTool(c: ToolCall) returns (x: Execution)
      requires !c.args.Unreadable?
      modifies this`runs
      ensures x.Thrown? <==> FailsBefore(c)
      ensures runs == if x.Thrown? then old(runs) else old(runs) + RunOf(c)
      ensures x.Answered? ==> (x.escalated <==> Escalates(c)) && (x.writable <==> !FailsAfter(c))
      ensures x.Answered? && c.tool.CaptureLead? ==> (x.captured <==> c.args.Accepted? && c.captured)
    {
      if c.tool.Unknown? { return Answered(false, false, true); }
      match c.args {
        case NotAnObject => return Thrown;
        case Refused(echoable) => return Answered(false, false, echoable);
        case Accepted =>
      }
      var escalated := false;
      if c.tool.Escalate? {
        Escalation.AlwaysEscalated(c.reason);
        escalated := Escalation.StatusFor(c.reason) == Escalation.ESCALATED;
      }
      runs := runs + [Run(c.tool, Requested(c.reason))];
      x := Answered(escalated, c.tool.CaptureLead? && c.captured, !c.tool.RagSearch? || c.scanned == 0);
    }

    /** The loop over the calls of one completion; it stops at the first effective escalation and at the
        first exception. */
    method ExecuteCalls(calls: seq<ToolCall>, iteration: int, from: Progress) returns (p: Progress, end: CallsEnd)
      modifies this`audit, this`runs
      ensures end == EndOf(calls)
      ensures audit == old(audit) + AuditOf(Processed(calls), iteration)
      ensures runs == old(runs) + RunsOf(Processed(calls)) && p.usedTools == from.usedTools + ToolsOf(Processed(calls))
      ensures p.captured == CapturedAfter(Processed(calls), from.captured)
      ensures end.AllRan? ==> p.messages == from.messages + Results(calls)
    {
      p := from;
      ghost var done := calls[..0];
      for i := 0 to |calls|
        invariant (forall k :: 0 <= k < i ==> !Stops(calls[k])) && done == calls[..i]
        invariant audit == old(audit) + AuditOf(done, iteration) && runs == old(runs) + RunsOf(done)
        invariant p.usedTools == from.usedTools + ToolsOf(done) && p.messages == from.messages + Results(done)
        invariant p.captured == CapturedAfter(done, from.captured)
      {
        ProcessedSoFar(calls, i);
        var execution;
        p, execution := ExecuteCall(calls, i, iteration, old(audit), old(runs), from, p);
        done := calls[..i + 1];
        if execution.Thrown? || !execution.writable { return p, StoppedByError; }
        if execution.escalated { return p, StoppedByEscalation; }
      }
      assert calls[..|calls|] == calls;
      ProcessedSoFar(calls, |calls|);
      end := AllRan;
    }

    /** One call of a completion, after the i before it. */
    method ExecuteCall(calls: seq<ToolCall>, i: nat, iteration: int, ghost rows: seq<Audit>, ghost bodies: seq<Run>,
                       ghost from: Progress, p: Progress)
      returns (p': Progress, x: Execution)
      requires i < |calls| && audit == rows + AuditOf(calls[..i], iteration) && runs == bodies + RunsOf(calls[..i])
      requires p.usedTools == from.usedTools + ToolsOf(calls[..i])
      requires p.messages == from.messages + Results(calls[..i]) && p.captured == CapturedAfter(calls[..i], from.captured)
      modifies this`audit, this`runs
      ensures x.Thrown? <==> FailsBefore(calls[i])
      ensures x.Answered? ==> (x.escalated <==> Escalates(calls[i])) && (x.writable <==> !FailsAfter(calls[i]))
      ensures x.Thrown? ==> p' == p && audit == old(audit) && runs == old(runs)
      ensures x.Answered? ==> audit == rows + AuditOf(calls[..i + 1], iteration) && runs == bodies + RunsOf(calls[..i + 1])
      ensures x.Answered? ==> p'.usedTools == from.usedTools + ToolsOf(calls[..i + 1])
      ensures x.Answered? ==> p'.captured == CapturedAfter(calls[..i + 1], from.captured)
      ensures x.Answered? && x.writable ==> p'.messages == from.messages + Results(calls[..i + 1])
    {
      var c := calls[i];
      p', x := p, Thrown;
      if c.args.Unreadable? { return; }
      x := ExecuteTool(c);
      if x.Thrown? { return; }
      OneMoreCall(calls, i, iteration);
      OneMoreCapture(calls, i, from.captured);
      Assoc(rows, AuditOf(calls[..i], iteration), [ToolCalled(c.tool, iteration)]);
      Assoc(bodies, RunsOf(calls[..i]), RunOf(c));
      Assoc(from.usedTools, ToolsOf(calls[..i]), [c.tool]);
      Assoc(from.messages, Results(calls[..i]), [ToolResult(c.id, c.tool)]);
      audit := audit + [ToolCalled(c.tool, iteration)];
      p' := Progress(p.messages, p.usedTools + [c.tool], if c.tool.CaptureLead? then x.captured else p.captured);
      if x.writable { p' := p'.(messages := p.messages + [ToolResult(c.id, c.tool)]); }
    }

    /** The deterministic planner. */
    method RunDeterministic(message: string, memory: seq<MemoryMessage>) returns (r: AgentResult)
      requires Ready()
      modifies this`audit, this`runs
      ensures var f := FallbackOf(planner, message, memory, world.plan);
        audit == old(audit) + f.audit && runs == old(runs) + f.runs && IsFallbackResult(r, f)
    {
      var budgetUsed := BudgetUsed(message, memory);
      if MAX_AGENT_TOKENS_PER_TURN - budgetUsed <= 0 {
        r := CapHitPath(TokenKind, []);
        return;
      }
      assert IsPlan(planner(message));
      r := RunPlan(planner(message), PLAN_REASON, |message| > MAX_QUERY_CHARS);
    }

    /** The loop over the planned tools.  Two of its branches are dead: the plan names at most five tools,
        all allowed, and it is never empty, so there is always something to answer with. */
    method RunPlan(tools: seq<Tool>, reason: string, tooLong: bool) returns (r: AgentResult)
      requires Ready() && IsPlan(tools)
      modifies this`audit, this`runs
      ensures var f := PlannedFallback(tools, tooLong, world.plan);
        audit == old(audit) + f.audit && runs == old(runs) + f.runs && IsFallbackResult(r, f)
    {
      var used: seq<Tool> := [];
      var parts: seq<Part> := [];
      var escalated := false;
      for i := 0 to |tools|
        invariant audit == old(audit) + PlanAudit(used) && runs == old(runs) + PlanRuns(used)
        invariant used == tools[..i] && Escalate !in used && !escalated && parts == PlanParts(used, tooLong, world.plan)
      {
        assert i < MAX_AGENT_ITERATIONS && !tools[i].Unknown?;
        var part, handedOver := CallTool(tools[i], reason, tooLong);
        audit := audit + [ToolCalled(tools[i], i + 1)];
        PlanStep(used, tools[i], tooLong, world.plan);
        Assoc(old(audit), PlanAudit(used), [ToolCalled(tools[i], i + 1)]);
        Assoc(old(runs), PlanRuns(used), [Run(tools[i], Planned)]);
        used := used + [tools[i]];
        parts := parts + [part];
        if tools[i] == Escalate {
          escalated := handedOver;
          assert used == tools;
          break;
        }
      }
      assert used == tools && (escalated <==> Escalate in tools);
      Assoc(old(audit), PlanAudit(used), [TurnCompleted]);
      audit := audit + [TurnCompleted];
      assert parts != [];
      r := AgentResult(Joined(parts), used, escalated);
    }

    /** Run one planned tool and say what came of it. */
    method CallTool(tool: Tool, reason: string, tooLong: bool) returns (part: Part, handedOver: bool)
      requires !tool.Unknown?
      modifies this`runs
      ensures runs == old(runs) + [Run(tool, Planned)] && part == PartOf(tool, tooLong, world.plan)
      ensures handedOver <==> tool == Escalate
    {
      handedOver := false;
      match tool {
        case RagSearch => part := Found(if tooLong then "" else world.plan.search);
        case CaptureLead =>
          match world.plan.lead {
            case LeadRateLimited => part := AlreadyCaptured;
            case LeadCaptured(hasContact) => part := if hasContact then LeadNoted else ContactWanted;
            case LeadInvalid => part := LeadNoted;
          }
        case Escalate =>
          Escalation.AlwaysEscalated(reason);
          part, handedOver := HandedOver, Escalation.StatusFor(reason) == Escalation.ESCALATED;
      }
      runs := runs + [Run(tool, Planned)];
    }

    /** The loop with the model. */
    method RunLlmLoop(prompt: string, message: string, memory: seq<MemoryMessage>) returns (o: Outcome)
      requires audit == [TurnStarted] && runs == [] && asks == [] && Ready()
      modifies this
      ensures IsLlmTurn(world.llm, Opening(prompt, memory, message), FallbackOf(planner, message, memory, world.plan),
                        Log(audit, runs, asks), o)
    {
      o := Iterate(Opening(prompt, memory, message), message, memory);
    }

    /** The loop from an opening on. */
    method Iterate(opening: seq<Message>, message: string, memory: seq<MemoryMessage>) returns (o: Outcome)
      requires audit == [TurnStarted] && runs == [] && asks == [] && Ready()
      modifies this
      ensures IsLlmTurn(world.llm, opening, FallbackOf(planner, message, memory, world.plan), Log(audit, runs, asks), o)
    {
      var v, iterations, result := Vars(opening, [], 0, false), 0, GoesOn;
      while iterations < MAX_AGENT_ITERATIONS && result.GoesOn?
        invariant 0 <= iterations <= MAX_AGENT_ITERATIONS
        invariant IsIteration(world.llm, opening, FallbackOf(planner, message, memory, world.plan), iterations,
                              Log(audit, runs, asks), v, result)
        decreases MAX_AGENT_ITERATIONS - iterations
      {
        v, result := RunIteration(opening, iterations, message, memory, v);
        iterations := iterations + 1;
      }
      if result.Ends? { return result.outcome; }
      var r := Exhausted(opening, v, FallbackOf(planner, message, memory, world.plan));
      o := Returned(r);
    }

    /** Five completions let the loop go on. */
    method Exhausted(ghost opening: seq<Message>, v: Vars, ghost f: Fallback) returns (r: AgentResult)
      requires AtStep(world.llm, opening, MAX_AGENT_ITERATIONS, Log(audit, runs, asks), v)
      modifies this`audit, this`runs
      ensures IsLlmTurn(world.llm, opening, f, Log(audit, runs, asks), Returned(r))
    {
      ghost var before := Log(audit, runs, asks);
      r := CapHitPath(IterationKind, v.usedTools);
      LoopIsExhausted(world.llm, opening, before, v, Log(audit, runs, asks), f, r);
    }

    /** One iteration of the loop, after `done` completions. */
    method RunIteration(ghost opening: seq<Message>, done: nat, message: string, memory: seq<MemoryMessage>, v: Vars)
      returns (v': Vars, result: IterationResult)
      requires Ready() && done < MAX_AGENT_ITERATIONS
      requires AtStep(world.llm, opening, done, Log(audit, runs, asks), v)
      modifies this
      ensures IsIteration(world.llm, opening, FallbackOf(planner, message, memory, world.plan), done + 1,
                          Log(audit, runs, asks), v', result)
    {
      ghost var before := Log(audit, runs, asks);
      v', result := AskModel(done, message, memory, v);
      LoopStep(world.llm, opening, done, before, v, Log(audit, runs, asks),
               FallbackOf(planner, message, memory, world.plan), v', result);
    }

    /** Ask the model, then stop on failure, text, escalation or a cap, or go on. */
    method AskModel(done: nat, message: string, memory: seq<MemoryMessage>, v: Vars) returns (v': Vars, result: IterationResult)
      requires Ready() && done < MAX_AGENT_ITERATIONS
      modifies this
      ensures IsEffect(world.llm(done), done + 1, FallbackOf(planner, message, memory, world.plan),
                       Log(old(audit), old(runs), old(asks)), v, Log(audit, runs, asks), v', result)
    {
      ghost var before, f := Log(audit, runs, asks), FallbackOf(planner, message, memory, world.plan);
      var r: AgentResult;
      v' := v;
      asks := asks + [Ask(v.messages, v.tokens)];
      var completion := world.llm(done);
      if completion.Failed? {
        r := RunDeterministic(message, memory);
        NoCallsEffect(completion, done + 1, f, before, v, Log(audit, runs, asks), v', Returned(r));
        return v', Ends(Returned(r));
      }
      if completion.calls == [] {
        audit := audit + [TurnCompleted];
        assert runs + [] == runs;
        var answer := if Strip(completion.content) != "" then Text(Strip(completion.content))
                      else if v.captured then CapturedMessage else RecordedMessage;
        r := AgentResult(answer, v.usedTools, Escalate in v.usedTools);
        NoCallsEffect(completion, done + 1, f, before, v, Log(audit, runs, asks), v', Returned(r));
        return v', Ends(Returned(r));
      }
      v', result := RunCalls(done + 1, completion, v, before, f);
    }

    /** The calls of one completion, and what follows from them. */
    method RunCalls(iterations: nat, completion: Completion, v: Vars, ghost before: Log, ghost f: Fallback)
      returns (v': Vars, result: IterationResult)
      requires completion.Completion? && completion.calls != []
      requires before == Log(audit, runs, before.asks) && asks == before.asks + [Ask(v.messages, v.tokens)]
      modifies this`audit, this`runs
      ensures IsEffect(completion, iterations, f, before, v, Log(audit, runs, asks), v', result)
    {
      var tokens := v.tokens + completion.totalTokens;
      var request := AssistantCalls(completion.content, completion.calls);
      var p, end := ExecuteCalls(completion.calls, iterations, Progress(v.messages + [request], v.usedTools, v.captured));
      v' := Vars(p.messages, p.usedTools, tokens, p.captured);
      if end.StoppedByError? {
        assert audit + [] == audit && runs + [] == runs;
        return v', Ends(Raised);
      }
      if end.StoppedByEscalation? {
        audit := audit + [TurnCompleted];
        assert runs + [] == runs;
        return v', Ends(Returned(AgentResult(EscalatedMessage, p.usedTools, true)));
      }
      Assoc(v.messages, [request], Results(completion.calls));
      if tokens >= MAX_AGENT_TOKENS_PER_TURN {
        var r := CapHitPath(TokenKind, p.usedTools);
        return v', Ends(Returned(r));
      }
      result := GoesOn;
    }
  }

  lemma PlanStep(used: seq<Tool>, tool: Tool, tooLong: bool, w: PlanWorld)
    ensures PlanAudit(used + [tool]) == PlanAudit(used) + [ToolCalled(tool, |used| + 1)]
    ensures PlanRuns(used + [tool]) == PlanRuns(used) + [Run(tool, Planned)]
    ensures PlanParts(used + [tool], tooLong, w) == PlanParts(used, tooLong, w) + [PartOf(tool, tooLong, w)]
  {}

  /** What a turn leaves behind.  Without a model the deterministic plan decides; a blank message goes
      straight to the cap path. */
  ghost predicate IsTurn(world: World, planner: string -> seq<Tool>, hasClient: bool, prompt: string, cleaned: string,
                         memory: seq<MemoryMessage>, o: Outcome, log: Log) {
    IsTurnWith(world.llm, hasClient, cleaned == "", Opening(prompt, memory, cleaned),
      FallbackOf(planner, cleaned, memory, world.plan), o, log)
  }

  ghost predicate IsTurnWith(llm: Llm, hasClient: bool, blank: bool, opening: seq<Message>, f: Fallback, o: Outcome, log: Log) {
    if blank then
      && log == Log([TurnStarted, IterationCapHit], [Run(Escalate, CapReached)], [])
      && o == Returned(AgentResult(CapHitMessage, [Escalate], true))
    else if !hasClient then log == Log([TurnStarted] + f.audit, f.runs, []) && o.Returned? && IsFallbackResult(o.result, f)
    else IsLlmTurn(llm, opening, f, log, o)
  }

  /** Whatever happens, a turn is sound; and it is closed exactly if no call that is reached fails. */
  lemma {:induction false} TurnIsSound(llm: Llm, hasClient: bool, blank: bool, opening: seq<Message>,
    f: Fallback, o: Outcome, log: Log)
    requires IsSoundFallback(f) && IsTurnWith(llm, hasClient, blank, opening, f, o, log)
    ensures IsSoundTurn(o.Raised?, log.audit, log.runs)
    ensures IsTurnTrace(log.audit) <==> !FailsSomewhere(llm, |log.asks|)
  {
    if blank {
      BlankTurnIsSound();
    } else if !hasClient {
      FallbackTurnIsSound(f);
    } else {
      ClosedIff(llm, opening, f, log, o);
    }
  }

  /** Without a model, or when its first completion fails, the message alone decides. */
  lemma PlannedTurn(world: World, hasClient: bool, prompt: string, cleaned: string, memory: seq<MemoryMessage>, o: Outcome, log: Log)
    requires IsTurn(world, PlanTools, hasClient, prompt, cleaned, memory, o, log)
    requires cleaned != "" && (!hasClient || world.llm(0).Failed?)
    ensures o.Returned? && FollowsMessage(cleaned, memory, log.audit, log.runs, o.result)
  {
    var f := FallbackOf(PlanTools, cleaned, memory, world.plan);
    if hasClient { FailureFallsBack(world.llm, Opening(prompt, memory, cleaned), f, log, o); }
    FallbackFollowsMessage(cleaned, memory, world.plan, [TurnStarted], o.result);
  }

  /** One agent turn. */
  method RunAgent(world: World, hasClient: bool, prompt: string, message: string, memory: seq<MemoryMessage>)
    returns (o: Outcome, log: Log)
    ensures IsSoundTurn(o.Raised?, log.audit, log.runs)
    ensures IsTurnTrace(log.audit) <==> !FailsSomewhere(world.llm, |log.asks|)
    ensures IsTurn(world, PlanTools, hasClient, prompt, Strip(message), memory, o, log)
    ensures Strip(message) != "" && (!hasClient || world.llm(0).Failed?) ==>
      o.Returned? && FollowsMessage(Strip(message), memory, log.audit, log.runs, o.result)
  {
    o, log := RunTurn(world, PlanTools, hasClient, prompt, Strip(message), memory);
    ghost var cleaned := Strip(message);
    if cleaned != "" && (!hasClient || world.llm(0).Failed?) {
      PlannedTurn(world, hasClient, prompt, cleaned, memory, o, log);
    }
    FallbackIsSound(PlanTools, cleaned, memory, world.plan);
    TurnIsSound(world.llm, hasClient, cleaned == "", Opening(prompt, memory, cleaned),
      FallbackOf(PlanTools, cleaned, memory, world.plan), o, log);
  }

  /** The same with the message stripped and the planner abstract. */
  method RunTurn(world: World, planner: string -> seq<Tool>, hasClient: bool, prompt: string, cleaned: string, memory: seq<MemoryMessage>)
    returns (o: Outcome, log: Log)
    requires forall m :: IsPlan(planner(m))
    ensures IsTurn(world, planner, hasClient, prompt, cleaned, memory, o, log)
  {
    var turn := new Turn(world, planner);
    if cleaned == "" {
      var r := turn.CapHitPath(EmptyMessage, []);
      o := Returned(r);
    } else if !hasClient {
      var r := turn.RunDeterministic(cleaned, memory);
      o := Returned(r);
    } else {
      o := turn.RunLlmLoop(prompt, cleaned, memory);
    }
    log := Log(turn.audit, turn.runs, turn.asks);
  }
}
