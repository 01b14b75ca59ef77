/** The bounded tool-calling loop of one agent turn.

    The model is an arbitrary function from the number of the call to a completion, so every claim
    below holds however it adapts to what it is shown.  The turn keeps three traces: its audit rows,
    the tool bodies it ran, and what it asked the model. */
module AgentSpec {
  import opened Text

  const MAX_AGENT_ITERATIONS := 5
  const MAX_AGENT_TOKENS_PER_TURN := 4000
  const MAX_QUERY_CHARS := 500

  /** A tool name as the model wrote it; anything outside the allowlist is Unknown. */
  datatype Tool = RagSearch | CaptureLead | Escalate | Unknown(name: string)

  /** What a call's argument text is: an object that the tool's schema accepts, or one that it refuses
      (`echoable` says whether the refusal, which quotes it, can be written as JSON), a JSON value that is
      no object, or nested too deeply to be read at all.  Text that is no JSON counts as the empty object. */
  datatype Args = Accepted | Refused(echoable: bool) | NotAnObject | Unreadable

  /** A requested call, with what its tool answers if it runs: `captured` says whether capture_lead answers
      "captured", and `scanned` is the number of chunks that rag_search takes from the direct scan. */
  datatype ToolCall = ToolCall(id: string, tool: Tool, args: Args, reason: string, captured: bool, scanned: nat)

  datatype Completion = Failed | Completion(totalTokens: int, content: string, calls: seq<ToolCall>)

  type Llm = nat -> Completion

  datatype MemoryMessage = MemoryMessage(role: string, content: string)

  datatype Message =
    | System(content: string)
    | Said(role: string, content: string)
    | AssistantCalls(content: string, calls: seq<ToolCall>)
    | ToolResult(id: string, tool: Tool)

  datatype Audit = TurnStarted | ToolCalled(tool: Tool, iteration: int) | TurnCompleted | IterationCapHit | TokenCapHit

  /** Why a body ran: on the model's request, by the deterministic plan, or as "agent_cap_hit". */
  datatype Cause = Requested(reason: string) | Planned | CapReached

  /** A tool body that ran. */
  datatype Run = Run(tool: Tool, cause: Cause)

  /** One call of the model: the messages sent and the tokens spent before. */
  datatype Ask = Ask(messages: seq<Message>, tokens: int)

  /** The sentences of the deterministic path; all but the search's own text are fixed and not blank. */
  datatype Part = Found(text: string) | AlreadyCaptured | ContactWanted | LeadNoted | HandedOver

  /** What the visitor is told: the model's text, one of the fixed messages, or the joined parts. */
  datatype Answer = Text(text: string) | CapHitMessage | EscalatedMessage | CapturedMessage | RecordedMessage | Joined(parts: seq<Part>)

  datatype AgentResult = AgentResult(answer: Answer, usedTools: seq<Tool>, escalated: bool)

  /** How a turn ends for its caller: with a result, or with an uncaught exception. */
  datatype Outcome = Returned(result: AgentResult) | Raised

  datatype Log = Log(audit: seq<Audit>, runs: seq<Run>, asks: seq<Ask>)

  predicate IsBlankPart(p: Part) { p.Found? && Strip(p.text) == "" }

  /** "\n\n".join(part for part in parts if part.strip()) is empty iff every part is blank. */
  predicate IsEmptyAnswer(a: Answer) {
    match a
    case Text(t) => t == ""
    case Joined(parts) => forall i :: 0 <= i < |parts| ==> IsBlankPart(parts[i])
    case _ => false
  }

  // ---- What the completions of the model mean for the turn --------------------------------------

  /** The call runs the escalate body, which always answers "escalated" (Escalation.AlwaysEscalated). */
  predicate Escalates(c: ToolCall) {
    c.tool == Escalate && c.args.Accepted?
  }

  /** An exception before the tool runs: the text cannot be read, or an allowed tool is given no object. */
  predicate FailsBefore(c: ToolCall) {
    c.args.Unreadable? || (c.args.NotAnObject? && !c.tool.Unknown?)
  }

  /** An exception after the tool_called row: the result cannot be written as JSON.  Chunks from the scan
      carry ids that are no strings; those from the index do not. */
  predicate FailsAfter(c: ToolCall) {
    || (c.tool == RagSearch && c.args.Accepted? && c.scanned > 0)
    || (!c.tool.Unknown? && c.args.Refused? && !c.args.echoable)
  }

  predicate Fails(c: ToolCall) { FailsBefore(c) || FailsAfter(c) }

  predicate Stops(c: ToolCall) { Fails(c) || Escalates(c) }

  /** Call j is reached: no call before it stops. */
  predicate IsReached(calls: seq<ToolCall>, j: nat) {
    j < |calls| && forall k :: 0 <= k < j ==> !Stops(calls[k])
  }

  datatype CallsEnd = AllRan | StoppedByEscalation | StoppedByError

  function EndOf(calls: seq<ToolCall>): CallsEnd {
    if calls == [] then AllRan
    else if Fails(calls[0]) then StoppedByError
    else if Escalates(calls[0]) then StoppedByEscalation
    else EndOf(calls[1..])
  }

  function Calls(c: Completion): seq<ToolCall> {
    if c.Failed? then [] else c.calls
  }

  function EndAt(llm: Llm, i: nat): CallsEnd {
    EndOf(Calls(llm(i)))
  }

  function Tokens(c: Completion): int {
    if c.Failed? then 0 else c.totalTokens
  }

  /** The calls of one completion that are executed, and have a row: all, or up to the one that stops. */
  function Processed(calls: seq<ToolCall>): seq<ToolCall> {
    if calls == [] || FailsBefore(calls[0]) then []
    else [calls[0]] + (if Stops(calls[0]) then [] else Processed(calls[1..]))
  }

  function Spent(llm: Llm, n: nat): int {
    if n == 0 then 0 else Spent(llm, n - 1) + Tokens(llm(n - 1))
  }

  /** The audit rows, the reported tools and the executed bodies of the calls of one iteration.  A call
      outside the allowlist or with arguments the schema refuses runs nothing. */
  function AuditOf(calls: seq<ToolCall>, iteration: int): seq<Audit> {
    seq(|calls|, i requires 0 <= i < |calls| => ToolCalled(calls[i].tool, iteration))
  }

  function ToolsOf(calls: seq<ToolCall>): seq<Tool> {
    seq(|calls|, i requires 0 <= i < |calls| => calls[i].tool)
  }

  function RunsOf(calls: seq<ToolCall>): seq<Run> {
    if calls == [] then [] else RunsOf(calls[..|calls| - 1]) + RunOf(calls[|calls| - 1])
  }

  function RunOf(c: ToolCall): seq<Run> {
    if !c.tool.Unknown? && c.args.Accepted? then [Run(c.tool, Requested(c.reason))] else []
  }

  /** The calls executed of the n-th completion. */
  function Done(llm: Llm, n: nat): seq<ToolCall>
    requires n > 0
  {
    Processed(Calls(llm(n - 1)))
  }

  /** The audit rows after the first n completions, the tools reported and the bodies executed for them. */
  function AuditAfter(llm: Llm, n: nat): seq<Audit> {
    if n == 0 then [TurnStarted] else AuditAfter(llm, n - 1) + AuditOf(Done(llm, n), n)
  }

  function UsedTools(llm: Llm, n: nat): seq<Tool> {
    if n == 0 then [] else UsedTools(llm, n - 1) + ToolsOf(Done(llm, n))
  }

  function Bodies(llm: Llm, n: nat): seq<Run> {
    if n == 0 then [] else Bodies(llm, n - 1) + RunsOf(Done(llm, n))
  }

  /** Whether the last capture_lead call so far answered "captured"; one that is refused does not. */
  function CapturedAfter(calls: seq<ToolCall>, before: bool): bool {
    if calls == [] then before
    else
      var last := calls[|calls| - 1];
      if last.tool.CaptureLead? then last.args.Accepted? && last.captured else CapturedAfter(calls[..|calls| - 1], before)
  }

  function Captured(llm: Llm, n: nat): bool {
    if n == 0 then false else CapturedAfter(Done(llm, n), Captured(llm, n - 1))
  }

  /** The messages after the first n completions: each request is followed by its results, in order. */
  function History(llm: Llm, opening: seq<Message>, n: nat): seq<Message> {
    if n == 0 then opening else History(llm, opening, n - 1) + Exchange(llm(n - 1))
  }

  function Exchange(c: Completion): seq<Message> {
    if c.Failed? then [] else [AssistantCalls(c.content, c.calls)] + Results(c.calls)
  }

  function Results(calls: seq<ToolCall>): seq<Message> {
    seq(|calls|, i requires 0 <= i < |calls| => ToolResult(calls[i].id, calls[i].tool))
  }

  function LastSix<T>(s: seq<T>): seq<T> {
    if |s| <= 6 then s else s[|s| - 6..]
  }

  /** The user and assistant entries among the given memory. */
  function Remembered(memory: seq<MemoryMessage>): seq<Message> {
    if memory == [] then []
    else
      var last := memory[|memory| - 1];
      Remembered(memory[..|memory| - 1])
      + (if last.role == "user" || last.role == "assistant" then [Said(last.role, last.content)] else [])
  }

  function Opening(prompt: string, memory: seq<MemoryMessage>, message: string): seq<Message> {
    [System(prompt)] + Remembered(LastSix(memory)) + [Said("user", message)]
  }

  /** Completion i lets the loop go on: it asks for tools, none of them stops, tokens are left. */
  predicate Continues(llm: Llm, i: nat) {
    LetsGoOn(llm(i), Spent(llm, i + 1))
  }

  predicate LetsGoOn(c: Completion, spent: int) {
    c.Completion? && c.calls != [] && EndOf(c.calls).AllRan? && spent < MAX_AGENT_TOKENS_PER_TURN
  }

  /** The loop asks until a completion does not let it go on, and at most five times. */
  ghost predicate AsksTimes(llm: Llm, n: nat) {
    && 1 <= n <= MAX_AGENT_ITERATIONS && (forall i: nat :: i < n - 1 ==> Continues(llm, i))
    && (n < MAX_AGENT_ITERATIONS ==> !Continues(llm, n - 1))
  }

  datatype Exit = ByFailure | ByText | ByError | ByModelEscalation | ByTokenCap | ByIterationCap

  function ExitOf(llm: Llm, n: nat): Exit
    requires n > 0
  {
    ExitBy(llm(n - 1), Spent(llm, n))
  }

  /** How a turn ends whose last completion is c. */
  function ExitBy(c: Completion, spent: int): Exit {
    if c.Failed? then ByFailure
    else if c.calls == [] then ByText
    else if EndOf(c.calls).StoppedByError? then ByError
    else if EndOf(c.calls).StoppedByEscalation? then ByModelEscalation
    else if spent >= MAX_AGENT_TOKENS_PER_TURN then ByTokenCap
    else ByIterationCap
  }

  // ---- The deterministic plan -------------------------------------------------------------------

  predicate NeedsHuman(m: string) {
    Occurs("human", m) || Occurs("real person", m) || Occurs("live person", m) || Occurs("representative", m)
    || Occurs("manager", m) || Occurs("support team", m) || Occurs("talk to someone", m)
    || Occurs("speak to someone", m) || Occurs("live agent", m)
  }

  predicate NeedsLeadCapture(m: string) {
    Occurs("contact", m) || Occurs("call me", m) || Occurs("email me", m) || Occurs("quote", m) || Occurs("pricing", m)
    || Occurs("demo", m) || Occurs("sales", m) || Occurs("book a meeting", m)
  }

  predicate NeedsKnowledgeLookup(m: string) {
    Occurs("what", m) || Occurs("how", m) || Occurs("when", m) || Occurs("where", m) || Occurs("why", m)
    || Occurs("which", m) || Occurs("do you", m) || Occurs("can you", m) || Occurs("?", m)
    || Occurs("plan", m) || Occurs("service", m) || Occurs("services", m) || Occurs("offer", m) || Occurs("offers", m)
    || Occurs("include", m) || Occurs("included", m) || Occurs("pricing options", m) || Occurs("location", m)
    || Occurs("located", m)
  }

  function PlanTools(message: string): (tools: seq<Tool>)
    ensures IsPlan(tools)
  {
    var m := Lower(message);
    if NeedsHuman(m) then [Escalate]
    else if NeedsKnowledgeLookup(m) && NeedsLeadCapture(m) then [RagSearch, CaptureLead]
    else if NeedsLeadCapture(m) then [CaptureLead]
    else [RagSearch]
  }

  predicate IsPlan(tools: seq<Tool>) {
    tools == [Escalate] || tools == [RagSearch, CaptureLead] || tools == [CaptureLead] || tools == [RagSearch]
  }

  function RoughTokenCount(text: string): nat {
    if |Split(text)| < 1 then 1 else |Split(text)|
  }

  function MemoryTokenCount(memory: seq<MemoryMessage>): nat {
    if memory == [] then 0 else RoughTokenCount(memory[0].content) + MemoryTokenCount(memory[1..])
  }

  function BudgetUsed(message: string, memory: seq<MemoryMessage>): nat {
    RoughTokenCount(message) + MemoryTokenCount(LastSix(memory))
  }

  // ---- The plan read off the message ------------------------------------------------------------

  const HUMAN_PHRASES := {"human", "real person", "live person", "representative", "manager", "support team",
                          "talk to someone", "speak to someone", "live agent"}
  const FOLLOW_UP_PHRASES := {"contact", "call me", "email me", "quote", "pricing", "demo", "sales", "book a meeting"}
  const KNOWLEDGE_PHRASES := {"what", "how", "when", "where", "why", "which", "do you", "can you", "?", "plan", "service",
                              "services", "offer", "offers", "include", "included", "pricing options", "location", "located"}

  ghost predicate Mentions(text: string, phrases: set<string>) {
    exists p :: p in phrases && Occurs(p, Lower(text))
  }

  /** Which tools a message gets: a wish for a human excludes everything else; a search is made unless the
      message wants a follow-up and asks nothing. */
  lemma PlanMeans(message: string)
    ensures Escalate in PlanTools(message) <==> Mentions(message, HUMAN_PHRASES)
    ensures CaptureLead in PlanTools(message) <==> !Mentions(message, HUMAN_PHRASES) && Mentions(message, FOLLOW_UP_PHRASES)
    ensures RagSearch in PlanTools(message) <==>
      !Mentions(message, HUMAN_PHRASES) && (Mentions(message, KNOWLEDGE_PHRASES) || !Mentions(message, FOLLOW_UP_PHRASES))
  {
    assert NeedsHuman(Lower(message)) <==> Mentions(message, HUMAN_PHRASES);
    assert NeedsLeadCapture(Lower(message)) <==> Mentions(message, FOLLOW_UP_PHRASES);
    assert NeedsKnowledgeLookup(Lower(message)) <==> Mentions(message, KNOWLEDGE_PHRASES);
  }

  /** The words of a text, at least one, and of the entries of a memory from one on. */
  ghost function WordsOf(text: string): nat {
    if Split(text) == [] then 1 else |Split(text)|
  }

  ghost function WordsFrom(memory: seq<MemoryMessage>, from: nat): nat {
    if |memory| <= from then 0 else WordsOf(memory[|memory| - 1].content) + WordsFrom(memory[..|memory| - 1], from)
  }

  /** The words of the message and of the newest six entries of the memory. */
  ghost function WordsOfTurn(message: string, memory: seq<MemoryMessage>): nat {
    WordsOf(message) + WordsFrom(memory, Older(memory))
  }

  /** The number of entries before the newest six. */
  ghost function Older(memory: seq<MemoryMessage>): nat {
    if |memory| <= 6 then 0 else |memory| - 6
  }

  lemma {:induction false} MemoryTokensAppend(memory: seq<MemoryMessage>, last: MemoryMessage)
    ensures MemoryTokenCount(memory + [last]) == MemoryTokenCount(memory) + WordsOf(last.content)
  {
    if memory == [] {
      assert [] + [last] == [last] && [last][1..] == [];
    } else {
      MemoryTokensAppend(memory[1..], last);
      assert (memory + [last])[1..] == memory[1..] + [last];
    }
  }

  lemma {:induction false} EntriesAreCounted(memory: seq<MemoryMessage>, from: nat)
    requires from <= |memory|
    ensures MemoryTokenCount(memory[from..]) == WordsFrom(memory, from)
  {
    if from < |memory| {
      var init, last := memory[..|memory| - 1], memory[|memory| - 1];
      EntriesAreCounted(init, from);
      MemoryTokensAppend(init[from..], last);
      assert memory[from..] == init[from..] + [last];
    }
  }

  /** What the budget is charged. */
  lemma BudgetMeans(message: string, memory: seq<MemoryMessage>)
    ensures BudgetUsed(message, memory) == WordsOfTurn(message, memory)
  {
    EntriesAreCounted(memory, Older(memory));
    assert LastSix(memory) == memory[Older(memory)..];
  }

  datatype LeadStatus = LeadCaptured(hasContact: bool) | LeadRateLimited | LeadInvalid

  /** What the tools of a plan answer. */
  datatype PlanWorld = PlanWorld(lead: LeadStatus, search: string)

  /** The sentence for one planned tool.  A search with a message that is too long to be a query is
      refused by the schema and finds no text. */
  function PartOf(tool: Tool, tooLong: bool, w: PlanWorld): Part {
    match tool
    case RagSearch => Found(if tooLong then "" else w.search)
    case CaptureLead =>
      (match w.lead
       case LeadRateLimited => AlreadyCaptured
       case LeadCaptured(hasContact) => if hasContact then LeadNoted else ContactWanted
       case LeadInvalid => LeadNoted)
    case _ => HandedOver
  }

  /** What the deterministic path adds to a turn: audit rows, executed tools, reported tools, answer. */
  datatype Fallback = Fallback(audit: seq<Audit>, runs: seq<Run>, tools: seq<Tool>, answer: Answer)

  function FallbackOf(planner: string -> seq<Tool>, message: string, memory: seq<MemoryMessage>, w: PlanWorld): Fallback {
    if BudgetUsed(message, memory) >= MAX_AGENT_TOKENS_PER_TURN
    then Fallback([TokenCapHit], [Run(Escalate, CapReached)], [Escalate], CapHitMessage)
    else PlannedFallback(planner(message), |message| > MAX_QUERY_CHARS, w)
  }

  function PlannedFallback(tools: seq<Tool>, tooLong: bool, w: PlanWorld): Fallback {
    Fallback(PlanAudit(tools) + [TurnCompleted], PlanRuns(tools), tools, Joined(PlanParts(tools, tooLong, w)))
  }

  function PlanParts(tools: seq<Tool>, tooLong: bool, w: PlanWorld): seq<Part> {
    seq(|tools|, i requires 0 <= i < |tools| => PartOf(tools[i], tooLong, w))
  }

  /** The deterministic path answers with an empty text exactly when its plan is a search alone for a
      message too long to be a query (a search that runs always says something). */
  lemma EmptyAnswerIff(tools: seq<Tool>, tooLong: bool, w: PlanWorld)
    requires IsPlan(tools) && Strip(w.search) != ""
    ensures IsEmptyAnswer(PlannedFallback(tools, tooLong, w).answer) <==> tools == [RagSearch] && tooLong
  {
    var parts := PlanParts(tools, tooLong, w);
    assert IsBlankPart(parts[|parts| - 1]) <==> tools[|tools| - 1] == RagSearch && tooLong;
  }

  function PlanAudit(tools: seq<Tool>): seq<Audit> {
    seq(|tools|, i requires 0 <= i < |tools| => ToolCalled(tools[i], i + 1))
  }

  function PlanRuns(tools: seq<Tool>): seq<Run> {
    seq(|tools|, i requires 0 <= i < |tools| => Run(tools[i], Planned))
  }

  // ---- What every turn keeps --------------------------------------------------------------------

  predicate IsFinal(a: Audit) {
    a.TurnCompleted? || a.IterationCapHit? || a.TokenCapHit?
  }

  /** turn_started, then tool_called*, then exactly one closing row. */
  ghost predicate IsTurnTrace(audit: seq<Audit>) {
    && |audit| >= 2 && audit[0] == TurnStarted && IsFinal(audit[|audit| - 1])
    && forall i :: 0 < i < |audit| - 1 ==> audit[i].ToolCalled?
  }

  /** turn_started, then tool_called* and nothing else. */
  ghost predicate IsOpenTrace(audit: seq<Audit>) {
    |audit| >= 1 && audit[0] == TurnStarted && forall i :: 0 < i < |audit| ==> audit[i].ToolCalled?
  }

  predicate EscalateRan(runs: seq<Run>) {
    exists i :: 0 <= i < |runs| && runs[i].tool == Escalate
  }

  /** escalate runs at most once, and nothing runs after it. */
  ghost predicate EscalatesLastIfAtAll(runs: seq<Run>) {
    runs == [] || !EscalateRan(runs[..|runs| - 1])
  }

  predicate CapHit(audit: seq<Audit>) {
    audit != [] && (audit[|audit| - 1].IterationCapHit? || audit[|audit| - 1].TokenCapHit?)
  }

  /** Every request for tools is answered by exactly its results, with the same ids in order. */
  ghost predicate Answered(ms: seq<Message>)
    decreases |ms|
  {
    ms == [] || (ms[0].AssistantCalls? && |ms[0].calls| > 0 && |ms| > |ms[0].calls|
      && ms[1..|ms[0].calls| + 1] == Results(ms[0].calls) && Answered(ms[|ms[0].calls| + 1..]))
  }

  predicate IsSpoken(m: Message) {
    m.Said? && (m.role == "user" || m.role == "assistant")
  }

  /** system, at most six user or assistant entries, the user message, answered requests. */
  ghost predicate IsWellFormedHistory(ms: seq<Message>) {
    exists k: nat :: k <= 6 && |ms| >= k + 2 && IsHistoryWith(ms, k)
  }

  ghost predicate IsHistoryWith(ms: seq<Message>, k: nat)
    requires |ms| >= k + 2
  {
    && ms[0].System? && (forall i :: 0 < i <= k ==> IsSpoken(ms[i]))
    && ms[k + 1].Said? && ms[k + 1].role == "user" && Answered(ms[k + 2..])
  }

  lemma AnsweredFirst(request: Message, rest: seq<Message>)
    requires request.AssistantCalls? && request.calls != [] && Answered(rest)
    ensures Answered([request] + Results(request.calls) + rest)
  {
    var s, k := [request] + Results(request.calls) + rest, |request.calls| + 1;
    assert s[0] == request && s[1..k] == Results(request.calls) && s[k..] == rest;
  }

  lemma FirstAnswered(s: seq<Message>) returns (request: Message, rest: seq<Message>)
    requires Answered(s) && s != []
    ensures request.AssistantCalls? && request.calls != [] && Answered(rest) && |rest| < |s|
    ensures s == [request] + Results(request.calls) + rest
  {
    request, rest := s[0], s[|s[0].calls| + 1..];
  }

  lemma {:induction false} AnsweredConcat(a: seq<Message>, b: seq<Message>)
    requires Answered(a) && Answered(b)
    ensures Answered(a + b)
    decreases |a|
  {
    if a == [] {
      assert a + b == b;
    } else {
      var request, rest := FirstAnswered(a);
      AnsweredConcat(rest, b);
      AnsweredFirst(request, rest + b);
      Assoc([request] + Results(request.calls), rest, b);
    }
  }

  predicate AsksForTools(c: Completion) {
    c.Completion? && c.calls != []
  }

  lemma {:induction false} ExchangeIsAnswered(c: Completion)
    requires AsksForTools(c)
    ensures Answered(Exchange(c))
  {
    AnsweredFirst(AssistantCalls(c.content, c.calls), []);
    assert Exchange(c) == Exchange(c) + [];
  }

  lemma AddExchange(opening: seq<Message>, before: seq<Message>, c: Completion)
    requires Answered(before) && AsksForTools(c)
    ensures Answered(before + Exchange(c)) && opening + before + Exchange(c) == opening + (before + Exchange(c))
  {
    ExchangeIsAnswered(c);
    AnsweredConcat(before, Exchange(c));
    Assoc(opening, before, Exchange(c));
  }

  /** What the completions add to the opening is answered. */
  lemma {:induction false} HistoryIsAnswered(llm: Llm, opening: seq<Message>, n: nat) returns (added: seq<Message>)
    requires forall i: nat :: i < n ==> AsksForTools(llm(i))
    ensures History(llm, opening, n) == opening + added && Answered(added)
  {
    if n == 0 {
      added := [];
    } else {
      var before := HistoryIsAnswered(llm, opening, n - 1);
      AddExchange(opening, before, llm(n - 1));
      added := before + Exchange(llm(n - 1));
    }
  }

  lemma {:induction false} RememberedIsShort(memory: seq<MemoryMessage>)
    ensures |Remembered(memory)| <= |memory|
    ensures forall i :: 0 <= i < |Remembered(memory)| ==> IsSpoken(Remembered(memory)[i])
  {
    if memory != [] { RememberedIsShort(memory[..|memory| - 1]); }
  }

  predicate IsUserOrAssistant(e: MemoryMessage) {
    e.role == "user" || e.role == "assistant"
  }

  /** How many of the first k entries of a memory the model is shown, of those that remain from `from` on. */
  ghost function ShownUpTo(memory: seq<MemoryMessage>, from: nat, k: nat): nat
    requires k <= |memory|
  {
    if k <= from then 0 else ShownUpTo(memory, from, k - 1) + (if IsUserOrAssistant(memory[k - 1]) then 1 else 0)
  }

  lemma {:induction false} RememberedAre(memory: seq<MemoryMessage>, from: nat, end: nat)
    requires from <= end <= |memory|
    ensures |Remembered(memory[from..end])| == ShownUpTo(memory, from, end)
    ensures forall k :: from <= k < end && IsUserOrAssistant(memory[k]) ==>
      && ShownUpTo(memory, from, k) < ShownUpTo(memory, from, end)
      && Remembered(memory[from..end])[ShownUpTo(memory, from, k)] == Said(memory[k].role, memory[k].content)
  {
    if from < end {
      RememberedAre(memory, from, end - 1);
      assert memory[from..end][..end - 1 - from] == memory[from..end - 1] && memory[from..end][end - 1 - from] == memory[end - 1];
    }
  }

  /** The prompt, the user and assistant entries among the newest six of the memory, each at its place and
      nothing else, and the message. */
  ghost predicate Begins(ms: seq<Message>, prompt: string, memory: seq<MemoryMessage>, message: string) {
    var from, shown := Older(memory), ShownUpTo(memory, Older(memory), |memory|);
    && |ms| >= shown + 2 && ms[0] == System(prompt) && ms[shown + 1] == Said("user", message)
    && forall k :: from <= k < |memory| && IsUserOrAssistant(memory[k]) ==>
         && ShownUpTo(memory, from, k) < shown
         && ms[1 + ShownUpTo(memory, from, k)] == Said(memory[k].role, memory[k].content)
  }

  lemma OpeningBegins(prompt: string, memory: seq<MemoryMessage>, message: string, added: seq<Message>)
    ensures Begins(Opening(prompt, memory, message) + added, prompt, memory, message)
  {
    assert LastSix(memory) == memory[Older(memory)..|memory|];
    RememberedAre(memory, Older(memory), |memory|);
  }

  /** Every request begins like this; what follows is what the turn added. */
  lemma {:induction false} RequestBegins(llm: Llm, n: nat, prompt: string, memory: seq<MemoryMessage>, message: string)
    ensures Begins(History(llm, Opening(prompt, memory, message), n), prompt, memory, message)
  {
    var added := HistoryExtends(llm, Opening(prompt, memory, message), n);
    OpeningBegins(prompt, memory, message, added);
  }

  lemma {:induction false} HistoryExtends(llm: Llm, opening: seq<Message>, n: nat) returns (added: seq<Message>)
    ensures History(llm, opening, n) == opening + added
  {
    added := [];
    if n > 0 {
      var before := HistoryExtends(llm, opening, n - 1);
      Assoc(opening, before, Exchange(llm(n - 1)));
      added := before + Exchange(llm(n - 1));
    }
  }

  /** Whatever the model did before, the next request it is sent is well formed. */
  lemma HistoryIsWellFormed(llm: Llm, n: nat, prompt: string, memory: seq<MemoryMessage>, message: string)
    requires forall i: nat :: i < n ==> Continues(llm, i)
    ensures IsWellFormedHistory(History(llm, Opening(prompt, memory, message), n))
  {
    var kept := Remembered(LastSix(memory));
    RememberedIsShort(LastSix(memory));
    forall i: nat | i < n ensures AsksForTools(llm(i)) { assert Continues(llm, i); }
    var ms := History(llm, Opening(prompt, memory, message), n);
    var added := HistoryIsAnswered(llm, Opening(prompt, memory, message), n);
    assert ms[0] == System(prompt) && ms[|kept| + 1] == Said("user", message);
    assert ms[|kept| + 2..] == added;
    assert forall i :: 0 < i <= |kept| ==> ms[i] == kept[i - 1];
    assert IsHistoryWith(ms, |kept|);
  }

  lemma FirstAndRest(calls: seq<ToolCall>, k: nat)
    requires 0 < k <= |calls|
    ensures calls[..k] == [calls[0]] + calls[1..][..k - 1]
  {}

  lemma {:induction false} ProcessedRest(calls: seq<ToolCall>)
    requires calls != [] && !Stops(calls[0])
    ensures Processed(calls) == [calls[0]] + Processed(calls[1..]) && EndOf(calls) == EndOf(calls[1..])
  {}

  /** Calls are executed up to the first that stops; one that fails before its tool runs leaves no trace. */
  lemma {:induction false} ProcessedSoFar(calls: seq<ToolCall>, i: nat)
    requires i <= |calls| && forall k :: 0 <= k < i ==> !Stops(calls[k])
    ensures i == |calls| ==> Processed(calls) == calls && EndOf(calls) == AllRan
    ensures i < |calls| && Escalates(calls[i]) ==> Processed(calls) == calls[..i + 1] && EndOf(calls) == StoppedByEscalation
    ensures i < |calls| && FailsBefore(calls[i]) ==> Processed(calls) == calls[..i] && EndOf(calls) == StoppedByError
    ensures i < |calls| && FailsAfter(calls[i]) ==> Processed(calls) == calls[..i + 1] && EndOf(calls) == StoppedByError
  {
    if i > 0 {
      ProcessedSoFar(calls[1..], i - 1);
      ProcessedRest(calls);
      FirstAndRest(calls, i);
      if i < |calls| { FirstAndRest(calls, i + 1); }
    } else if calls != [] {
      assert calls[..1] == [calls[0]];
    }
  }

  /** Where the calls of a completion stop. */
  lemma {:induction false} StopsAt(calls: seq<ToolCall>) returns (i: nat)
    ensures i <= |calls| && (forall k :: 0 <= k < i ==> !Stops(calls[k])) && (i < |calls| ==> Stops(calls[i]))
  {
    i := 0;
    if calls != [] && !Stops(calls[0]) {
      var j := StopsAt(calls[1..]);
      i := j + 1;
      forall k | 0 <= k < i ensures !Stops(calls[k]) { if k > 0 { assert calls[k] == calls[1..][k - 1]; } }
    }
  }

  /** Some call that is reached fails. */
  ghost predicate HasFailure(calls: seq<ToolCall>) {
    exists j: nat :: IsReached(calls, j) && Fails(calls[j])
  }

  lemma FailureMeans(calls: seq<ToolCall>)
    ensures EndOf(calls).StoppedByError? <==> HasFailure(calls)
  {
    var i := StopsAt(calls);
    ProcessedSoFar(calls, i);
    if i < |calls| { assert IsReached(calls, i); }
    forall j: nat | IsReached(calls, j) && Stops(calls[j]) ensures j == i {}
  }

  lemma AllRanMeans(calls: seq<ToolCall>)
    requires EndOf(calls).AllRan?
    ensures Processed(calls) == calls && forall k :: 0 <= k < |calls| ==> !Stops(calls[k])
  {
    var i := StopsAt(calls);
    ProcessedSoFar(calls, i);
  }

  /** Calls that do not escalate run no escalate body. */
  lemma {:induction false} RunsWithoutEscalation(calls: seq<ToolCall>)
    requires forall k :: 0 <= k < |calls| ==> !Escalates(calls[k])
    ensures !EscalateRan(RunsOf(calls))
  {
    if calls != [] {
      RunsWithoutEscalation(calls[..|calls| - 1]);
    }
  }

  /** Unless an escalation stops them, the executed calls do not escalate. */
  lemma ProcessedWithoutEscalation(calls: seq<ToolCall>)
    requires !EndOf(calls).StoppedByEscalation?
    ensures !EscalateRan(RunsOf(Processed(calls)))
  {
    var i := StopsAt(calls);
    ProcessedSoFar(calls, i);
    RunsWithoutEscalation(Processed(calls));
  }

  /** While no completion escalates, no escalate body runs. */
  lemma {:induction false} BodiesWithoutEscalation(llm: Llm, n: nat)
    requires forall i: nat :: i < n ==> !EndAt(llm, i).StoppedByEscalation?
    ensures !EscalateRan(Bodies(llm, n))
  {
    if n > 0 {
      BodiesWithoutEscalation(llm, n - 1);
      assert !EndAt(llm, n - 1).StoppedByEscalation?;
      ProcessedWithoutEscalation(Calls(llm(n - 1)));
      RanInConcat(Bodies(llm, n - 1), RunsOf(Done(llm, n)));
    }
  }

  lemma {:induction false} RowsAreCalls(llm: Llm, n: nat) returns (called: seq<Audit>)
    ensures AuditAfter(llm, n) == [TurnStarted] + called && forall i :: 0 <= i < |called| ==> called[i].ToolCalled?
  {
    called := [];
    if n > 0 {
      var before := RowsAreCalls(llm, n - 1);
      Assoc([TurnStarted], before, AuditOf(Done(llm, n), n));
      called := before + AuditOf(Done(llm, n), n);
    }
  }

  lemma ProcessedEndsInEscalation(calls: seq<ToolCall>) returns (init: seq<ToolCall>, last: ToolCall)
    requires EndOf(calls).StoppedByEscalation?
    ensures Processed(calls) == init + [last] && Escalates(last)
    ensures forall k :: 0 <= k < |init| ==> !Escalates(init[k])
  {
    var i := StopsAt(calls);
    ProcessedSoFar(calls, i);
    init, last := calls[..i], calls[i];
  }

  /** Calls of which only the last escalates run one escalate body, as the last. */
  lemma {:induction false} LastCallEscalates(before: seq<Run>, init: seq<ToolCall>, last: ToolCall)
    requires !EscalateRan(before) && Escalates(last)
    requires forall k :: 0 <= k < |init| ==> !Escalates(init[k])
    ensures EscalatesLastIfAtAll(before + RunsOf(init + [last])) && EscalateRan(before + RunsOf(init + [last]))
  {
    RunsWithoutEscalation(init);
    RanInConcat(before, RunsOf(init));
    OneMoreRun(before + RunsOf(init), Run(Escalate, Requested(last.reason)));
    assert (init + [last])[..|init|] == init;
    Assoc(before, RunsOf(init), RunOf(last));
  }

  lemma OneMoreRun(runs: seq<Run>, run: Run)
    requires !EscalateRan(runs) && run.tool == Escalate
    ensures EscalatesLastIfAtAll(runs + [run]) && EscalateRan(runs + [run])
  {
    assert (runs + [run])[..|runs|] == runs && (runs + [run])[|runs|] == run;
  }

  lemma RanInConcat(a: seq<Run>, b: seq<Run>)
    ensures EscalateRan(a + b) <==> EscalateRan(a) || EscalateRan(b)
  {
    if i :| 0 <= i < |b| && b[i].tool == Escalate { assert (a + b)[|a| + i].tool == Escalate; }
    if i :| 0 <= i < |a| && a[i].tool == Escalate { assert (a + b)[i].tool == Escalate; }
  }

  /** When the model escalates, its escalation is the last body that runs and the only one. */
  lemma {:induction false} ModelEscalationIsLast(llm: Llm, n: nat)
    requires n > 0 && (forall i: nat :: i < n - 1 ==> !EndAt(llm, i).StoppedByEscalation?) && EndAt(llm, n - 1).StoppedByEscalation?
    ensures EscalatesLastIfAtAll(Bodies(llm, n))
    ensures EscalateRan(Bodies(llm, n)) && Escalate in UsedTools(llm, n)
  {
    BodiesWithoutEscalation(llm, n - 1);
    var init, last := ProcessedEndsInEscalation(Calls(llm(n - 1)));
    LastCallEscalates(Bodies(llm, n - 1), init, last);
    LastToolIsReported(UsedTools(llm, n - 1), init, last);
  }

  lemma LastToolIsReported(used: seq<Tool>, init: seq<ToolCall>, last: ToolCall)
    ensures last.tool in used + ToolsOf(init + [last])
  {
    assert ToolsOf(init + [last])[|init|] == last.tool;
  }

  // ---- The outcome of a turn --------------------------------------------------------------------

  /** The answer shown when the model stops with text; it is never blank. */
  function TextAnswer(content: string, captured: bool): (a: Answer)
    ensures !IsEmptyAnswer(a)
  {
    if Strip(content) != "" then Text(Strip(content)) else if captured then CapturedMessage else RecordedMessage
  }

  /** The whole outcome of a turn with a model, read off its completions; `opening` is the history the
      turn starts from and f what its deterministic path would do. */
  ghost predicate IsLlmTurn(llm: Llm, opening: seq<Message>, f: Fallback, log: Log, o: Outcome) {
    var n := |log.asks|;
    && AsksTimes(llm, n)
    && (forall k :: 0 <= k < n ==> IsAsk(llm, opening, log.asks, k))
    && IsOutcome(llm, n, f, log.audit, log.runs, o)
  }

  /** Request k shows the history that the completions before it left, and what they cost. */
  ghost predicate IsAsk(llm: Llm, opening: seq<Message>, asks: seq<Ask>, k: nat)
    requires k < |asks|
  {
    asks[k] == Ask(History(llm, opening, k), Spent(llm, k))
  }

  ghost predicate IsOutcome(llm: Llm, n: nat, f: Fallback, audit: seq<Audit>, runs: seq<Run>, o: Outcome)
    requires n > 0
  {
    && audit == AuditAfter(llm, n) + ClosingRows(ExitOf(llm, n), f)
    && runs == Bodies(llm, n) + ClosingRuns(ExitOf(llm, n), f)
    && IsReport(llm, n, UsedTools(llm, n), f, o)
  }

  /** What the turn reports: `used` are the tools executed over its completions. */
  ghost predicate IsReport(llm: Llm, n: nat, used: seq<Tool>, f: Fallback, o: Outcome)
    requires n > 0
  {
    IsReportOf(ExitOf(llm, n), llm(n - 1), Captured(llm, n - 1), used, f, o)
  }

  ghost predicate IsReportOf(exit: Exit, c: Completion, captured: bool, used: seq<Tool>, f: Fallback, o: Outcome) {
    match exit
    case ByFailure => o.Returned? && IsFallbackResult(o.result, f)
    case ByText => c.Completion? && o == Returned(AgentResult(TextAnswer(c.content, captured), used, Escalate in used))
    case ByError => o == Raised
    case ByModelEscalation => o == Returned(AgentResult(EscalatedMessage, used, true))
    case ByTokenCap => o == Returned(AgentResult(CapHitMessage, used + [Escalate], true))
    case ByIterationCap => o == Returned(AgentResult(CapHitMessage, used + [Escalate], true))
  }

  function ClosingRows(exit: Exit, f: Fallback): seq<Audit> {
    match exit
    case ByFailure => f.audit
    case ByText => [TurnCompleted]
    case ByError => []
    case ByModelEscalation => [TurnCompleted]
    case ByTokenCap => [TokenCapHit]
    case ByIterationCap => [IterationCapHit]
  }

  function ClosingRuns(exit: Exit, f: Fallback): seq<Run> {
    match exit
    case ByFailure => f.runs
    case ByText => []
    case ByError => []
    case ByModelEscalation => []
    case ByTokenCap => [Run(Escalate, CapReached)]
    case ByIterationCap => [Run(Escalate, CapReached)]
  }

  ghost predicate IsFallbackResult(r: AgentResult, f: Fallback) {
    r == AgentResult(f.answer, f.tools, Escalate in f.tools)
  }

  /** What every turn keeps, whatever path it takes: the trace is closed by one row unless an exception ends
      the turn, escalate runs at most once and last, a cap always escalates, and an exception never does. */
  ghost predicate IsSoundTurn(raised: bool, audit: seq<Audit>, runs: seq<Run>) {
    && (if raised then IsOpenTrace(audit) && !EscalateRan(runs) else IsTurnTrace(audit)) && EscalatesLastIfAtAll(runs)
    && (CapHit(audit) ==> runs != [] && runs[|runs| - 1] == Run(Escalate, CapReached))
  }

  /** The same of the part that the deterministic path adds. */
  ghost predicate IsSoundFallback(f: Fallback) {
    && f.audit != [] && IsFinal(f.audit[|f.audit| - 1]) && (forall i :: 0 <= i < |f.audit| - 1 ==> f.audit[i].ToolCalled?)
    && f.runs != [] && EscalatesLastIfAtAll(f.runs) && (CapHit(f.audit) ==> f.runs == [Run(Escalate, CapReached)])
    && (EscalateRan(f.runs) <==> Escalate in f.tools)
  }

  /** The plan is never empty and escalates alone if at all, so the path that follows it is sound. */
  lemma FallbackIsSound(planner: string -> seq<Tool>, message: string, memory: seq<MemoryMessage>, w: PlanWorld)
    requires IsPlan(planner(message))
    ensures IsSoundFallback(FallbackOf(planner, message, memory, w))
  {
    var tools, f := planner(message), FallbackOf(planner, message, memory, w);
    if BudgetUsed(message, memory) >= MAX_AGENT_TOKENS_PER_TURN {
      assert f.runs[0].tool == Escalate;
    } else {
      assert |f.runs| == |tools| && forall i :: 0 <= i < |tools| ==> f.runs[i].tool == tools[i];
    }
  }

  /** Only the last completion of a turn can be stopped, and then the turn ends by that. */
  lemma OnlyTheLastStops(llm: Llm, n: nat)
    requires AsksTimes(llm, n)
    ensures forall i: nat :: i < n - 1 ==> EndAt(llm, i).AllRan?
    ensures EndAt(llm, n - 1).StoppedByEscalation? <==> ExitOf(llm, n).ByModelEscalation?
    ensures EndAt(llm, n - 1).StoppedByError? <==> ExitOf(llm, n).ByError?
  {
    forall i: nat | i < n - 1 ensures EndAt(llm, i).AllRan? { assert Continues(llm, i); }
  }

  /** What the executed calls of a turn ran: no escalate body, or one as the last. */
  lemma {:induction false} BodiesOfTurn(llm: Llm, n: nat)
    requires AsksTimes(llm, n)
    ensures EscalatesLastIfAtAll(Bodies(llm, n))
    ensures EscalateRan(Bodies(llm, n)) <==> ExitOf(llm, n).ByModelEscalation?
    ensures ExitOf(llm, n).ByModelEscalation? ==> Escalate in UsedTools(llm, n)
  {
    OnlyTheLastStops(llm, n);
    if ExitOf(llm, n).ByModelEscalation? {
      ModelEscalationIsLast(llm, n);
    } else {
      BodiesWithoutEscalation(llm, n);
    }
  }

  ghost predicate Ran(runs: seq<Run>, tool: Tool) {
    exists i :: 0 <= i < |runs| && runs[i].tool == tool
  }

  /** What a turn does that follows the message alone: from 4000 words on it hands over; below, which bodies
      run and whether an escalation is reported is decided by the phrases in the message. */
  ghost predicate FollowsMessage(message: string, memory: seq<MemoryMessage>, audit: seq<Audit>, runs: seq<Run>, r: AgentResult) {
    var human, followUp, question :=
      Mentions(message, HUMAN_PHRASES), Mentions(message, FOLLOW_UP_PHRASES), Mentions(message, KNOWLEDGE_PHRASES);
    var words := WordsOfTurn(message, memory);
    && audit != [] && (audit[|audit| - 1] == TokenCapHit <==> words >= MAX_AGENT_TOKENS_PER_TURN)
    && (Ran(runs, Escalate) <==> human || words >= MAX_AGENT_TOKENS_PER_TURN)
    && (r.escalated <==> human || words >= MAX_AGENT_TOKENS_PER_TURN)
    && (Ran(runs, CaptureLead) <==> !human && followUp && words < MAX_AGENT_TOKENS_PER_TURN)
    && (Ran(runs, RagSearch) <==> !human && (question || !followUp) && words < MAX_AGENT_TOKENS_PER_TURN)
  }

  lemma FallbackFollowsMessage(message: string, memory: seq<MemoryMessage>, w: PlanWorld, before: seq<Audit>, r: AgentResult)
    requires IsFallbackResult(r, FallbackOf(PlanTools, message, memory, w))
    ensures var f := FallbackOf(PlanTools, message, memory, w);
      FollowsMessage(message, memory, before + f.audit, f.runs, r)
  {
    var f, tools := FallbackOf(PlanTools, message, memory, w), PlanTools(message);
    BudgetMeans(message, memory);
    PlanMeans(message);
    if BudgetUsed(message, memory) >= MAX_AGENT_TOKENS_PER_TURN {
      assert f.runs[0].tool == Escalate;
    } else {
      RanAsPlanned(tools);
    }
  }

  lemma RanAsPlanned(tools: seq<Tool>)
    ensures forall tool :: Ran(PlanRuns(tools), tool) <==> tool in tools
  {
    forall tool | tool in tools ensures Ran(PlanRuns(tools), tool) {
      var i :| 0 <= i < |tools| && tools[i] == tool;
      assert PlanRuns(tools)[i].tool == tool;
    }
  }

  /** When the first completion fails, the model leaves no trace. */
  lemma FailureFallsBack(llm: Llm, opening: seq<Message>, f: Fallback, log: Log, o: Outcome)
    requires IsLlmTurn(llm, opening, f, log, o) && llm(0).Failed?
    ensures log.audit == [TurnStarted] + f.audit && log.runs == f.runs && o.Returned? && IsFallbackResult(o.result, f)
  {
    FailureIsTheLast(llm, |log.asks|);
    FailedFirst(llm, f, log.audit, log.runs, o);
  }

  lemma FailureIsTheLast(llm: Llm, n: nat)
    requires AsksTimes(llm, n) && llm(0).Failed?
    ensures n == 1
  {
    assert !Continues(llm, 0);
  }

  lemma {:induction false} NothingDone(llm: Llm)
    requires llm(0).Failed?
    ensures AuditAfter(llm, 1) == [TurnStarted] && Bodies(llm, 1) == []
  {
    assert Done(llm, 1) == [] && AuditAfter(llm, 0) == [TurnStarted] && Bodies(llm, 0) == [];
    assert AuditOf([], 1) == [] && RunsOf([]) == [];
  }

  lemma {:induction false} FailedFirst(llm: Llm, f: Fallback, audit: seq<Audit>, runs: seq<Run>, o: Outcome)
    requires IsOutcome(llm, 1, f, audit, runs, o) && llm(0).Failed?
    ensures audit == [TurnStarted] + f.audit && runs == f.runs && o.Returned? && IsFallbackResult(o.result, f)
  {
    assert ExitOf(llm, 1).ByFailure?;
    NothingDone(llm);
  }

  /** For every behaviour of the model, failures and exceptions in mid-loop included, a turn is sound. */
  lemma LlmTurnIsSound(llm: Llm, opening: seq<Message>, f: Fallback, log: Log, o: Outcome)
    requires IsSoundFallback(f) && IsLlmTurn(llm, opening, f, log, o)
    ensures IsSoundTurn(o.Raised?, log.audit, log.runs)
  {
    var n := |log.asks|;
    if ExitOf(llm, n).ByError? { AbortedIsSound(llm, n); } else { TracesAreSound(llm, n, f, ExitOf(llm, n)); }
  }

  lemma AbortedIsSound(llm: Llm, n: nat)
    requires AsksTimes(llm, n) && ExitOf(llm, n).ByError?
    ensures IsSoundTurn(true, AuditAfter(llm, n) + [], Bodies(llm, n) + [])
  {
    BodiesOfTurn(llm, n);
    var called := RowsAreCalls(llm, n);
    OpenIsSound(called, Bodies(llm, n));
    assert AuditAfter(llm, n) + [] == [TurnStarted] + called && Bodies(llm, n) + [] == Bodies(llm, n);
  }

  lemma OpenIsSound(called: seq<Audit>, runs: seq<Run>)
    requires (forall i :: 0 <= i < |called| ==> called[i].ToolCalled?) && !EscalateRan(runs)
    ensures IsSoundTurn(true, [TurnStarted] + called, runs)
  {
  }

  /** Some completion holds a call that is reached and fails. */
  ghost predicate FailsSomewhere(llm: Llm, n: nat) {
    exists i: nat :: i < n && HasFailure(Calls(llm(i)))
  }

  /** The trace of a turn is closed exactly if no call that is reached fails; otherwise the turn raises. */
  lemma ClosedIff(llm: Llm, opening: seq<Message>, f: Fallback, log: Log, o: Outcome)
    requires IsSoundFallback(f) && IsLlmTurn(llm, opening, f, log, o)
    ensures IsSoundTurn(o.Raised?, log.audit, log.runs)
    ensures IsTurnTrace(log.audit) <==> !FailsSomewhere(llm, |log.asks|)
    ensures o.Raised? <==> FailsSomewhere(llm, |log.asks|)
  {
    LlmTurnIsSound(llm, opening, f, log, o);
    FailureEndsTheTurn(llm, |log.asks|);
  }

  lemma FailureEndsTheTurn(llm: Llm, n: nat)
    requires AsksTimes(llm, n)
    ensures ExitOf(llm, n).ByError? <==> FailsSomewhere(llm, n)
  {
    OnlyTheLastStops(llm, n);
    forall i: nat | i < n ensures EndAt(llm, i).StoppedByError? <==> HasFailure(Calls(llm(i))) { FailureMeans(Calls(llm(i))); }
    assert EndAt(llm, n - 1).StoppedByError? <==> HasFailure(Calls(llm(n - 1)));
  }

  lemma TracesAreSound(llm: Llm, n: nat, f: Fallback, exit: Exit)
    requires IsSoundFallback(f) && AsksTimes(llm, n) && exit == ExitOf(llm, n) && !exit.ByError?
    ensures IsSoundTurn(false, AuditAfter(llm, n) + ClosingRows(exit, f), Bodies(llm, n) + ClosingRuns(exit, f))
  {
    BodiesOfTurn(llm, n);
    var called := RowsAreCalls(llm, n);
    ClosesSoundly(exit, f);
    SoundAppend(called, Bodies(llm, n), ClosingRows(exit, f), ClosingRuns(exit, f));
  }

  lemma ClosesSoundly(exit: Exit, f: Fallback)
    requires IsSoundFallback(f) && !exit.ByError?
    ensures IsSoundClosing(ClosingRows(exit, f), ClosingRuns(exit, f))
    ensures exit.ByModelEscalation? ==> ClosingRuns(exit, f) == []
  {}

  /** One closing row in last place, and a body that escalates alone or last where a cap was hit. */
  ghost predicate IsSoundClosing(closing: seq<Audit>, last: seq<Run>) {
    && closing != [] && IsFinal(closing[|closing| - 1]) && (forall i :: 0 <= i < |closing| - 1 ==> closing[i].ToolCalled?)
    && EscalatesLastIfAtAll(last) && (CapHit(closing) ==> last == [Run(Escalate, CapReached)])
  }

  /** Closing rows after tool_called rows make a turn trace. */
  lemma TraceAppend(called: seq<Audit>, closing: seq<Audit>)
    requires forall i :: 0 <= i < |called| ==> called[i].ToolCalled?
    requires closing != [] && IsFinal(closing[|closing| - 1]) && (forall i :: 0 <= i < |closing| - 1 ==> closing[i].ToolCalled?)
    ensures IsTurnTrace([TurnStarted] + called + closing)
    ensures CapHit([TurnStarted] + called + closing) <==> CapHit(closing)
  {}

  /** So do bodies after bodies that do not escalate. */
  lemma RunsAppend(runs: seq<Run>, last: seq<Run>)
    requires !EscalateRan(runs) && last != [] && EscalatesLastIfAtAll(last)
    ensures EscalatesLastIfAtAll(runs + last) && (runs + last)[|runs + last| - 1] == last[|last| - 1]
  {}

  /** A turn that takes the deterministic path at once. */
  lemma FallbackTurnIsSound(f: Fallback)
    requires IsSoundFallback(f)
    ensures IsSoundTurn(false, [TurnStarted] + f.audit, f.runs)
  {
    SoundAppend([], [], f.audit, f.runs);
    assert [TurnStarted] + [] + f.audit == [TurnStarted] + f.audit && [] + f.runs == f.runs;
  }

  lemma BlankTurnIsSound()
    ensures IsSoundTurn(false, [TurnStarted, IterationCapHit], [Run(Escalate, CapReached)])
  {
    SoundAppend([], [], [IterationCapHit], [Run(Escalate, CapReached)]);
  }

  lemma SoundAppend(called: seq<Audit>, runs: seq<Run>, closing: seq<Audit>, last: seq<Run>)
    requires forall i :: 0 <= i < |called| ==> called[i].ToolCalled?
    requires IsSoundClosing(closing, last)
    requires EscalatesLastIfAtAll(runs) && (last == [] || !EscalateRan(runs))
    ensures IsSoundTurn(false, [TurnStarted] + called + closing, runs + last)
  {
    TraceAppend(called, closing);
    if last == [] { assert runs + last == runs; } else { RunsAppend(runs, last); }
  }

  /** At most five calls of the model, each begun with fewer than 4000 tokens spent, so that the total
      stays below 4000 plus the dearest completion. */
  lemma LlmTurnIsBounded(llm: Llm, opening: seq<Message>, f: Fallback, log: Log, o: Outcome, dearest: nat)
    requires IsLlmTurn(llm, opening, f, log, o)
    requires forall i: nat :: i < |log.asks| ==> Tokens(llm(i)) <= dearest
    ensures 1 <= |log.asks| <= MAX_AGENT_ITERATIONS
    ensures forall k :: 0 <= k < |log.asks| ==> log.asks[k].tokens < MAX_AGENT_TOKENS_PER_TURN
    ensures Spent(llm, |log.asks|) < MAX_AGENT_TOKENS_PER_TURN + dearest
  {
    AsksAreBelowTheCap(llm, opening, log.asks);
    TotalIsBounded(llm, |log.asks|, dearest);
  }

  lemma AsksAreBelowTheCap(llm: Llm, opening: seq<Message>, asks: seq<Ask>)
    requires AsksTimes(llm, |asks|) && forall k :: 0 <= k < |asks| ==> IsAsk(llm, opening, asks, k)
    ensures forall k :: 0 <= k < |asks| ==> asks[k].tokens < MAX_AGENT_TOKENS_PER_TURN
  {
    forall k: nat | k < |asks| ensures asks[k].tokens < MAX_AGENT_TOKENS_PER_TURN {
      assert IsAsk(llm, opening, asks, k);
      BegunBelowTheCap(llm, |asks|, k);
    }
  }

  lemma TotalIsBounded(llm: Llm, n: nat, dearest: nat)
    requires AsksTimes(llm, n) && Tokens(llm(n - 1)) <= dearest
    ensures Spent(llm, n) < MAX_AGENT_TOKENS_PER_TURN + dearest
  {
    BegunBelowTheCap(llm, n, n - 1);
  }

  lemma BegunBelowTheCap(llm: Llm, n: nat, k: nat)
    requires AsksTimes(llm, n) && k < n
    ensures Spent(llm, k) < MAX_AGENT_TOKENS_PER_TURN
  {
    if k > 0 { assert Continues(llm, k - 1); }
  }

  /** Every request the model is sent during a turn is a well-formed history. */
  lemma EveryHistoryIsWellFormed(llm: Llm, prompt: string, memory: seq<MemoryMessage>, message: string,
                                 f: Fallback, log: Log, o: Outcome, k: nat)
    requires IsLlmTurn(llm, Opening(prompt, memory, message), f, log, o) && k < |log.asks|
    ensures IsWellFormedHistory(log.asks[k].messages)
  {
    assert IsAsk(llm, Opening(prompt, memory, message), log.asks, k);
    assert forall i: nat :: i < k ==> Continues(llm, i);
    HistoryIsWellFormed(llm, k, prompt, memory, message);
  }

  /** Some call asks for escalate with arguments the schema refuses. */
  predicate AsksInVain(calls: seq<ToolCall>) {
    exists j :: 0 <= j < |calls| && calls[j].tool == Escalate && calls[j].args.Refused?
  }

  ghost predicate HasRefusedEscalation(llm: Llm, n: nat) {
    exists i: nat :: i < n && AsksInVain(Calls(llm(i)))
  }

  lemma OneMoreRefusal(llm: Llm, n: nat)
    requires n > 0
    ensures HasRefusedEscalation(llm, n) <==> HasRefusedEscalation(llm, n - 1) || AsksInVain(Calls(llm(n - 1)))
  {
  }

  lemma ReportedIsRefused(calls: seq<ToolCall>)
    requires EndOf(calls).AllRan?
    ensures Escalate in ToolsOf(Processed(calls)) <==> AsksInVain(calls)
  {
    AllRanMeans(calls);
    forall j | 0 <= j < |calls| ensures calls[j].tool == Escalate ==> calls[j].args.Refused? {
      assert !Stops(calls[j]);
    }
    if AsksInVain(calls) {
      var j :| 0 <= j < |calls| && calls[j].tool == Escalate && calls[j].args.Refused?;
      assert ToolsOf(calls)[j] == Escalate;
    }
  }

  /** While the calls of every completion all ran, escalate is reported as used exactly for refused requests. */
  lemma {:induction false} RefusedIsReported(llm: Llm, n: nat)
    requires forall i: nat :: i < n ==> EndAt(llm, i).AllRan?
    ensures Escalate in UsedTools(llm, n) <==> HasRefusedEscalation(llm, n)
  {
    if n > 0 {
      RefusedIsReported(llm, n - 1);
      assert EndAt(llm, n - 1).AllRan?;
      ReportedIsRefused(Calls(llm(n - 1)));
      OneMoreRefusal(llm, n);
    }
  }

  /** Of a turn that returns, `escalated` is reported iff `escalate` is among the reported tools; and it is
      reported without an escalate body having run exactly when the turn ends in text after the model asked
      for escalate with arguments the schema refused. */
  lemma EscalatedMeans(llm: Llm, opening: seq<Message>, f: Fallback, log: Log, r: AgentResult)
    requires IsSoundFallback(f) && IsLlmTurn(llm, opening, f, log, Returned(r))
    ensures r.escalated <==> Escalate in r.usedTools
    ensures r.escalated && !EscalateRan(log.runs) <==>
      ExitOf(llm, |log.asks|).ByText? && HasRefusedEscalation(llm, |log.asks|)
  {
    var n := |log.asks|;
    WhoEscalates(llm, n, f, ExitOf(llm, n));
    ReportedTools(llm, n, UsedTools(llm, n), f, ExitOf(llm, n), r);
  }

  /** Whether an escalate body ran, by the way the turn ends. */
  lemma {:induction false} WhoEscalates(llm: Llm, n: nat, f: Fallback, exit: Exit)
    requires IsSoundFallback(f) && AsksTimes(llm, n) && exit == ExitOf(llm, n)
    ensures EscalateRan(Bodies(llm, n) + ClosingRuns(exit, f))
      <==> !exit.ByText? && !exit.ByError? && (exit.ByFailure? ==> Escalate in f.tools)
    ensures exit.ByText? ==> (Escalate in UsedTools(llm, n) <==> HasRefusedEscalation(llm, n))
    ensures exit.ByModelEscalation? ==> Escalate in UsedTools(llm, n)
  {
    BodiesOfTurn(llm, n);
    if exit.ByText? { ReportedByText(llm, n); }
    EscalatedInClosing(exit, f);
    RanInConcat(Bodies(llm, n), ClosingRuns(exit, f));
  }

  lemma {:induction false} ReportedByText(llm: Llm, n: nat)
    requires AsksTimes(llm, n) && ExitOf(llm, n).ByText?
    ensures Escalate in UsedTools(llm, n) <==> HasRefusedEscalation(llm, n)
  {
    OnlyTheLastStops(llm, n);
    assert EndAt(llm, n - 1).AllRan?;
    RefusedIsReported(llm, n);
  }

  lemma EscalatedInClosing(exit: Exit, f: Fallback)
    requires IsSoundFallback(f)
    ensures EscalateRan(ClosingRuns(exit, f)) <==>
      exit.ByTokenCap? || exit.ByIterationCap? || (exit.ByFailure? && Escalate in f.tools)
  {
    assert [Run(Escalate, CapReached)][0].tool == Escalate;
  }

  lemma ReportedTools(llm: Llm, n: nat, used: seq<Tool>, f: Fallback, exit: Exit, r: AgentResult)
    requires n > 0 && IsReport(llm, n, used, f, Returned(r)) && exit == ExitOf(llm, n)
    ensures exit.ByText? ==> (r.escalated <==> Escalate in used)
    ensures exit.ByFailure? ==> (r.escalated <==> Escalate in f.tools)
    ensures !exit.ByText? && !exit.ByFailure? ==> r.escalated
    ensures (exit.ByModelEscalation? ==> Escalate in used) ==> (r.escalated <==> Escalate in r.usedTools)
  {
    assert (used + [Escalate])[|used|] == Escalate;
  }

  // ---- Three turns ------------------------------------------------------------------------------

  /** The model asks for one call, then says "Hello." */
  function AsksOnce(c: ToolCall): Llm {
    (i: nat) => if i == 0 then Completion(100, "", [c]) else Completion(100, "Hello.", [])
  }

  /** escalate without a reason. */
  function WithoutReason(): ToolCall { ToolCall("call-1", Escalate, Refused(true), "", false, 0) }

  lemma CarelessTurn()
    ensures var llm := AsksOnce(WithoutReason());
      && AsksTimes(llm, 2) && ExitOf(llm, 2).ByText? && UsedTools(llm, 2) == [Escalate] && Bodies(llm, 2) == []
  {
    var c, llm := WithoutReason(), AsksOnce(WithoutReason());
    assert !Stops(c) && llm(0).calls == [c] && llm(1).calls == [];
    ProcessedSoFar([c], 1);
    assert Spent(llm, 0) == 0 && Spent(llm, 1) == 100;
    assert Continues(llm, 0) && !Continues(llm, 1);
    assert [c][..0] == [] && RunsOf([c]) == [];
    assert Done(llm, 1) == [c] && Done(llm, 2) == [];
    assert UsedTools(llm, 1) == [Escalate] && Bodies(llm, 1) == [];
  }

  /** The promise of a ticket can fail: whatever the history and the deterministic path, this turn reports
      an escalation and ran no escalate body. */
  lemma EscalatedWithoutATicket(opening: seq<Message>, f: Fallback) returns (log: Log, r: AgentResult)
    ensures IsLlmTurn(AsksOnce(WithoutReason()), opening, f, log, Returned(r))
    ensures r.escalated && !EscalateRan(log.runs)
  {
    var llm := AsksOnce(WithoutReason());
    CarelessTurn();
    log := Log(AuditAfter(llm, 2) + [TurnCompleted], Bodies(llm, 2),
               [Ask(History(llm, opening, 0), Spent(llm, 0)), Ask(History(llm, opening, 1), Spent(llm, 1))]);
    r := AgentResult(TextAnswer(llm(1).content, Captured(llm, 1)), UsedTools(llm, 2), true);
    assert IsAsk(llm, opening, log.asks, 0) && IsAsk(llm, opening, log.asks, 1);
    assert log.runs == Bodies(llm, 2) + [];
  }

  /** A first call that fails ends the turn at once. */
  lemma FirstCallFails(c: ToolCall, opening: seq<Message>, f: Fallback) returns (log: Log)
    requires Fails(c)
    ensures IsLlmTurn(AsksOnce(c), opening, f, log, Raised) && |log.asks| == 1
    ensures log.audit == if FailsBefore(c) then [TurnStarted] else [TurnStarted, ToolCalled(c.tool, 1)]
    ensures !IsTurnTrace(log.audit)
  {
    var llm := AsksOnce(c);
    assert Calls(llm(0)) == [c];
    ProcessedSoFar([c], 0);
    assert [c][..0] == [] && [c][..1] == [c];
    assert AuditAfter(llm, 0) == [TurnStarted] && Done(llm, 1) == if FailsBefore(c) then [] else [c];
    assert AuditAfter(llm, 1) == AuditAfter(llm, 0) + AuditOf(Done(llm, 1), 1);
    log := Log(AuditAfter(llm, 1) + [], Bodies(llm, 1) + [], [Ask(History(llm, opening, 0), Spent(llm, 0))]);
    assert IsAsk(llm, opening, log.asks, 0) && !Continues(llm, 0);
  }

  /** The promise of a closing row can fail: one call with the arguments "null" leaves turn_started alone ... */
  lemma NullArguments(opening: seq<Message>, f: Fallback) returns (log: Log)
    ensures IsLlmTurn(AsksOnce(ToolCall("call-1", CaptureLead, NotAnObject, "", false, 0)), opening, f, log, Raised)
    ensures log.audit == [TurnStarted] && !IsTurnTrace(log.audit)
  {
    log := FirstCallFails(ToolCall("call-1", CaptureLead, NotAnObject, "", false, 0), opening, f);
  }

  /** ... and so does one search that is answered from the scan, after its tool_called row. */
  lemma ScannedSearch(opening: seq<Message>, f: Fallback) returns (log: Log)
    ensures IsLlmTurn(AsksOnce(ToolCall("call-1", RagSearch, Accepted, "", false, 1)), opening, f, log, Raised)
    ensures log.audit == [TurnStarted, ToolCalled(RagSearch, 1)] && !IsTurnTrace(log.audit)
  {
    log := FirstCallFails(ToolCall("call-1", RagSearch, Accepted, "", false, 1), opening, f);
  }
}
