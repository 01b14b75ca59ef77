# Verification of the visitor-assistant backend

A Dafny model of the stateful core of the multi-tenant chat widget backend, with proofs of what that
core guarantees over whole histories and runs. `dafny verify dfyconfig.toml` checks everything.

| file | models |
|---|---|
| `TokenBucket.dfy` | the token bucket per key of the widget token endpoint |
| `LeadLimiter.dfy`, `LeadCapture.dfy` | the per-session write guard and the `capture_lead` tool behind it |
| `Wrappers.dfy` | the optional value that the modules share |
| `Text.dfy` | ASCII text: `split`, `join`, `strip`, `lower`, substring search |
| `Chunker.dfy`, `Retriever.dfy`, `CmsPages.dfy` | chunking, retrieval from the stored index or from a direct scan, and the page service that keeps the index |
| `Escalation.dfy` | the `escalate` tool on its tables |
| `AgentSpec.dfy`, `Agent.dfy` | the bounded agent loop with an arbitrary model, and the deterministic plan |
| `Invites.dfy` | the admin invite lifecycle |
| `Origins.dfy`, `OriginText.dfy`, `WidgetConfig.dfy` | origin canonicalisation, which texts are origins, the configuration update with its audit trail, token issuance |
| `SessionMemory.dfy`, `Embedding.dfy`, `Usage.dfy` | the trimmed and expiring chat memory, the hashed embedding, the usage rollup |

Main results:

- **Token bucket.** The bucket's two numbers decide exactly what a meter over all windows of the
  history decides (both directions), and no policy that keeps every window within
  `capacity + refill * length` admits more on the same arrivals.
- **Index and scan.** Whatever sequence of page operations and index syncs ran, retrieval returns only
  pages of the caller that are published now; while the syncs succeed, it answers the pages, chunk numbers, texts,
  scores and order that the scan would. Chunking is lossless, and phrases of at most `overlap + 1` characters are
  found exactly when they occur; that bound is sharp for every size and overlap. An edit stores the fields it gives,
  and what it stores is what the index then names. A chunk's score is the share of query terms it holds, with a quarter
  for the phrase; no chunk with neither is answered, and none with all terms is left out but for others that score as much.
- **Agent turn.** The model is an arbitrary function to completions or failures. For each such function
  the audit rows, executed tools, requests and the outcome of a turn are determined. From that follow, for every
  turn, the finality and uniqueness of escalation, the budget, and the well-formedness of every history that is sent;
  and the trace is closed by exactly one row precisely when no call that is reached raises. Without a model, the phrases
  of the message and the words of the turn decide which tools run and how it closes.
- **Runs of database steps.** One ticket per session, invites that live exactly as long as promised and whose tokens
  die when rotated, used invites in bijection with the users they created, an audit trail that replays to the stored
  origins.

## Where code and documentation differ

- `app/services/rate_limiter.py:94-96` promises "N writes per hour, hard ceiling" (requirement
  FR-025 of feature 010 says the same). The window restarts at the first attempt after it expires, so an
  interval shorter than an hour can hold `2N - 1` writes, and no more: `LeadLimiter.BurstIsLegal` reaches that number for
  every `N`, `LeadLimiter.ShortIntervalUnderOneCap` bounds it, and `LeadLimiter.HardCeilingIff` proves that the promise
  holds exactly for `N <= 1`.
- `app/services/widget_service.py:245-246` promises that the save path and the token endpoint accept the same origins.
  A bracketed host loses its brackets when it is printed, and what is stored is then read differently.
  `Origins.AgreementIff` proves agreement exactly when every submitted origin is stable: its host has no colon and no
  bracket, or what follows its only colon reads like a port that would be printed as it stands. There are two ways to
  fail. `http://[::1]` is accepted on saving and refused on serving (`Origins.LoopbackIsRefused`); and
  `http://[v1.a:80]` is stored as `http://v1.a:80`, so that the endpoint admits `http://v1.a`, which nobody submitted, and refuses
  what was (`Origins.AnotherOriginIsAdmitted`).
- `app/infra/cache.py:35-36` promises that keys prevent session mix-ups. Tenants are kept apart, but identifiers of
  one tenant that differ only in replaced characters and underscores share memory, and so do blank ones and
  `anonymous`: `SessionMemories.KeysCollideIff`, with an instance in `SessionMemories.SessionsCanCollide`.
- Requirement FR-020 of feature 010 asks for a closing audit row per turn. Two exceptions escape the loop:
  `app/agent/agent.py:386-418` handles refused arguments only, not arguments that are no object (`null`, a list, a number)
  or too deeply nested to read; and `json.dumps` at `app/agent/agent.py:325` refuses the ids of chunks that come from the direct scan
  (`app/rag/retriever.py:179-190`) and refusals that quote too deeply nested arguments. Such a turn leaves
  turn_started and tool_called rows only. `AgentSpec.ClosedIff` gives the exact condition,
  `AgentSpec.NullArguments` and `AgentSpec.ScannedSearch` a turn of each kind. While index and pages are in sync and the index can be
  read, a search never returns scanned chunks (`Retriever.RetrieveChunks`).
- `app/agent/agent.py:272` reports `escalated` when `escalate` was merely requested. `AgentSpec.EscalatedMeans` says
  exactly when this happens without an escalation: the turn ends in text, and some completion asked for `escalate` with
  arguments the schema refused. `AgentSpec.EscalatedWithoutATicket` exhibits such a turn.
- A failed configuration update restores the row, but audit rows written before the failure stay:
  `WidgetConfigs.FailedUpdateTracksIff`.

## Reading the model

Times are `real` (limiters) or `int`, ids are `int`, and rows are compared by value. Foreign calls are parameters: the
model (`Llm`), the contact pattern and the redactor, the SHA-256 digest, the bracket check of `urlsplit` (as of
Python 3.11.4), and which statement or audit write raises. A method that the source specifies by its effect
on a database is proved against a function or predicate of the tables before it.

## Model

| member | source | states |
|---|---|---|
| `TokenBuckets.TokenBucket.constructor` | app/services/rate_limiter.py:27-35 | a new bucket is full: its level is what an empty history leaves |
| `TokenBuckets.TokenBucket.TryConsume` | app/services/rate_limiter.py:37-48 | with a non-negative refill the check is allowed iff no window of the bucket's history would be overdrawn; the history grows by it |
| `TokenBuckets.InMemoryTokenBucketRateLimiter.BucketFor` | app/services/rate_limiter.py:60-65 | the key's own bucket, a full new one on first use; no other entry changes |
| `TokenBuckets.InMemoryTokenBucketRateLimiter.CheckKey` | app/services/rate_limiter.py:51-66 | a check is the meter's decision on this key's own history, and every other key's bucket is unchanged |
| `TokenBuckets.PerMinuteLimiter` | app/services/rate_limiter.py:69-82 | the factories: capacity n, refill n / 60 per second |
| `TokenBuckets.RefillDecides` | app/services/rate_limiter.py:40-44 | refilling up to the capacity and comparing with one is the refusal rule over all windows, for any capacity and refill |
| `TokenBuckets.LevelAfter` | app/services/rate_limiter.py:43-47 | taking the token keeps the level equal to the tightest window's slack |
| `TokenBuckets.CreationIsSilent` | app/services/rate_limiter.py:33-35 | the creation of the bucket opens no window that matters |
| `TokenBuckets.ConsumeStep` | app/services/rate_limiter.py:37-48 | one step keeps level and history and agrees with the meter |
| `TokenBuckets.EveryWindowIsBounded` | app/services/rate_limiter.py:37-48 | no window of checks admits more than capacity + refill * length |
| `TokenBuckets.AtMostTwiceTheRatePerMinute` | app/services/rate_limiter.py:69-82 | at most 2n admissions in any 60 seconds under the shipped factories |
| `TokenBuckets.NoPolicyAdmitsMore` | app/services/rate_limiter.py:27-48 | on the same arrivals, no policy that keeps every window within its allowance has admitted more at any point |
| `LeadLimiter.WindowIsCapped` | app/services/rate_limiter.py:141-157 | one window accepts at most the largest cap supplied in it |
| `LeadLimiter.StartsAreApart` | app/services/rate_limiter.py:141-147 | window starts are at least the window length apart |
| `LeadLimiter.ShortIntervalIsBounded` | app/services/rate_limiter.py:129-157 | an interval shorter than the window accepts at most twice the largest cap, however caps change |
| `LeadLimiter.ShortIntervalUnderOneCap` | app/services/rate_limiter.py:129-157 | with one cap n >= 1, at most 2n - 1 |
| `LeadLimiter.BurstIsLegal` | app/services/rate_limiter.py:129-157 | a legal history with one cap n accepts 2n - 1 writes in less than a window, for every n >= 1 |
| `LeadLimiter.HardCeilingIff` | app/services/rate_limiter.py:94-96 | the documented hard ceiling of n writes per window length holds iff n <= 1 |
| `LeadLimiter.KeyIsInjective` | app/services/rate_limiter.py:125-127 | distinct (tenant, session) pairs never share a bucket |
| `LeadLimiter.AttemptStep` | app/services/rate_limiter.py:139-157 | what one more attempt does to the window start and count computed from the history |
| `LeadLimiter.LeadCaptureRateLimiter.RunningWindow` | app/services/rate_limiter.py:140-153 | the record for this attempt: fresh after expiry, otherwise the running one with this call's cap |
| `LeadLimiter.LeadCaptureRateLimiter.Attend` | app/services/rate_limiter.py:139-157 | the session's history grows by the attempt and stays legal; no other session is touched |
| `LeadLimiter.LeadCaptureRateLimiter.CheckAndIncrement` | app/services/rate_limiter.py:129-157 | the same under the session's key, with the default cap when none is given |
| `LeadCapture.OnlyTheContactCanFail` | app/agent/tools.py:164-189 | after the tool's own trimming only the contact can be refused |
| `LeadCapture.CleanedIsLead` | app/agent/tools.py:164-189 | name, contact and intent are stored stripped and cut to 200, 255 and 1000 characters; blank ones are absent, or the default intent |
| `LeadCapture.WritesAreBounded` | app/agent/tools.py:191-216 | lead rows of one session within less than a window number at most twice the largest cap supplied while they were written |
| `LeadCapture.AttemptOf` | app/agent/tools.py:191-216 | the attempt behind the a-th accepted time, in order |
| `LeadCapture.RecordedKeepsAgreement` | app/agent/tools.py:191-231 | rows are written exactly for accepted attempts, session by session and in order |
| `LeadCapture.LeadDesk.InsertIfAllowed` | app/agent/tools.py:191-216 | the limiter decides between the lead row and the audit row; rows and accepted attempts stay in agreement |
| `LeadCapture.LeadDesk.CaptureLead` | app/agent/tools.py:153-231 | validation precedes the limiter and the limiter the write; status, lead row field by field, audit row and history for each outcome; rows and accepted attempts stay in agreement |
| `Text.NormalizeIsIdempotent` | app/rag/ingest.py:229-232 | whitespace normalisation is idempotent |
| `Text.NormalizeSqueezes` | app/rag/ingest.py:229-232 | it squeezes whitespace, keeps all other characters in order, and is the identity on squeezed text |
| `Text.SplitJoin` | app/rag/ingest.py:229-232 | splitting undoes joining with blanks |
| `Text.RunsIff` | app/rag/retriever.py:195-202 | the runs of a text are exactly its maximal stretches of the wanted characters |
| `Text.StripMeans` | app/rag/retriever.py:81 | stripping removes whitespace at both ends, all of it and nothing else |
| `Text.LowerForgetsCase` | app/services/admin_invite.py:89 | two texts have one lower-case form iff they differ in the case of letters only; no capital is left |
| `Chunker.SafeChunkSize` | app/rag/retriever.py:51 | the clamped size is at least 100, and the requested one where that is |
| `Chunker.SafeOverlap` | app/rag/retriever.py:52 | the clamped overlap is non-negative and below the size, for all integers, and the requested one where that is |
| `Chunker.ChunkText` | app/rag/retriever.py:44-70 | for every requested size and overlap, the windows of the normalised text |
| `Chunker.CutText` | app/rag/retriever.py:54-70 | the loop over the normalised text |
| `Chunker.ChunkingIsLossless` | app/rag/retriever.py:58-70 | the chunks without their shared characters rebuild the text; all but the last are full |
| `Chunker.ChunkCount` | app/rag/retriever.py:58-70 | the number of chunks is 0, 1 or 1 + ceil((n - c) / (c - o)) |
| `Chunker.StretchIsInSomeChunk` | app/rag/retriever.py:58-70 | every stretch of at most o + 1 characters lies inside some chunk |
| `Chunker.PhraseCompleteness` | app/rag/retriever.py:58-70 | a phrase of at most o + 1 characters is in some chunk iff it is in the text, case aside |
| `Chunker.LongerPhrasesCanBeMissed` | app/rag/retriever.py:58-70 | the bound is sharp: for every size and overlap some phrase of o + 2 characters is missed |
| `Retriever.Ascending` | app/rag/retriever.py:250-270 | ORDER BY: the elements of a set |
| `Retriever.AscendingIsSorted` | app/rag/retriever.py:250-270 | ORDER BY: in increasing order |
| `Retriever.IndexSelectIsTheJoin` | app/rag/retriever.py:250-270 | the index query returns exactly the caller's rows whose page is the caller's and published now |
| `Retriever.RowsAgree` | app/rag/retriever.py:108-192 | with index and pages in sync, both sources list the same rows in the same order |
| `Retriever.TokenIff` | app/rag/retriever.py:195-202 | the tokens are the maximal alphanumeric runs of three or more characters |
| `Retriever.QueryTermsIff` | app/rag/retriever.py:205-223 | the terms of a query are its tokens and the aliases of what it mentions |
| `Retriever.ScoreMeans` | app/rag/retriever.py:226-243 | the score is the nearest ten-thousandth to the share of terms found, with a quarter for the phrase: 0 without either, 1 for all terms, 1.25 with the phrase; positive iff the phrase or more than one term in 20000 is found |
| `Retriever.ScoreIsMonotone` | app/rag/retriever.py:226-243 | a chunk that holds more of the query scores no less |
| `Retriever.RoundIsNearest` | app/rag/retriever.py:243 | rounding gives a nearest integer, the even one of two |
| `Retriever.CaseIsIgnored` | app/rag/retriever.py:195-243 | terms, phrase and score do not depend on the case of letters in query or chunk |
| `Retriever.SortIsStable` | app/rag/retriever.py:104-105 | ranking is by descending score and keeps the order of equal scores |
| `Retriever.RankIsBest` | app/rag/retriever.py:104-105 | a candidate is left out of an answer only if that is full, of chunks that score at least as much |
| `Retriever.SafeTopK` | app/rag/retriever.py:85 | the number of answers is between 1 and 8, and the requested one where that is |
| `Retriever.RetrieveIndexedCandidates` | app/rag/retriever.py:108-152 | the scored rows of the index query; none when it fails |
| `Retriever.ScanPage` | app/rag/retriever.py:167-190 | the scored chunks of one page |
| `Retriever.RetrieveCmsFallbackCandidates` | app/rag/retriever.py:155-192 | the scored chunks of the caller's published pages |
| `Retriever.RetrieveChunks` | app/rag/retriever.py:73-105 | the index's answer if it has one, else the scan's; in sync, always the scan's, and then the scan is asked in vain; nothing is answered that shares neither a term nor the phrase; in sync, a published chunk with every query term is answered at its full score, or the answer is full of chunks that score as much |
| `Retriever.RelevantOnly` | app/rag/retriever.py:104-152 | a chunk without a term and without the phrase is never answered |
| `Retriever.FullMatches` | app/rag/retriever.py:73-105 | every published chunk with every query term is answered by the scan, or its answer is full of chunks that score as much |
| `Retriever.AnswerIsRow` | app/rag/retriever.py:73-105 | every answer is a row of its source, unchanged |
| `Retriever.FallbackRowOrigin` | app/rag/retriever.py:155-192 | every scanned row is a chunk of a scanned page's body at its index |
| `Retriever.LongRunIff` | app/rag/retriever.py:195-202 | a text has a term iff it has three alphanumerics in a row |
| `Retriever.TermsNeedAWord` | app/rag/retriever.py:205-223 | query aliases never make terms of a query that has none |
| `Retriever.PhraseScores` | app/rag/retriever.py:226-243 | a chunk that contains the phrase scores at least 0.25 |
| `Retriever.PhraseIsBoosted` | app/rag/retriever.py:236-243 | a query of at most 121 characters is boosted on some chunk of a page iff it occurs in its normalised text |
| `Retriever.PhraseIsFound` | app/rag/retriever.py:155-243 | end to end, such a page is a candidate with a score of at least 0.25 |
| `Retriever.PhraseIsAnswered` | app/rag/retriever.py:73-105 | and the answer names the page, or is full of chunks that score at least 0.25 |
| `CmsPages.StepKeepsSync` | app/rag/ingest.py:131-188 | a page write whose sync succeeds keeps the whole index in sync |
| `CmsPages.StepKeepsSafety` | app/services/cms_pages.py:172-225 | any page write, synced or not, keeps every stored row a chunk of the body last indexed as published |
| `CmsPages.StaleIndexIsSafe` | app/rag/retriever.py:250-270 | after arbitrary failures an answer still names the caller's page, published now, with text it had when last indexed |
| `CmsPages.ScanIsSafe` | app/rag/retriever.py:155-192 | the same for the scan, on the current body |
| `CmsPages.StoredIsIndexed` | app/rag/retriever.py:250-270 | what the index names of a page: the chunks of its normalised body if it is published, nothing otherwise |
| `CmsPages.WithoutPage` | app/rag/ingest.py:264-270 | the DELETE empties this page's rows and no other's |
| `CmsPages.CmsPageService.SyncPageIndex` | app/services/cms_pages.py:172-204 | all index writes happen or none do, whichever statement raises |
| `CmsPages.CmsPageService.PreparePageChunks` | app/rag/ingest.py:89-128 | normalising before chunking changes nothing: the chunks are those of the scan |
| `CmsPages.CmsPageService.Store` | app/services/cms_pages.py:80-152 | a page write followed by its sync is one step of the index argument; the recorded body changes exactly when a published page was synced; after it the index names the chunks of a published page's normalised body, and nothing of any other |
| `CmsPages.CmsPageService.Create` | app/services/cms_pages.py:80-100 | the new row, or a slug that another page of the tenant has; index safety kept, sync kept when the sync succeeded |
| `CmsPages.CmsPageService.Update` | app/services/cms_pages.py:102-124 | each refusal iff its condition; each given field is stored and each other kept, the tenant always; synced, the index then names exactly the chunks of the stored body, normalised; slugs stay unique within a tenant |
| `CmsPages.CmsPageService.SetStatus` | app/services/cms_pages.py:126-152 | outcome, row, audit action and index for every case; a page that is not published is hidden from the index even when its sync failed |
| `CmsPages.CmsPageService.Delete` | app/services/cms_pages.py:154-170 | the row is archived and hidden from the index, and its chunks go unless the DELETE fails |
| `CmsPages.CmsPageService.Retrieve` | app/rag/retriever.py:73-105 | in every reachable state only relevant chunks of the caller's published pages; in sync, the scan's answer, with every full match or full of chunks that score as much |
| `Escalation.AlwaysEscalated` | app/agent/tools.py:251-275 | the tool's own cleaning makes its schema check pass: the status is always "escalated" |
| `Escalation.FindConversation` | app/agent/tools.py:424-444 | the session's first conversation, if any |
| `Escalation.FindTicket` | app/agent/tools.py:447-461 | the conversation's first ticket within the tenant, if any |
| `Escalation.EscalatedKeeps` | app/agent/tools.py:277-319 | a call answers the session's ticket and adds a ticket and an audit row exactly when there was none |
| `Escalation.TicketIsUnique` | app/agent/tools.py:277-319 | one ticket per session and one session per ticket |
| `Escalation.RunKeepsAudit` | app/agent/tools.py:277-319 | over any run no audit row of any earlier point is lost |
| `Escalation.RunKeepsAnswers` | app/agent/tools.py:234-319 | over any run, the ticket a call answers is its session's at the end |
| `Escalation.SameTicketIffSameSession` | app/agent/tools.py:234-319 | over any run two calls answer one ticket iff they are for one session |
| `Escalation.OneTicketPerSession` | app/agent/tools.py:277-319 | escalation.created once per ticket, one conversation per session, one ticket per conversation |
| `Escalation.EscalationDb.EnsureRow` | app/agent/tools.py:424-444 | finds or inserts the conversation |
| `Escalation.EscalationDb.Escalate` | app/agent/tools.py:234-319 | the tables and the ticket after a call; deduplicated iff no ticket was added; a new ticket's reason is the given one stripped and cut to 280 characters, or the default for a blank one |
| `AgentSpec.PlanTools` | app/agent/agent.py:634-657 | the plan is one of four, never empty; which one is `AgentSpec.PlanMeans` |
| `AgentSpec.PlanMeans` | app/agent/agent.py:634-744 | which tools a message gets, read off the phrases in it: a wish for a human alone; a follow-up; a search unless a follow-up is wanted and nothing asked |
| `AgentSpec.BudgetMeans` | app/agent/agent.py:747-754 | the budget is charged the words of the message and of the newest six entries, at least one each |
| `AgentSpec.FallbackFollowsMessage` | app/agent/agent.py:513-631 | the deterministic path runs, reports and closes as words and phrases decide |
| `AgentSpec.FailureFallsBack` | app/agent/agent.py:238-248 | when the first completion fails the model leaves no trace |
| `AgentSpec.EmptyAnswerIff` | app/agent/agent.py:577-631 | the deterministic answer is empty iff the plan is a search alone for a message too long to be a query |
| `AgentSpec.TextAnswer` | app/agent/agent.py:267 | the answer after a text completion is never empty |
| `AgentSpec.HistoryIsWellFormed` | app/agent/agent.py:219-228 | whatever the model did before, the next request it is sent is well formed |
| `AgentSpec.RequestBegins` | app/agent/agent.py:222-228 | every request begins with the prompt, the user and assistant entries among the newest six, each in its place and no other, and the message |
| `AgentSpec.ProcessedSoFar` | app/agent/agent.py:285-347 | the calls of a completion are executed up to the first that escalates or raises, and how they end |
| `AgentSpec.ModelEscalationIsLast` | app/agent/agent.py:329-347 | an escalation by the model is the last body to run and the only one |
| `AgentSpec.FallbackIsSound` | app/agent/agent.py:513-631 | the deterministic path closes once and escalates alone if at all |
| `AgentSpec.LlmTurnIsSound` | app/agent/agent.py:212-371 | for every behaviour of the model: turn_started, tool_called*, then one closing row unless the turn raises; escalate at most once and last, never in a turn that raises; a cap always escalates |
| `AgentSpec.ClosedIff` | app/agent/agent.py:285-361 | the trace of a turn is closed iff no call that is reached fails, and otherwise the turn raises |
| `AgentSpec.FailureMeans` | app/agent/agent.py:285-327 | the calls of a completion end in an exception iff some call that is reached fails |
| `AgentSpec.NullArguments` | app/agent/agent.py:288-299 | one call with arguments that are no object: the turn leaves turn_started alone |
| `AgentSpec.ScannedSearch` | app/agent/agent.py:320-327 | one search answered from the scan: the turn leaves turn_started and tool_called |
| `AgentSpec.LlmTurnIsBounded` | app/agent/agent.py:236-249 | at most 5 requests, each begun below 4000 tokens; the total stays below 4000 plus the dearest completion of the turn |
| `AgentSpec.EveryHistoryIsWellFormed` | app/agent/agent.py:222-327 | every request: system, at most six memory entries, the user, then each tool request with exactly its results in order |
| `AgentSpec.RefusedIsReported` | app/agent/agent.py:301 | while all calls ran, escalate is among the reported tools iff some completion asked for it with refused arguments |
| `AgentSpec.EscalatedMeans` | app/agent/agent.py:268-273 | of a turn that returns: when `escalated` is reported, and that it is reported without an escalation exactly when the turn ends in text after some completion asked for escalate with refused arguments |
| `AgentSpec.EscalatedWithoutATicket` | app/agent/agent.py:268-273 | a turn, for any history, that reports an escalation and ran none |
| `Agent.Turn.CapHitPath` | app/agent/agent.py:428-473 | one escalation, no lead, the closing row of the cap, the fixed message |
| `Agent.Turn.ExecuteTool` | app/agent/agent.py:374-425 | a refused or unknown call runs nothing, arguments that are no object raise; what the result counts as |
| `Agent.Turn.ExecuteCalls` | app/agent/agent.py:285-347 | rows, bodies, results and lead outcome of one completion's calls, and whether they all ran, escalated or raised |
| `Agent.Turn.ExecuteCall` | app/agent/agent.py:286-327 | one call: nothing on an early exception, its row and body otherwise, its result message if it can be written |
| `Agent.Turn.RunDeterministic` | app/agent/agent.py:513-631 | the whole effect and result of the deterministic path |
| `Agent.Turn.RunPlan` | app/agent/agent.py:541-631 | the loop over the plan; its disallowed-tool and no-answer branches are dead |
| `Agent.Turn.CallTool` | app/agent/agent.py:577-600 | the sentence for one planned tool |
| `Agent.Turn.AskModel` | app/agent/agent.py:236-273 | what one completion does: failure, text, or its calls |
| `Agent.Turn.RunCalls` | app/agent/agent.py:275-359 | after the calls: raised, escalated, token cap, or on |
| `Agent.Turn.RunIteration` | app/agent/agent.py:236-359 | one iteration leads to the next step of the loop or to the outcome its completions determine |
| `Agent.Turn.RunLlmLoop` | app/agent/agent.py:212-371 | the turn's rows, bodies, requests and outcome, an exception included, are those its completions determine |
| `Agent.Turn.Iterate` | app/agent/agent.py:236-371 | the same from any opening history |
| `Agent.Turn.Exhausted` | app/agent/agent.py:361-371 | after five completions that go on: the iteration cap |
| `Agent.LoopGoesOn` | app/agent/agent.py:236-359 | the state of the loop after one more completion that lets it go on |
| `Agent.LoopEnds` | app/agent/agent.py:236-359 | the outcome after a completion that does not |
| `Agent.LoopIsExhausted` | app/agent/agent.py:361-371 | the outcome after five that do |
| `Agent.RunAgent` | app/agent/agent.py:150-204 | what every turn leaves behind: for a blank message, without a model, and with one; that it is sound, and closed iff no call that is reached fails; without a model, or if its first completion fails, the phrases in the message and the words of the turn decide which tools run, whether it escalates and whether it closes with token_cap_hit |
| `Agent.PlannedTurn` | app/agent/agent.py:513-744 | without a model, or when its first completion fails, the message alone decides what a turn does |
| `Agent.TurnIsSound` | app/agent/agent.py:150-204 | whatever a turn leaves behind is sound, and closed iff no call that is reached fails |
| `Invites.InviteService.GetByToken` | app/repositories/admin_invite_repo.py:47-51 | finds the row of a token iff it resolves |
| `Invites.InviteService.CreateInvite` | app/services/admin_invite.py:76-100 | the new row, with the email in lower case; all invariants kept |
| `Invites.InviteService.AcceptInvite` | app/services/admin_invite.py:127-157 | each outcome iff its condition on password, row and clock: accepted iff some row with this token is not used, not revoked, not past its expiry and its email not registered; on success one user with the invite's email, tenant and role; otherwise nothing changes |
| `Invites.InviteService.RevokeInvite` | app/services/admin_invite.py:183-209 | each refusal iff its condition; otherwise the row is revoked and audited |
| `Invites.InviteService.ResendInvite` | app/services/admin_invite.py:212-243 | the same, with a new token and expiry; the old token stops resolving |
| `Invites.InviteService.Check` | app/services/admin_invite.py:192-199 | the refusals that revoke and resend share, in order |
| `Invites.RunDevelops` | app/services/admin_invite.py:76-243 | over any run, each state develops from each earlier one |
| `Invites.TerminalIsAbsorbing` | app/services/admin_invite.py:160-172 | used and revoked are absorbing: the row never changes again |
| `Invites.RotatedTokenIsDead` | app/repositories/admin_invite_repo.py:67-80 | a token that was issued and no longer resolves never resolves again |
| `Invites.UsersMatchUsedInvites` | app/services/admin_invite.py:148-156 | each used invite has exactly one user, with its email, tenant and role, and none is shared |
| `Invites.AddInvite` | app/repositories/admin_invite_repo.py:25-45 | a new row keeps the invariants and develops the tables |
| `Invites.ChangeInvite` | app/repositories/admin_invite_repo.py:57-80 | so does revoking or re-minting a row that is neither used nor revoked |
| `Invites.RedeemInvite` | app/services/admin_invite.py:148-156 | so does redeeming a pending one |
| `Invites.OneRowDecides` | app/services/admin_invite.py:160-172 | the row of a token is accepted iff it is not used, not revoked, not past its expiry and its email is free |
| `Invites.CreateThenAccept` | app/services/admin_invite.py:76-157 | an invite nobody touches is accepted iff now <= creation + lifetime |
| `Invites.ResendThenAccept` | app/services/admin_invite.py:127-243 | a resend, even of an expired invite, moves that bound to resend + lifetime under the new token |
| `Origins.Decimal` | app/services/widget_service.py:276 | the printed port reads back as the same number |
| `Origins.ParseIsOrigin` | app/services/widget_service.py:262-274 | a parsed origin has a lower-case host without path, query or user parts and no default port |
| `Origins.PrintThenParse` | app/services/widget_service.py:262-276 | the printed form parses to the same scheme, host and port iff the host has no colon or bracket |
| `Origins.PrintThenParses` | app/services/widget_service.py:262-276 | exactly what a printed origin parses to, for every parsed origin |
| `Origins.ReparsedIsPlain` | app/services/widget_service.py:262-276 | whatever a printed origin parses to has a host without colons and brackets |
| `Origins.AddressNeverParsesAgain` | app/services/widget_service.py:262-276 | hosts with a bracket or two colons, all IPv6 addresses among them, never parse again |
| `Origins.CanonicalIsStable` | app/services/widget_service.py:254-276 | for every accepted origin: canonicalising twice is canonicalising once iff it is stable, and a second canonical form is final |
| `Origins.CanonicalFormIsExact` | app/services/widget_service.py:254-261 | two unbracketed origins match iff scheme, host and port are the same |
| `Origins.NormalizeOrigins` | app/domain/widget.py:95-112 | canonical forms without duplicates in order of first occurrence, or the first invalid item |
| `Origins.FirstOccurrences` | app/domain/widget.py:101-112 | same elements, no duplicates |
| `Origins.AdmitsStored` | app/services/widget_service.py:141-150 | serving what was saved compares with the twice canonicalised submission |
| `Origins.SaveServeAgreement` | app/services/widget_service.py:237-252 | for unbracketed submissions the endpoint admits exactly what was submitted |
| `Origins.AgreementIff` | app/services/widget_service.py:245-246 | for every valid submission: save and serve agree on every request iff each submitted origin is stable |
| `Origins.AddressIsRefused` | app/services/widget_service.py:141-150 | an origin that is not stable is saved and then refused, whatever else was submitted |
| `Origins.LoopbackIsRefused` | app/services/widget_service.py:141-150 | a submitted IPv6 literal is saved and then refused |
| `Origins.AnotherOriginIsAdmitted` | app/services/widget_service.py:141-150 | a submitted bracketed host with one colon is refused, and another origin, never submitted, is admitted |
| `Origins.StableIff` | app/services/widget_service.py:262-276 | printing what was parsed again gives the same text iff the origin is stable |
| `OriginTexts.WrittenIsAccepted` | app/services/widget_service.py:254-276 | every text scheme://[user@]host[:port][tail] is accepted; its canonical form is scheme and host in lower case and the port unless it is 80 for http, 443 for https, empty or missing |
| `OriginTexts.AcceptedIsWritten` | app/services/widget_service.py:254-276 | every text that is accepted without brackets is of this form |
| `OriginTexts.CaseIsIgnored` | app/services/widget_service.py:254-276 | origins that differ in the case of letters only have one canonical form or are both refused |
| `OriginTexts.FrontIsDropped` | app/services/widget_service.py:262 | control characters in front do not matter |
| `OriginTexts.BreaksAreDropped` | app/services/widget_service.py:262 | tabs and line breaks do not matter, wherever they stand |
| `WidgetConfigs.LessIff` | app/services/widget_service.py:348-349 | the sorted order is the lexicographic one |
| `WidgetConfigs.Difference` | app/services/widget_service.py:346-349 | sorted set difference: strictly ascending, exactly the elements of one list not in the other |
| `WidgetConfigs.FindTenant` | app/repositories/widget_repo.py:109-113 | the first row of the tenant, if any |
| `WidgetConfigs.InMemoryWidgetRepository.UpdateByTenantId` | app/repositories/widget_repo.py:115-136 | replaces the tenant's row and no other; four fields are the request's and the others kept |
| `WidgetConfigs.RestoreUndoes` | app/services/widget_service.py:351-396 | writing the snapshot back undoes the update |
| `WidgetConfigs.AuditLogger.AddBoth` | app/services/widget_service.py:365-388 | writes up to the first failure over both batches |
| `WidgetConfigs.WidgetConfigService.WriteChanges` | app/services/widget_service.py:365-387 | the audit rows of the net origin changes, up to the first failure |
| `WidgetConfigs.WidgetConfigService.UpdateWidgetConfig` | app/services/widget_service.py:328-399 | not found, updated field by field with all its audit rows, or failed with the rows equal to those before the call |
| `WidgetConfigs.ReplayOfDiff` | app/services/widget_service.py:346-387 | replaying net changes flips exactly the origins they mention |
| `WidgetConfigs.UpdateTracks` | app/services/widget_service.py:346-387 | an update keeps the trail in step with its row, without a redundant event |
| `WidgetConfigs.RunTracks` | app/services/widget_service.py:328-399 | over any run of successful updates every widget's trail replays to its current origins |
| `WidgetConfigs.FailedUpdateTracksIff` | app/services/widget_service.py:388-397 | after a failed update the trail still replays iff the very first write failed |
| `WidgetConfigs.NoOpIsSilent` | app/services/widget_service.py:346-349 | no audit row iff the set of origins is unchanged |
| `WidgetConfigs.ValidateRequest` | app/domain/widget.py:76-120 | a form is accepted iff its origins are valid, an enabled widget has one, and the greeting is short |
| `WidgetConfigs.IssuedIff` | app/services/widget_service.py:107-150 | end to end, for every valid form: tokens are issued exactly as submitted on every request iff the widget stays shut or every submitted origin is stable |
| `WidgetConfigs.BackendsAgreeIff` | app/repositories/widget_repo.py:185-234 | the SQL backend returns the saved row iff theme and greeting were not saved empty |
| `SessionMemories.SafeKeyPartIsIdentityIff` | app/infra/cache.py:127-134 | an identifier is its own key part iff it is not empty and has key characters only |
| `SessionMemories.KeysCollideIff` | app/infra/cache.py:120-124 | two sessions share a key iff the tenants are the same and the stripped identifiers agree up to characters that become underscores; a blank one shares with blank ones and "anonymous" only |
| `SessionMemories.SafeSessionsAreApart` | app/infra/cache.py:120-134 | well-formed identifiers share a key iff they are the same session of the same tenant |
| `SessionMemories.SessionsCanCollide` | app/infra/cache.py:127-134 | two sessions of one tenant with the same key |
| `SessionMemories.RunStart` | app/infra/cache.py:87-89 | where the latest run of messages without a pause of the TTL begins |
| `SessionMemories.AppendKeepsEntry` | app/infra/cache.py:87-89 | push, trim and expire keep the entry what the whole history prescribes |
| `SessionMemories.RememberedAreNewest` | app/infra/cache.py:87-117 | what is remembered is an end of the history |
| `SessionMemories.SessionMemory.AppendMessage` | app/infra/cache.py:70-91 | the session's history grows by the redacted message; all others stay |
| `SessionMemories.SessionMemory.GetMessages` | app/infra/cache.py:93-117 | an end of the session's history: the latest run of messages, or its newest max; none once it has expired; so the last item is the message appended last |
| `Embeddings.RawEmbedding` | app/rag/ingest.py:216-221 | each coordinate is the signed count of the tokens in its bucket |
| `Embeddings.CoordinateOfPermutation` | app/rag/ingest.py:216-221 | only the multiset of tokens matters |
| `Embeddings.EmbeddingIsAdditive` | app/rag/ingest.py:216-221 | texts joined by a blank embed to the sum |
| `Embeddings.MassIsBounded` | app/rag/ingest.py:216-221 | absolute values sum to at most the number of tokens, with the same parity |
| `Embeddings.OddTextIsNotZero` | app/rag/ingest.py:223-226 | a text with an odd number of tokens is never the zero vector |
| `Usage.UsageRollup` | app/repositories/tenant_repo.py:260-357 | totals, features and days of the tenant's rows; the three agree; dates strictly increase |
| `Usage.GroupsConserve` | app/repositories/tenant_repo.py:301-346 | grouping by any key in any order loses nothing |
| `Usage.RollupConserves` | app/repositories/tenant_repo.py:278-356 | totals equal the sums over features and over days |
| `Usage.OneMoreRow` | app/repositories/tenant_repo.py:278-346 | what one more row adds: nothing outside tenant and time, its cost always, its units as tokens only if they are; to its own feature and day alone |
| `Usage.OtherTenantsAreIrrelevant` | app/repositories/tenant_repo.py:294-297 | rows of other tenants never change what is summed |
| `Usage.Days` | app/repositories/tenant_repo.py:331-346 | the days with a row, strictly increasing |

## Left out

- Text is ASCII, so that lower-casing keeps lengths; Unicode whitespace, digits and case folding are not modelled.
- Scores are exact ten-thousandths rounded half to even and costs whole micro-dollars; rounding of binary floats is not modelled, and the embedding is taken before normalisation and rounding.
- `LeadLimiter.LeadCaptureRateLimiter.RunningWindow`: the window record is a value stored back into the dictionary, because no reference to it outlives the call; `reset`, which only tests use, is left out.
- `CmsPages.CmsPageService.Create`: page ids are integers whose order stands for the ORDER BY of the ids; titles, metadata, chunk ids, id types and embeddings of rows are not modelled, so index and scan are not compared on them.
- `Retriever.RetrieveChunks`: retrieval without a database session, which answers nothing, is left out, and so is the top-k limit of the `rag_search` schema in front of it.
- `Agent.RunAgent`: tool bodies themselves do not raise and audit rows are written (exceptions before and after a body are modelled); citations and the contents of tool results are not modelled, and answers are named rather than spelled out.
- `Escalation.EscalationDb.Escalate`, `LeadCapture.LeadDesk.CaptureLead`: without a database session both tools answer with a synthetic id and write nothing; that path, the last-message excerpt and the redacted copies in answers and audit rows are left out.
- `AgentSpec.EmptyAnswerIff`: a search that runs is taken to say something that is not blank, as `app/agent/tools.py:85-111` does.
- `AgentSpec.LlmTurnIsBounded`: the number of tool calls of a turn is not bounded, because one completion may hold any number.
- `Escalation.OneTicketPerSession`, `Escalation.SameTicketIffSameSession`: calls run one after another; nothing in the schema forbids two tickets under concurrent calls.
- `Invites.RunDevelops`: operations run one after another, tokens and ids are fresh, and users are created by invites or exist beforehand.
- `Invites.InviteService.AcceptInvite`: the bcrypt hash is not part of the user row; the eight-character floor of the request schema is checked before the service.
- `WidgetConfigs.WidgetConfigService.UpdateWidgetConfig`: the row that vanishes between fetch and update is left out, and so is the rate limiting in front of token issuance, which is the limiter of `TokenBucket.dfy`.
- `SessionMemories.SessionMemory.AppendMessage`: a single clock for messages and expiry, and a store that does not fail; malformed stored items are never produced and are left out.
- `Usage.UsageRollup`: dates are day numbers, and the conversion to floats is left out.
- Routes, schemas, JWT encoding, the HTTP clients, the guardrail and router keyword rules, regex redaction and field extraction: plumbing, foreign calls, or one-branch facts.
- Tenant erasure, row-level security, migrations, seeds, evaluations and all user interface code: SQL, I/O or presentation.
- The chat reducer and pagination: their invariants are easy next to the rest.
