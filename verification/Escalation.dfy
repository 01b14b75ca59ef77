/** The escalate tool as a database step: one conversation per session, one ticket per conversation. */
module Escalation {
  import opened Text

  const DEFAULT_REASON := "Visitor needs human follow-up."
  const MAX_REASON_CHARS := 280
  const ESCALATED := "escalated"
  const INVALID_ARGS := "invalid_args"

  /** The trusted (tenant, session) pair; the model never chooses either. */
  datatype Session = Session(tenant: string, id: string)

  datatype Conversation = Conversation(id: int, session: Session)

  datatype Ticket = Ticket(id: int, tenant: string, conversation: int, reason: string)

  datatype Created = Created(ticket: int, session: Session)

  /** The tables the tool writes.  `next` stands for the source of fresh ids. */
  datatype Store = Store(conversations: seq<Conversation>, tickets: seq<Ticket>, audit: seq<Created>, next: int)

  function CleanReason(reason: string): string {
    var s := Strip(reason);
    var clean := if s == "" then DEFAULT_REASON else s;
    if |clean| <= MAX_REASON_CHARS then clean else clean[..MAX_REASON_CHARS]
  }

  /** A ticket's reason is the given one, stripped and cut off after 280 characters; a blank one is replaced. */
  predicate IsReasonFor(stored: string, given: string) {
    IsShortened(if Strip(given) == "" then "Visitor needs human follow-up." else Strip(given), 280, stored)
  }

  /** What EscalateArgs accepts. */
  predicate IsValidReason(reason: string) {
    1 <= |reason| <= MAX_REASON_CHARS
  }

  /** The status escalate answers: its own cleaning makes the schema check pass. */
  function StatusFor(reason: string): string {
    if IsValidReason(CleanReason(reason)) then ESCALATED else INVALID_ARGS
  }

  lemma AlwaysEscalated(reason: string)
    ensures StatusFor(reason) == ESCALATED && IsValidReason(CleanReason(reason))
  {}

  // ---- Lookups ----------------------------------------------------------------------------------

  function FindConversation(rows: seq<Conversation>, s: Session): (i: nat)
    ensures i <= |rows| && (i < |rows| ==> rows[i].session == s)
    ensures forall k :: 0 <= k < i ==> rows[k].session != s
  {
    if rows == [] || rows[0].session == s then 0 else 1 + FindConversation(rows[1..], s)
  }

  function FindTicket(rows: seq<Ticket>, tenant: string, conversation: int): (i: nat)
    ensures i <= |rows| && (i < |rows| ==> rows[i].tenant == tenant && rows[i].conversation == conversation)
    ensures forall k :: 0 <= k < i ==> !(rows[k].tenant == tenant && rows[k].conversation == conversation)
  {
    if rows == [] || (rows[0].tenant == tenant && rows[0].conversation == conversation) then 0
    else 1 + FindTicket(rows[1..], tenant, conversation)
  }

  ghost predicate IsConsistent(st: Store) {
    && (forall i :: 0 <= i < |st.conversations| ==> st.conversations[i].id < st.next)
    && (forall i, j :: 0 <= i < |st.conversations| && 0 <= j < |st.conversations| ==>
          (st.conversations[i].id == st.conversations[j].id ==> i == j)
          && (st.conversations[i].session == st.conversations[j].session ==> i == j))
    && (forall i :: 0 <= i < |st.tickets| ==> st.tickets[i].id < st.next)
    && (forall i, j :: 0 <= i < |st.tickets| && 0 <= j < |st.tickets| ==>
          (st.tickets[i].id == st.tickets[j].id ==> i == j)
          && (st.tickets[i].conversation == st.tickets[j].conversation ==> i == j))
    && |st.audit| == |st.tickets|
    && (forall i :: 0 <= i < |st.tickets| ==> Announced(st.conversations, st.tickets[i], st.audit[i]))
  }

  /** The ticket belongs to a conversation of its tenant, and this is its escalation.created row. */
  ghost predicate Announced(rows: seq<Conversation>, t: Ticket, e: Created) {
    && e.ticket == t.id && e.session.tenant == t.tenant
    && exists k :: 0 <= k < |rows| && rows[k] == Conversation(t.conversation, e.session)
  }

  /** Position of the ticket of a session, or the number of tickets. */
  ghost predicate IsTicketOf(st: Store, s: Session, ticket: int) {
    exists k :: 0 <= k < |st.audit| && st.audit[k] == Created(ticket, s)
  }

  // ---- One call ---------------------------------------------------------------------------------

  function EnsureConversation(st: Store, s: Session): (r: (Store, int)) {
    var i := FindConversation(st.conversations, s);
    if i < |st.conversations| then (st, st.conversations[i].id)
    else (st.(conversations := st.conversations + [Conversation(st.next, s)], next := st.next + 1), st.next)
  }

  /** The tables after escalate, and the ticket it answers. */
  function Escalated(st: Store, s: Session, reason: string): (Store, int) {
    var (st1, conversation) := EnsureConversation(st, s);
    var i := FindTicket(st1.tickets, s.tenant, conversation);
    if i < |st1.tickets| then (st1, st1.tickets[i].id)
    else
      (st1.(tickets := st1.tickets + [Ticket(st1.next, s.tenant, conversation, CleanReason(reason))],
            audit := st1.audit + [Created(st1.next, s)], next := st1.next + 1), st1.next)
  }

  lemma EnsureKeepsConsistent(st: Store, s: Session) returns (n: nat)
    requires IsConsistent(st)
    ensures var (st1, c) := EnsureConversation(st, s);
      && IsConsistent(st1) && st1.tickets == st.tickets && st1.audit == st.audit
      && n < |st1.conversations| && st1.conversations[n] == Conversation(c, s)
  {
    var (st1, c) := EnsureConversation(st, s);
    forall i | 0 <= i < |st.tickets| ensures Announced(st1.conversations, st.tickets[i], st.audit[i]) {
      assert Announced(st.conversations, st.tickets[i], st.audit[i]);
      var row := Conversation(st.tickets[i].conversation, st.audit[i].session);
      var k :| 0 <= k < |st.conversations| && st.conversations[k] == row;
      assert st1.conversations[k] == st.conversations[k];
    }
    n := FindConversation(st.conversations, s);
  }

  /** Opening a ticket on a conversation that has none. */
  lemma NewTicketKeepsConsistent(st: Store, s: Session, conversation: int, n: nat, reason: string)
    requires IsConsistent(st) && n < |st.conversations| && st.conversations[n] == Conversation(conversation, s)
    requires FindTicket(st.tickets, s.tenant, conversation) == |st.tickets|
    ensures var st' := st.(tickets := st.tickets + [Ticket(st.next, s.tenant, conversation, reason)],
                           audit := st.audit + [Created(st.next, s)], next := st.next + 1);
      IsConsistent(st') && IsTicketOf(st', s, st.next)
    ensures forall t :: !IsTicketOf(st, s, t)
  {
    var st' := st.(tickets := st.tickets + [Ticket(st.next, s.tenant, conversation, reason)],
                   audit := st.audit + [Created(st.next, s)], next := st.next + 1);
    assert st'.audit[|st.audit|] == Created(st.next, s);
    forall k | 0 <= k < |st'.tickets| ensures Announced(st'.conversations, st'.tickets[k], st'.audit[k]) {
      if k < |st.tickets| { assert Announced(st.conversations, st.tickets[k], st.audit[k]); }
    }
    forall k | 0 <= k < |st.tickets| ensures st.tickets[k].conversation != conversation {
      if st.tickets[k].conversation == conversation { AnnouncedSession(st, k, n); }
    }
    forall t ensures !IsTicketOf(st, s, t) {
      if k :| 0 <= k < |st.audit| && st.audit[k] == Created(t, s) { ConversationOfSession(st, k, n); }
    }
  }

  /** A call keeps the tables consistent, answers the one ticket of its session, drops no audit row,
      and adds a ticket and an audit row exactly when the session had none. */
  lemma EscalatedKeeps(st: Store, s: Session, reason: string)
    requires IsConsistent(st)
    ensures var (st', ticket) := Escalated(st, s, reason); IsConsistent(st') && IsTicketOf(st', s, ticket)
    ensures var (st', ticket) := Escalated(st, s, reason);
      if HasTicket(st, s)
      then st'.tickets == st.tickets && st'.audit == st.audit && IsTicketOf(st, s, ticket)
      else st'.audit == st.audit + [Created(ticket, s)] && |st'.tickets| == |st.tickets| + 1
  {
    var n := EnsureKeepsConsistent(st, s);
    var (st1, c) := EnsureConversation(st, s);
    assert HasTicket(st, s) <==> HasTicket(st1, s);
    if FindTicket(st1.tickets, s.tenant, c) < |st1.tickets| {
      FoundTicket(st1, s, c, n);
    } else {
      NewTicketKeepsConsistent(st1, s, c, n, CleanReason(reason));
    }
  }

  ghost predicate HasTicket(st: Store, s: Session) {
    exists t :: IsTicketOf(st, s, t)
  }

  lemma FoundTicket(st: Store, s: Session, conversation: int, n: nat)
    requires IsConsistent(st) && n < |st.conversations| && st.conversations[n] == Conversation(conversation, s)
    requires FindTicket(st.tickets, s.tenant, conversation) < |st.tickets|
    ensures IsTicketOf(st, s, st.tickets[FindTicket(st.tickets, s.tenant, conversation)].id) && HasTicket(st, s)
  {
    var i := FindTicket(st.tickets, s.tenant, conversation);
    AnnouncedSession(st, i, n);
    assert st.audit[i] == Created(st.tickets[i].id, s);
    assert IsTicketOf(st, s, st.tickets[i].id);
  }

  /** A ticket on conversation n was announced for that conversation's session. */
  lemma AnnouncedSession(st: Store, i: nat, n: nat)
    requires IsConsistent(st) && i < |st.tickets| && n < |st.conversations|
    requires st.tickets[i].conversation == st.conversations[n].id
    ensures st.audit[i] == Created(st.tickets[i].id, st.conversations[n].session)
    ensures st.tickets[i].tenant == st.conversations[n].session.tenant
  {}

  /** A ticket announced for the session of conversation n is on that conversation. */
  lemma ConversationOfSession(st: Store, i: nat, n: nat)
    requires IsConsistent(st) && i < |st.tickets| && n < |st.conversations|
    requires st.audit[i].session == st.conversations[n].session
    ensures st.tickets[i].conversation == st.conversations[n].id
    ensures st.tickets[i].tenant == st.conversations[n].session.tenant
  {}

  /** A session has at most one ticket and a ticket at most one session. */
  lemma TicketIsUnique(st: Store, s: Session, t: int, s': Session, t': int)
    requires IsConsistent(st) && IsTicketOf(st, s, t) && IsTicketOf(st, s', t')
    ensures s == s' <==> t == t'
  {
    var i :| 0 <= i < |st.audit| && st.audit[i] == Created(t, s);
    var j :| 0 <= j < |st.audit| && st.audit[j] == Created(t', s');
    assert Announced(st.conversations, st.tickets[i], st.audit[i]);
    assert Announced(st.conversations, st.tickets[j], st.audit[j]);
    var n :| 0 <= n < |st.conversations| && st.conversations[n] == Conversation(st.tickets[i].conversation, s);
    if s == s' {
      ConversationOfSession(st, j, n);
      assert i == j;
    }
    if t == t' {
      assert i == j;
    }
  }

  // ---- Runs -------------------------------------------------------------------------------------

  datatype Call = Call(session: Session, reason: string)

  function After(st: Store, c: Call): Store { Escalated(st, c.session, c.reason).0 }

  function RunStore(st: Store, calls: seq<Call>): Store {
    if calls == [] then st
    else After(RunStore(st, calls[..|calls| - 1]), calls[|calls| - 1])
  }

  /** What call i of a run answers. */
  function Answer(st: Store, calls: seq<Call>, i: nat): int
    requires i < |calls|
  {
    Escalated(RunStore(st, calls[..i]), calls[i].session, calls[i].reason).1
  }

  lemma CallKeeps(st: Store, c: Call)
    requires IsConsistent(st)
    ensures IsConsistent(After(st, c)) && st.audit <= After(st, c).audit
    ensures IsTicketOf(After(st, c), c.session, Escalated(st, c.session, c.reason).1)
  {
    EscalatedKeeps(st, c.session, c.reason);
  }

  /** Over any run the tables stay consistent ... */
  lemma {:induction false} RunIsConsistent(st: Store, calls: seq<Call>)
    requires IsConsistent(st)
    ensures IsConsistent(RunStore(st, calls))
  {
    if calls != [] {
      RunIsConsistent(st, calls[..|calls| - 1]);
      CallKeeps(RunStore(st, calls[..|calls| - 1]), calls[|calls| - 1]);
    }
  }

  /** ... and no audit row of any point of the run is lost. */
  lemma {:induction false} RunKeepsAudit(st: Store, calls: seq<Call>, k: nat)
    requires IsConsistent(st) && k <= |calls|
    ensures RunStore(st, calls[..k]).audit <= RunStore(st, calls).audit
  {
    if k == |calls| {
      assert calls[..k] == calls;
    } else {
      var before := calls[..|calls| - 1];
      RunKeepsAudit(st, before, k);
      assert before[..k] == calls[..k];
      RunIsConsistent(st, before);
      CallKeeps(RunStore(st, before), calls[|calls| - 1]);
    }
  }

  lemma AnswerIsTicket(st: Store, calls: seq<Call>, i: nat)
    requires IsConsistent(st) && i < |calls|
    ensures IsTicketOf(RunStore(st, calls[..i + 1]), calls[i].session, Answer(st, calls, i))
  {
    var upTo := calls[..i + 1];
    assert upTo[..i] == calls[..i] && upTo[i] == calls[i];
    assert RunStore(st, upTo) == After(RunStore(st, calls[..i]), calls[i]);
    RunIsConsistent(st, calls[..i]);
    CallKeeps(RunStore(st, calls[..i]), calls[i]);
  }

  /** The ticket a call answers is its session's at the end of the run. */
  lemma RunKeepsAnswers(st: Store, calls: seq<Call>, i: nat)
    requires IsConsistent(st) && i < |calls|
    ensures IsTicketOf(RunStore(st, calls), calls[i].session, Answer(st, calls, i))
  {
    AnswerIsTicket(st, calls, i);
    RunKeepsAudit(st, calls, i + 1);
    TicketStays(RunStore(st, calls[..i + 1]), RunStore(st, calls), calls[i].session, Answer(st, calls, i));
  }

  lemma TicketStays(st: Store, st': Store, s: Session, ticket: int)
    requires st.audit <= st'.audit && IsTicketOf(st, s, ticket)
    ensures IsTicketOf(st', s, ticket)
  {
    var k :| 0 <= k < |st.audit| && st.audit[k] == Created(ticket, s);
    assert st'.audit[k] == st.audit[k];
  }

  /** Over any run two calls answer the same ticket iff they are for the same session. */
  lemma SameTicketIffSameSession(st: Store, calls: seq<Call>, i: nat, j: nat)
    requires IsConsistent(st) && i < |calls| && j < |calls|
    ensures Answer(st, calls, i) == Answer(st, calls, j) <==> calls[i].session == calls[j].session
  {
    RunIsConsistent(st, calls);
    RunKeepsAnswers(st, calls, i);
    RunKeepsAnswers(st, calls, j);
    TicketIsUnique(RunStore(st, calls), calls[i].session, Answer(st, calls, i), calls[j].session, Answer(st, calls, j));
  }

  /** Over any run escalation.created is written once per ticket, in the order of the tickets, and
      there is at most one conversation per session and one ticket per conversation. */
  lemma OneTicketPerSession(st: Store, calls: seq<Call>)
    requires IsConsistent(st)
    ensures var rows := RunStore(st, calls);
      && |rows.audit| == |rows.tickets|
      && (forall i :: 0 <= i < |rows.tickets| ==> rows.audit[i].ticket == rows.tickets[i].id)
      && (forall i, j :: 0 <= i < j < |rows.conversations| ==> rows.conversations[i].session != rows.conversations[j].session)
      && (forall i, j :: 0 <= i < j < |rows.tickets| ==> rows.tickets[i].conversation != rows.tickets[j].conversation)
  {
    RunIsConsistent(st, calls);
    var rows := RunStore(st, calls);
    forall i | 0 <= i < |rows.tickets| ensures rows.audit[i].ticket == rows.tickets[i].id {
      assert Announced(rows.conversations, rows.tickets[i], rows.audit[i]);
    }
  }

  datatype EscalateResult = EscalateResult(status: string, ticket: int, deduplicated: bool)

  /** The database session the tool is bound to. */
  class EscalationDb {
    var conversations: seq<Conversation>
    var tickets: seq<Ticket>
    var audit: seq<Created>
    var next: int

    ghost function Tables(): Store
      reads this
    {
      Store(conversations, tickets, audit, next)
    }

    constructor ()
      ensures IsConsistent(Tables())
    {
      conversations, tickets, audit, next := [], [], [], 0;
    }

    method EnsureRow(s: Session) returns (conversation: int)
      modifies this
      ensures (Tables(), conversation) == EnsureConversation(old(Tables()), s)
    {
      var i := FindConversation(conversations, s);
      if i < |conversations| { return conversations[i].id; }
      conversation := next;
      conversations := conversations + [Conversation(next, s)];
      next := next + 1;
    }

    method Escalate(s: Session, reason: string) returns (r: EscalateResult)
      requires IsConsistent(Tables())
      modifies this
      ensures (Tables(), r.ticket) == Escalated(old(Tables()), s, reason) && IsConsistent(Tables())
      ensures r.status == ESCALATED == StatusFor(reason)
      ensures r.deduplicated <==> tickets == old(tickets)
      ensures !r.deduplicated ==> |tickets| == |old(tickets)| + 1 && IsReasonFor(tickets[|old(tickets)|].reason, reason)
    {
      var reasonText := CleanReason(reason);
      AlwaysEscalated(reason);
      EscalatedKeeps(Tables(), s, reason);
      var conversation := EnsureRow(s);
      var i := FindTicket(tickets, s.tenant, conversation);
      if i < |tickets| {
        return EscalateResult(ESCALATED, tickets[i].id, true);
      }
      r := EscalateResult(ESCALATED, next, false);
      tickets := tickets + [Ticket(next, s.tenant, conversation, reasonText)];
      audit := audit + [Created(next, s)];
      next := next + 1;
    }
  }
}
