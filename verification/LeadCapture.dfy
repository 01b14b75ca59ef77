/** The capture_lead tool: lead rows are written behind the per-session limiter. */
module LeadCapture {
  import opened Wrappers
  import opened Text
  import opened LeadLimiter

  const MAX_INTENT_CHARS := 1000
  const MAX_NAME_CHARS := 200
  const MAX_CONTACT_CHARS := 255
  const DEFAULT_INTENT := "Visitor requested follow-up"

  datatype Status = Captured | RateLimited | InvalidArgs

  datatype Lead = Lead(tenant: string, name: Option<string>, contact: Option<string>, intent: string)

  /** A lead row together with the session and time it was written for. */
  datatype Write = Write(key: string, time: real)

  function Truncate(s: string, n: nat): string {
    if |s| <= n then s else s[..n]
  }

  function TrimOptional(value: Option<string>, maxChars: nat): Option<string> {
    match value
    case None => None
    case Some(v) => if Strip(v) == "" then None else Some(Truncate(Strip(v), maxChars))
  }

  function CleanIntent(intent: string): string {
    Truncate(if Strip(intent) == "" then DEFAULT_INTENT else Strip(intent), MAX_INTENT_CHARS)
  }

  /** A stored field: absent if nothing but whitespace was given, and otherwise what was given, stripped and
      cut off after max characters. */
  predicate IsKept(given: Option<string>, max: nat, stored: Option<string>) {
    match stored
    case None => given.Some? ==> Strip(given.value) == ""
    case Some(s) => given.Some? && s != "" && IsShortened(Strip(given.value), max, s)
  }

  lemma TrimmedIsKept(given: Option<string>, max: nat)
    requires max > 0
    ensures IsKept(given, max, TrimOptional(given, max))
  {}

  /** The row of a lead, field by field; the intent is redacted after it is shortened. */
  ghost predicate IsLeadOf(lead: Lead, tenant: string, name: Option<string>, contact: Option<string>, intent: string,
                           redact: string -> string) {
    && lead.tenant == tenant && IsKept(name, 200, lead.name) && IsKept(contact, 255, lead.contact)
    && exists clean :: lead.intent == redact(clean)
         && IsShortened(if Strip(intent) == "" then "Visitor requested follow-up" else Strip(intent), 1000, clean)
  }

  lemma CleanedIsLead(tenant: string, name: Option<string>, contact: Option<string>, intent: string, redact: string -> string)
    ensures var lead := Lead(tenant, TrimOptional(name, MAX_NAME_CHARS), TrimOptional(contact, MAX_CONTACT_CHARS),
                             redact(CleanIntent(intent)));
      IsLeadOf(lead, tenant, name, contact, intent, redact)
  {
    TrimmedIsKept(name, MAX_NAME_CHARS);
    TrimmedIsKept(contact, MAX_CONTACT_CHARS);
    assert IsShortened(if Strip(intent) == "" then DEFAULT_INTENT else Strip(intent), 1000, CleanIntent(intent));
  }

  /** What CaptureLeadArgs accepts; `isContact` is its contact pattern. */
  predicate IsValidArgs(name: Option<string>, contact: Option<string>, intent: string, isContact: string -> bool) {
    && (name.Some? ==> 1 <= |name.value| <= MAX_NAME_CHARS)
    && (contact.Some? ==> isContact(contact.value))
    && 1 <= |intent| <= MAX_INTENT_CHARS
  }

  /** After the tool's own trimming only the contact can be refused. */
  lemma OnlyTheContactCanFail(name: Option<string>, contact: Option<string>, intent: string, isContact: string -> bool)
    ensures IsValidArgs(TrimOptional(name, MAX_NAME_CHARS), TrimOptional(contact, MAX_CONTACT_CHARS), CleanIntent(intent), isContact)
       <==> (TrimOptional(contact, MAX_CONTACT_CHARS).Some? ==> isContact(TrimOptional(contact, MAX_CONTACT_CHARS).value))
  {}

  // ---- Writes against the limiter's history -----------------------------------------------------

  /** When the accepted attempts of a history were made. */
  function AcceptedTimes(h: seq<Attempt>): (ts: seq<real>)
    ensures |ts| == Accepted(h, |h|)
    decreases |h|
  {
    if h == [] then []
    else
      var init := h[..|h| - 1];
      AcceptedPrefix(init, h, |init|);
      AcceptedTimes(init) + (if h[|h| - 1].accepted then [h[|h| - 1].time] else [])
  }

  lemma {:induction false} AcceptedPrefix(h: seq<Attempt>, g: seq<Attempt>, k: nat)
    requires k <= |h| && h <= g
    ensures Accepted(h, k) == Accepted(g, k)
  {
    if k > 0 { AcceptedPrefix(h, g, k - 1); }
  }

  /** When rows were written for one session. */
  function WriteTimes(writes: seq<Write>, key: string): seq<real> {
    if writes == [] then []
    else
      var last := writes[|writes| - 1];
      WriteTimes(writes[..|writes| - 1], key) + (if last.key == key then [last.time] else [])
  }

  /** The attempt behind an accepted time. */
  lemma {:induction false} AttemptOf(h: seq<Attempt>, a: nat) returns (i: nat)
    requires a < |AcceptedTimes(h)|
    ensures i < |h| && h[i].accepted && h[i].time == AcceptedTimes(h)[a] && Accepted(h, i) == a
    decreases |h|
  {
    var init := h[..|h| - 1];
    AcceptedPrefix(init, h, |init|);
    if a < |AcceptedTimes(init)| {
      i := AttemptOf(init, a);
      AcceptedPrefix(init, h, i);
    } else {
      i := |h| - 1;
    }
  }

  /** The caps supplied to a session's attempts from the one that wrote row a to the one that wrote row b. */
  ghost predicate CapsWithinRows(h: seq<Attempt>, a: nat, b: nat, cap: int) {
    forall i :: 0 <= i < |h| && a < Accepted(h, i + 1) && Accepted(h, i) <= b ==> h[i].cap <= cap
  }

  /** Accepted attempts a..b of one session, if made within less than the window, number at most twice the
      largest cap supplied meanwhile. */
  lemma AcceptedAreBounded(w: real, h: seq<Attempt>, a: nat, b: nat, cap: nat)
    requires Legal(w, h) && a <= b < |AcceptedTimes(h)| && AcceptedTimes(h)[b] - AcceptedTimes(h)[a] < w
    requires CapsWithinRows(h, a, b, cap)
    ensures b - a + 1 <= 2 * cap
  {
    var i := AttemptOf(h, a);
    var j := AttemptOf(h, b);
    if j < i { AcceptedMonotone(h, j + 1, i); }
    CapsBetween(h, i, j, a, b, cap);
    ShortIntervalIsBounded(w, h, i, j, cap);
  }

  lemma CapsBetween(h: seq<Attempt>, i: nat, j: nat, a: nat, b: nat, cap: nat)
    requires i <= j < |h| && h[i].accepted && Accepted(h, i) == a && Accepted(h, j) == b && CapsWithinRows(h, a, b, cap)
    ensures CapsWithin(h, i, j, cap)
  {
    forall k | i <= k <= j ensures h[k].cap <= cap {
      AcceptedMonotone(h, i + 1, k + 1);
      AcceptedMonotone(h, k, j);
    }
  }

  /** Whatever the model asks for, and whatever caps are configured meanwhile: rows a..b of one session, if
      written within less than the window, number at most twice the largest cap supplied while they were. */
  lemma WritesAreBounded(w: real, writes: seq<Write>, histories: map<string, seq<Attempt>>, key: string, a: nat, b: nat, cap: nat)
    requires Agree(writes, histories) && key in histories && Legal(w, histories[key])
    requires a <= b < |WriteTimes(writes, key)| && WriteTimes(writes, key)[b] - WriteTimes(writes, key)[a] < w
    requires CapsWithinRows(histories[key], a, b, cap)
    ensures b - a + 1 <= 2 * cap
  {
    assert AgreeOn(writes, histories, key);
    AcceptedAreBounded(w, histories[key], a, b, cap);
  }

  lemma {:induction false} AcceptedMonotone(h: seq<Attempt>, i: nat, j: nat)
    requires i <= j <= |h|
    ensures Accepted(h, i) <= Accepted(h, j)
  {
    if i < j { AcceptedMonotone(h, i, j - 1); }
  }

  lemma WriteTimesAppend(writes: seq<Write>, e: Write, key: string)
    ensures WriteTimes(writes + [e], key) == WriteTimes(writes, key) + (if e.key == key then [e.time] else [])
  {}

  lemma AcceptedTimesAppend(h: seq<Attempt>, e: Attempt)
    ensures AcceptedTimes(h + [e]) == AcceptedTimes(h) + (if e.accepted then [e.time] else [])
  {}

  /** Rows are written exactly for accepted attempts, session by session and in order. */
  ghost predicate Agree(writes: seq<Write>, histories: map<string, seq<Attempt>>) {
    forall key: string :: AgreeOn(writes, histories, key)
  }

  ghost predicate AgreeOn(writes: seq<Write>, histories: map<string, seq<Attempt>>, key: string) {
    WriteTimes(writes, key) == if key in histories then AcceptedTimes(histories[key]) else []
  }

  /** One attempt was recorded for `key`, and a row written if it was accepted. */
  ghost predicate Recorded(writes: seq<Write>, histories: map<string, seq<Attempt>>,
                           writes': seq<Write>, histories': map<string, seq<Attempt>>, key: string, e: Attempt) {
    && histories' == histories[key := (if key in histories then histories[key] else []) + [e]]
    && writes' == if e.accepted then writes + [Write(key, e.time)] else writes
  }

  /** So the agreement of rows and accepted attempts is kept, for every session. */
  lemma RecordedKeepsAgreement(writes: seq<Write>, histories: map<string, seq<Attempt>>,
                               writes': seq<Write>, histories': map<string, seq<Attempt>>, key: string, e: Attempt)
    requires Agree(writes, histories) && Recorded(writes, histories, writes', histories', key, e)
    ensures Agree(writes', histories')
  {
    AcceptedTimesAppend(if key in histories then histories[key] else [], e);
    forall k: string
      ensures AgreeOn(writes', histories', k)
    {
      assert AgreeOn(writes, histories, k);
      WriteTimesAppend(writes, Write(key, e.time), k);
    }
  }

  class LeadDesk {
    const limiter: LeadCaptureRateLimiter
    var leads: seq<Lead>
    var limited: seq<string>         // the lead.rate_limited audit rows
    ghost var writes: seq<Write>     // the session and time of every lead row

    ghost predicate Valid()
      reads this, limiter
    {
      limiter.Valid() && Agree(writes, limiter.histories) && |leads| == |writes|
    }

    constructor (limiter: LeadCaptureRateLimiter)
      requires limiter.Valid() && limiter.histories == map[]
      ensures Valid() && this.limiter == limiter && leads == [] && limited == []
    {
      this.limiter := limiter;
      leads, limited, writes := [], [], [];
    }

    /** LeadRepository.create */
    method Insert(lead: Lead, ghost write: Write)
      modifies this
      ensures leads == old(leads) + [lead] && writes == old(writes) + [write] && limited == old(limited)
    {
      leads := leads + [lead];
      writes := writes + [write];
    }

    /** Validation comes before the limiter and the limiter before the write: an attempt that fails
        validation is not counted, and a row is written iff the limiter accepted the attempt. */
    method CaptureLead(tenantId: string, sessionId: string, name: Option<string>, contact: Option<string>, intent: string,
                       cap: int, now: real, isContact: string -> bool, redact: string -> string) returns (status: Status)
      requires Valid()
      requires var h := limiter.History(Key(tenantId, sessionId)); |h| > 0 ==> h[|h| - 1].time <= now
      modifies this, limiter
      ensures Valid()
      ensures status == InvalidArgs <==>
        TrimOptional(contact, MAX_CONTACT_CHARS).Some? && !isContact(TrimOptional(contact, MAX_CONTACT_CHARS).value)
      ensures status == InvalidArgs ==> limiter.histories == old(limiter.histories) && writes == old(writes)
      ensures status != InvalidArgs ==> Recorded(old(writes), old(limiter.histories), writes, limiter.histories,
        Key(tenantId, sessionId), Attempt(now, cap, status == Captured))
      ensures leads == old(leads) + (if status == Captured
        then [Lead(tenantId, TrimOptional(name, MAX_NAME_CHARS), TrimOptional(contact, MAX_CONTACT_CHARS), redact(CleanIntent(intent)))]
        else [])
      ensures status == Captured ==> IsLeadOf(leads[|old(leads)|], tenantId, name, contact, intent, redact)
      ensures limited == old(limited) + (if status == RateLimited then [sessionId] else [])
    {
      var cleanName, cleanContact := TrimOptional(name, MAX_NAME_CHARS), TrimOptional(contact, MAX_CONTACT_CHARS);
      OnlyTheContactCanFail(name, contact, intent, isContact);
      if !IsValidArgs(cleanName, cleanContact, CleanIntent(intent), isContact) {
        return InvalidArgs;
      }
      var allowed := InsertIfAllowed(tenantId, sessionId, Lead(tenantId, cleanName, cleanContact, redact(CleanIntent(intent))), cap, now);
      CleanedIsLead(tenantId, name, contact, intent, redact);
      status := if allowed then Captured else RateLimited;
    }

    /** Ask the limiter, then write the row or the audit row. */
    method InsertIfAllowed(tenantId: string, sessionId: string, lead: Lead, cap: int, now: real) returns (allowed: bool)
      requires Valid()
      requires var h := limiter.History(Key(tenantId, sessionId)); |h| > 0 ==> h[|h| - 1].time <= now
      modifies this, limiter
      ensures Valid()
      ensures Recorded(old(writes), old(limiter.histories), writes, limiter.histories, Key(tenantId, sessionId), Attempt(now, cap, allowed))
      ensures leads == if allowed then old(leads) + [lead] else old(leads)
      ensures limited == if allowed then old(limited) else old(limited) + [sessionId]
    {
      ghost var key := Key(tenantId, sessionId);
      allowed := limiter.CheckAndIncrement(tenantId, sessionId, Some(cap), now);
      if allowed {
        Insert(lead, Write(key, now));
      } else {
        limited := limited + [sessionId];
      }
      RecordedKeepsAgreement(old(writes), old(limiter.histories), writes, limiter.histories, key, Attempt(now, cap, allowed));
    }
  }
}
