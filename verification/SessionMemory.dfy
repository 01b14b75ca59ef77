/** Short-term session memory: a list per key that is trimmed to its newest messages and expires. */
module SessionMemories {
  import opened Text

  datatype Message = Message(role: string, content: string, createdAt: int)

  /** A list and the time at which the store drops it. */
  datatype Entry = Entry(items: seq<Message>, expiresAt: int)

  /** LTRIM key -max -1: the last max items; with max 0 the bounds are 0 and -1, which keep everything. */
  function Trim(items: seq<Message>, max: nat): seq<Message> {
    if max == 0 || |items| <= max then items else items[|items| - max..]
  }

  // ---- Keys -------------------------------------------------------------------------------------

  predicate IsKeyChar(c: char) {
    IsAlnum(c) || c == '_' || c == '.' || c == ':' || c == '-'
  }

  function Replaced(s: string): (r: string)
    ensures |r| == |s| && forall i :: 0 <= i < |s| ==> r[i] == if IsKeyChar(s[i]) then s[i] else '_'
  {
    seq(|s|, i requires 0 <= i < |s| => if IsKeyChar(s[i]) then s[i] else '_')
  }

  function SafeKeyPart(value: string): string {
    if Strip(value) == "" then "anonymous" else Replaced(Strip(value))
  }

  /** `tenant` is the text of the tenant's identifier. */
  function KeyFor(tenant: string, session: string): string {
    "session:" + (tenant + [':'] + SafeKeyPart(session))
  }

  predicate IsSafeId(s: string) {
    s != "" && forall i :: 0 <= i < |s| ==> IsKeyChar(s[i])
  }

  lemma StripIsIdentity(s: string)
    requires IsSafeId(s)
    ensures Strip(s) == s
  {}

  /** An identifier is its own key part exactly if it is not empty and has only key characters. */
  lemma SafeKeyPartIsIdentityIff(s: string)
    ensures SafeKeyPart(s) == s <==> IsSafeId(s)
    ensures IsSafeId(SafeKeyPart(s))
  {
    var part := SafeKeyPart(s);
    if Strip(s) == "" {
      AnonymousIsSafe();
    } else {
      forall i | 0 <= i < |part| ensures IsKeyChar(part[i]) {}
    }
    if IsSafeId(s) {
      StripIsIdentity(s);
    }
  }

  lemma AnonymousIsSafe()
    ensures IsSafeId("anonymous")
  {}

  /** Two texts that differ only in characters that are replaced by, or are, an underscore. */
  predicate LookAlike(a: string, b: string) {
    |a| == |b| && forall i :: 0 <= i < |a| ==> a[i] == b[i] || (BecomesUnderscore(a[i]) && BecomesUnderscore(b[i]))
  }

  predicate BecomesUnderscore(c: char) {
    c == '_' || !IsKeyChar(c)
  }

  lemma KeysAreParts(t: string, s: string, t': string, s': string)
    requires ':' !in t && ':' !in t'
    ensures KeyFor(t, s) == KeyFor(t', s') <==> t == t' && SafeKeyPart(s) == SafeKeyPart(s')
  {
    var k, k' := t + [':'] + SafeKeyPart(s), t' + [':'] + SafeKeyPart(s');
    assert KeyFor(t, s)[8..] == k && KeyFor(t', s')[8..] == k';
    IndexOfJoin(t, ':', SafeKeyPart(s));
    IndexOfJoin(t', ':', SafeKeyPart(s'));
  }

  lemma ReplacedAlike(a: string, b: string)
    ensures Replaced(a) == Replaced(b) <==> LookAlike(a, b)
  {
    if Replaced(a) == Replaced(b) {
      forall i | 0 <= i < |a| ensures a[i] == b[i] || (BecomesUnderscore(a[i]) && BecomesUnderscore(b[i])) {
        assert Replaced(a)[i] == Replaced(b)[i];
      }
    }
  }

  /** Which sessions share a key, read off the identifiers: they are the same tenant's, and what is left
      of them after stripping looks alike; a blank identifier shares one with the blank ones and with
      "anonymous" only. */
  lemma KeysCollideIff(t: string, s: string, t': string, s': string)
    requires ':' !in t && ':' !in t'
    ensures Strip(s) != "" && Strip(s') != "" ==> (KeyFor(t, s) == KeyFor(t', s') <==> t == t' && LookAlike(Strip(s), Strip(s')))
    ensures Strip(s) == "" ==> (KeyFor(t, s) == KeyFor(t', s') <==> t == t' && (Strip(s') == "" || Strip(s') == "anonymous"))
  {
    KeysAreParts(t, s, t', s');
    ReplacedAlike(Strip(s), Strip(s'));
    NothingElseIsAnonymous(Strip(s'));
  }

  lemma NothingElseIsAnonymous(s: string)
    ensures Replaced(s) == "anonymous" <==> s == "anonymous"
  {
    var a := "anonymous";
    forall i | 0 <= i < |a| ensures 'a' <= a[i] <= 'z' {}
    if Replaced(s) == a {
      forall i | 0 <= i < |s| ensures s[i] == a[i] { assert Replaced(s)[i] == a[i]; }
    }
  }

  /** Hence well-formed identifiers of one tenant never share memory ... */
  lemma SafeSessionsAreApart(t: string, s: string, t': string, s': string)
    requires ':' !in t && ':' !in t' && IsSafeId(s) && IsSafeId(s')
    ensures KeyFor(t, s) == KeyFor(t', s') <==> t == t' && s == s'
  {
    KeysAreParts(t, s, t', s');
    SafeKeyPartIsIdentityIff(s);
    SafeKeyPartIsIdentityIff(s');
  }

  /** ... but other identifiers can, although keys are documented to keep sessions apart. */
  lemma SessionsCanCollide(t: string)
    ensures KeyFor(t, "a b") == KeyFor(t, "a_b")
  {
    assert Strip("a b") == "a b" && Strip("a_b") == "a_b";
    assert Replaced("a b") == "a_b" && Replaced("a_b") == "a_b";
  }

  // ---- What is remembered -----------------------------------------------------------------------

  function Gap(h: seq<Message>, i: nat): int
    requires 0 < i < |h|
  {
    h[i].createdAt - h[i - 1].createdAt
  }

  /** Where the latest run begins: the last position that a pause of ttl or more precedes, or the start. */
  function RunStart(h: seq<Message>, ttl: int): (n: nat)
    ensures h == [] ==> n == 0
    ensures h != [] ==> n < |h| && (n == 0 || Gap(h, n) >= ttl) && forall i :: n < i < |h| ==> Gap(h, i) < ttl
  {
    if |h| <= 1 then 0
    else if Gap(h, |h| - 1) >= ttl then |h| - 1
    else
      var n := RunStart(h[..|h| - 1], ttl);
      assert n > 0 ==> Gap(h, n) == Gap(h[..|h| - 1], n);
      assert forall i :: n < i < |h| - 1 ==> Gap(h, i) == Gap(h[..|h| - 1], i);
      n
  }

  /** The newest `max` messages of the latest run, unless that run has expired. */
  function Remembered(h: seq<Message>, ttl: int, max: nat, now: int): seq<Message> {
    if h == [] || now - h[|h| - 1].createdAt >= ttl then [] else Trim(h[RunStart(h, ttl)..], max)
  }

  /** Nothing when the last message is ttl old; otherwise an end of the history, as long as its latest run or,
      when there is a maximum, as that at most.  So the last item is the message appended last. */
  ghost predicate AreNewest(items: seq<Message>, h: seq<Message>, ttl: int, max: nat, now: int) {
    if h == [] || now - h[|h| - 1].createdAt >= ttl then items == []
    else
      var run := |h| - RunStart(h, ttl);
      var k := if max == 0 || run <= max then run else max;
      0 < k <= |h| && items == h[|h| - k..] && items[|items| - 1] == h[|h| - 1]
  }

  lemma RememberedAreNewest(h: seq<Message>, ttl: int, max: nat, now: int)
    ensures AreNewest(Remembered(h, ttl, max, now), h, ttl, max, now)
  {}

  lemma RunStartOfAppend(h: seq<Message>, m: Message, ttl: int)
    requires h != []
    ensures RunStart(h + [m], ttl) == if m.createdAt - h[|h| - 1].createdAt >= ttl then |h| else RunStart(h, ttl)
  {}

  /** Trimming after every append is trimming once at the end. */
  lemma TrimOfAppend(items: seq<Message>, m: Message, max: nat)
    ensures Trim(Trim(items, max) + [m], max) == Trim(items + [m], max)
  {}

  /** The entry a history leaves behind. */
  ghost predicate IsEntryOf(e: Entry, h: seq<Message>, ttl: int, max: nat) {
    h != [] && e.expiresAt == h[|h| - 1].createdAt + ttl && e.items == Trim(h[RunStart(h, ttl)..], max)
  }

  lemma AppendKeepsEntry(items: seq<Message>, h: seq<Message>, m: Message, ttl: int, max: nat)
    requires items == Remembered(h, ttl, max, m.createdAt)
    ensures IsEntryOf(Entry(Trim(items + [m], max), m.createdAt + ttl), h + [m], ttl, max)
  {
    var n := RunStart(h + [m], ttl);
    if h != [] { RunStartOfAppend(h, m, ttl); }
    if items == [] && (h == [] || m.createdAt - h[|h| - 1].createdAt >= ttl) {
      assert (h + [m])[n..] == [m];
    } else {
      assert (h + [m])[n..] == h[n..] + [m];
      TrimOfAppend(h[n..], m, max);
    }
  }

  ghost predicate IsStoreOf(store: map<string, Entry>, histories: map<string, seq<Message>>, ttl: int, max: nat) {
    store.Keys == histories.Keys && forall key :: key in store ==> IsEntryOf(store[key], histories[key], ttl, max)
  }

  function HistoryOf(histories: map<string, seq<Message>>, key: string): seq<Message> {
    if key in histories then histories[key] else []
  }

  /** What the store returns for a key: nothing once the entry has expired. */
  function Live(store: map<string, Entry>, key: string, now: int): seq<Message> {
    if key in store && now < store[key].expiresAt then store[key].items else []
  }

  lemma LiveIsRemembered(store: map<string, Entry>, histories: map<string, seq<Message>>, key: string, ttl: int, max: nat, now: int)
    requires IsStoreOf(store, histories, ttl, max)
    ensures Live(store, key, now) == Remembered(HistoryOf(histories, key), ttl, max, now)
  {}

  lemma AppendKeepsStore(store: map<string, Entry>, histories: map<string, seq<Message>>, key: string, m: Message, ttl: int, max: nat)
    requires IsStoreOf(store, histories, ttl, max)
    ensures IsStoreOf(store[key := Entry(Trim(Live(store, key, m.createdAt) + [m], max), m.createdAt + ttl)],
                      histories[key := HistoryOf(histories, key) + [m]], ttl, max)
  {
    LiveIsRemembered(store, histories, key, ttl, max, m.createdAt);
    AppendKeepsEntry(Live(store, key, m.createdAt), HistoryOf(histories, key), m, ttl, max);
  }

  class SessionMemory {
    const ttl: int
    const max: nat
    const redact: string -> string
    var store: map<string, Entry>
    /** Every message ever appended under a key. */
    ghost var histories: map<string, seq<Message>>

    ghost function History(key: string): seq<Message>
      reads this
    {
      HistoryOf(histories, key)
    }

    ghost predicate Valid()
      reads this
    {
      IsStoreOf(store, histories, ttl, max)
    }

    constructor (ttl: int, max: nat, redact: string -> string)
      ensures Valid() && histories == map[] && this.ttl == ttl && this.max == max && this.redact == redact
    {
      this.ttl, this.max, this.redact := ttl, max, redact;
      store, histories := map[], map[];
    }

    /** LRANGE key 0 -1 */
    method GetMessages(tenant: string, session: string, now: int) returns (items: seq<Message>)
      requires Valid()
      ensures AreNewest(items, History(KeyFor(tenant, session)), ttl, max, now)
      ensures items == Remembered(History(KeyFor(tenant, session)), ttl, max, now)
    {
      items := Live(store, KeyFor(tenant, session), now);
      LiveIsRemembered(store, histories, KeyFor(tenant, session), ttl, max, now);
      RememberedAreNewest(History(KeyFor(tenant, session)), ttl, max, now);
    }

    method AppendMessage(tenant: string, session: string, role: string, content: string, now: int)
      requires Valid()
      modifies this
      ensures Valid()
      ensures var key := KeyFor(tenant, session);
        histories == old(histories)[key := old(History(key)) + [Message(role, redact(content), now)]]
    {
      Push(KeyFor(tenant, session), Message(role, redact(content), now));
    }

    /** RPUSH, LTRIM, EXPIRE. */
    method Push(key: string, message: Message)
      requires Valid()
      modifies this
      ensures Valid() && histories == old(histories)[key := old(History(key)) + [message]]
    {
      AppendKeepsStore(store, histories, key, message, ttl, max);
      var store' := store[key := Entry(Trim(Live(store, key, message.createdAt) + [message], max), message.createdAt + ttl)];
      ghost var histories' := histories[key := History(key) + [message]];
      assert IsStoreOf(store', histories', ttl, max);
      store, histories := store', histories';
    }
  }
}
