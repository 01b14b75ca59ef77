/** The admin invite lifecycle: single-use tokens, revocation, re-minting, and the users they create. */
module Invites {
  import opened Wrappers
  import opened Text

  datatype Role = TenantAdmin | TenantManager

  datatype Invite = Invite(token: int, tenant: int, email: string, role: Role, invitedBy: string,
                           expiresAt: int, usedAt: Option<int>, revokedAt: Option<int>)

  /** A user; `origin` is the invite that created it, if one did. */
  datatype User = User(tenant: int, email: string, role: Role, fullName: string, origin: Option<int>)

  datatype Status = Used | Revoked | Expired | Pending

  datatype Outcome = Accepted | PasswordMismatch | WeakPassword | Unavailable | AlreadyRegistered

  datatype Change = Changed | Unknown | CrossTenant | AlreadyUsed | AlreadyRevoked

  datatype Actor = Actor(tenant: int, id: string, role: Role)

  datatype AuditRow = InviteRevoked(tenant: int, actor: Actor, invite: int) | InviteResent(tenant: int, actor: Actor, invite: int)

  /** The tables: invite rows by id, and users in order of creation. */
  datatype Tables = Tables(invites: map<int, Invite>, users: seq<User>)

  function StatusOf(i: Invite, now: int): Status {
    if i.usedAt.Some? then Used else if i.revokedAt.Some? then Revoked else if i.expiresAt < now then Expired else Pending
  }

  predicate IsStrong(password: string) {
    && |password| <= 72
    && (exists k :: 0 <= k < |password| && ('a' <= password[k] <= 'z' || 'A' <= password[k] <= 'Z'))
    && (exists k :: 0 <= k < |password| && '0' <= password[k] <= '9')
  }

  lemma StrongIsAcceptable(password: string)
    ensures IsStrong(password) <==> IsAcceptable(password)
  {
    forall k | 0 <= k < |password| ensures password[k] in password {}
    if c :| c in password && ('a' <= c <= 'z' || 'A' <= c <= 'Z') {
      var k :| 0 <= k < |password| && password[k] == c;
      assert 'a' <= password[k] <= 'z' || 'A' <= password[k] <= 'Z';
    }
    if c :| c in password && '0' <= c <= '9' {
      var k :| 0 <= k < |password| && password[k] == c;
      assert '0' <= password[k] <= '9';
    }
  }

  /** A tenant manager may act on any tenant, a tenant admin on its own only. */
  predicate MayAct(a: Actor, i: Invite) {
    a.role == TenantManager || i.tenant == a.tenant
  }

  ghost predicate Resolves(t: Tables, token: int) {
    exists id :: id in t.invites && t.invites[id].token == token
  }

  predicate IsRegistered(users: seq<User>, email: string) {
    exists k :: 0 <= k < |users| && users[k].email == email
  }

  /** User k was created by invite `id`, and carries that invite's email, tenant and role. */
  ghost predicate CreatedBy(t: Tables, k: int, id: int) {
    && 0 <= k < |t.users| && t.users[k].origin == Some(id) && id in t.invites
    && t.users[k].email == t.invites[id].email && t.users[k].tenant == t.invites[id].tenant
    && t.users[k].role == t.invites[id].role
  }

  // ---- What every operation keeps ---------------------------------------------------------------

  /** `issued` are all tokens ever handed out: tokens are unique, used and revoked exclude each other,
      emails are unique, and used invites and the users they created correspond one to one. */
  ghost predicate IsSafe(t: Tables, issued: set<int>) {
    && (forall id, id' :: id in t.invites && id' in t.invites && t.invites[id].token == t.invites[id'].token ==> id == id')
    && (forall id :: id in t.invites ==> t.invites[id].token in issued)
    && (forall id :: id in t.invites ==> !(t.invites[id].usedAt.Some? && t.invites[id].revokedAt.Some?))
    && (forall j, k :: 0 <= j < |t.users| && 0 <= k < |t.users| && t.users[j].email == t.users[k].email ==> j == k)
    && (forall id :: id in t.invites && t.invites[id].usedAt.Some? ==> HasUser(t, id))
    && (forall k :: 0 <= k < |t.users| && t.users[k].origin.Some? ==>
          CreatedBy(t, k, t.users[k].origin.value) && t.invites[t.users[k].origin.value].usedAt.Some?)
  }

  ghost predicate HasUser(t: Tables, id: int) {
    exists k :: CreatedBy(t, k, id)
  }

  /** How the tables may develop: rows are never dropped, identity and scope of an invite never change, a
      used or revoked invite never changes at all, users never change, and a token that stops resolving
      was issued before. */
  ghost predicate Develops(t: Tables, issued: set<int>, t': Tables, issued': set<int>) {
    && issued <= issued' && t.users <= t'.users && t.invites.Keys <= t'.invites.Keys
    && (forall id :: id in t.invites ==> InviteDevelops(t.invites[id], t'.invites[id], issued))
    && (forall token :: token in issued && !Resolves(t, token) ==> !Resolves(t', token))
  }

  ghost predicate InviteDevelops(i: Invite, i': Invite, issued: set<int>) {
    && i'.email == i.email && i'.tenant == i.tenant && i'.role == i.role && i'.invitedBy == i.invitedBy
    && (i.usedAt.Some? || i.revokedAt.Some? ==> i' == i)
    && (i'.token == i.token || i'.token !in issued)
  }

  lemma DevelopsIsTransitive(t: Tables, issued: set<int>, t1: Tables, issued1: set<int>, t2: Tables, issued2: set<int>)
    requires Develops(t, issued, t1, issued1) && Develops(t1, issued1, t2, issued2)
    ensures Develops(t, issued, t2, issued2)
  {
    forall id | id in t.invites ensures InviteDevelops(t.invites[id], t2.invites[id], issued) {
      assert InviteDevelops(t.invites[id], t1.invites[id], issued);
      assert InviteDevelops(t1.invites[id], t2.invites[id], issued1);
    }
  }

  /** Over a whole run: every state develops from every earlier one. */
  lemma {:induction false} RunDevelops(run: seq<(Tables, set<int>)>, i: nat, j: nat)
    requires i <= j < |run|
    requires forall k :: 0 <= k < |run| - 1 ==> Develops(run[k].0, run[k].1, run[k + 1].0, run[k + 1].1)
    ensures Develops(run[i].0, run[i].1, run[j].0, run[j].1)
  {
    if i < j {
      RunDevelops(run, i, j - 1);
      DevelopsIsTransitive(run[i].0, run[i].1, run[j - 1].0, run[j - 1].1, run[j].0, run[j].1);
    }
  }

  /** Used and revoked are absorbing, whatever happens and however late. */
  lemma TerminalIsAbsorbing(run: seq<(Tables, set<int>)>, i: nat, j: nat, id: int, now: int, now': int)
    requires i <= j < |run| && now <= now'
    requires forall k :: 0 <= k < |run| - 1 ==> Develops(run[k].0, run[k].1, run[k + 1].0, run[k + 1].1)
    requires id in run[i].0.invites
    requires run[i].0.invites[id].usedAt.Some? || run[i].0.invites[id].revokedAt.Some?
    ensures id in run[j].0.invites && run[j].0.invites[id] == run[i].0.invites[id]
    ensures StatusOf(run[j].0.invites[id], now') == StatusOf(run[i].0.invites[id], now)
    ensures StatusOf(run[j].0.invites[id], now') == Used || StatusOf(run[j].0.invites[id], now') == Revoked
  {
    RunDevelops(run, i, j);
    assert InviteDevelops(run[i].0.invites[id], run[j].0.invites[id], run[i].1);
  }

  /** A token that was issued and no longer resolves, rotated away, never resolves again. */
  lemma RotatedTokenIsDead(run: seq<(Tables, set<int>)>, i: nat, j: nat, token: int)
    requires i <= j < |run|
    requires forall k :: 0 <= k < |run| - 1 ==> Develops(run[k].0, run[k].1, run[k + 1].0, run[k + 1].1)
    requires token in run[i].1 && !Resolves(run[i].0, token)
    ensures !Resolves(run[j].0, token)
  {
    RunDevelops(run, i, j);
  }

  /** In a safe state each used invite has exactly one user, with its email, tenant and role, and no two
      invites share one. */
  lemma UsersMatchUsedInvites(t: Tables, issued: set<int>, id: int)
    requires IsSafe(t, issued) && id in t.invites && t.invites[id].usedAt.Some?
    ensures exists k :: CreatedBy(t, k, id)
    ensures forall j, k :: CreatedBy(t, j, id) && CreatedBy(t, k, id) ==> j == k
    ensures forall k, id' :: CreatedBy(t, k, id) && CreatedBy(t, k, id') ==> id == id'
  {
    assert HasUser(t, id);
  }

  // ---- The steps --------------------------------------------------------------------------------

  lemma AddInvite(t: Tables, issued: set<int>, id: int, i: Invite)
    requires IsSafe(t, issued) && id !in t.invites && i.token !in issued && i.usedAt == None && i.revokedAt == None
    ensures var t' := t.(invites := t.invites[id := i]);
      IsSafe(t', issued + {i.token}) && Develops(t, issued, t', issued + {i.token})
  {
    var t', issued' := t.(invites := t.invites[id := i]), issued + {i.token};
    KeepsUsers(t, issued, t');
    forall id' | id' in t'.invites && t'.invites[id'].token in issued ensures Resolves(t, t'.invites[id'].token) {
      assert id' in t.invites && t.invites[id'].token == t'.invites[id'].token;
    }
  }

  /** Changing rows without touching used ones keeps the correspondence with users. */
  lemma KeepsUsers(t: Tables, issued: set<int>, t': Tables)
    requires IsSafe(t, issued) && t'.users == t.users && t.invites.Keys <= t'.invites.Keys
    requires forall id :: id in t.invites ==> InviteDevelops(t.invites[id], t'.invites[id], issued)
    requires forall id :: id in t'.invites && t'.invites[id].usedAt.Some? ==> id in t.invites && t.invites[id].usedAt.Some?
    ensures forall id :: id in t'.invites && t'.invites[id].usedAt.Some? ==> HasUser(t', id)
    ensures forall k :: 0 <= k < |t'.users| && t'.users[k].origin.Some? ==>
      CreatedBy(t', k, t'.users[k].origin.value) && t'.invites[t'.users[k].origin.value].usedAt.Some?
  {
    forall id | id in t'.invites && t'.invites[id].usedAt.Some? ensures HasUser(t', id) {
      assert HasUser(t, id);
      var k :| CreatedBy(t, k, id);
      assert InviteDevelops(t.invites[id], t'.invites[id], issued);
      assert CreatedBy(t', k, id);
    }
    forall k | 0 <= k < |t'.users| && t'.users[k].origin.Some?
      ensures CreatedBy(t', k, t'.users[k].origin.value) && t'.invites[t'.users[k].origin.value].usedAt.Some?
    {
      var id := t.users[k].origin.value;
      assert CreatedBy(t, k, id) && InviteDevelops(t.invites[id], t'.invites[id], issued);
    }
  }

  /** Revoking or re-minting a row that is neither used nor revoked. */
  lemma ChangeInvite(t: Tables, issued: set<int>, id: int, i: Invite)
    requires IsSafe(t, issued) && id in t.invites && t.invites[id].usedAt == None && t.invites[id].revokedAt == None
    requires i.usedAt == None && InviteDevelops(t.invites[id], i, issued)
    ensures var t' := t.(invites := t.invites[id := i]);
      IsSafe(t', issued + {i.token}) && Develops(t, issued, t', issued + {i.token})
    ensures i.token != t.invites[id].token ==> !Resolves(t.(invites := t.invites[id := i]), t.invites[id].token)
  {
    var t', issued' := t.(invites := t.invites[id := i]), issued + {i.token};
    KeepsUsers(t, issued, t');
    forall id' | id' in t'.invites && t'.invites[id'].token in issued ensures Resolves(t, t'.invites[id'].token) {
      assert t.invites[id'].token == t'.invites[id'].token;
    }
  }

  /** The tables after invite `id` is redeemed. */
  function Redeemed(t: Tables, id: int, usedAt: int, fullName: string): Tables
    requires id in t.invites
  {
    var i := t.invites[id];
    Tables(t.invites[id := i.(usedAt := Some(usedAt))], t.users + [User(i.tenant, i.email, i.role, fullName, Some(id))])
  }

  lemma RedeemAddsOneUser(t: Tables, issued: set<int>, id: int, usedAt: int, fullName: string)
    requires IsSafe(t, issued) && id in t.invites && t.invites[id].usedAt == None
    ensures var t' := Redeemed(t, id, usedAt, fullName);
      forall k :: 0 <= k < |t'.users| && t'.users[k].origin.Some? ==>
        CreatedBy(t', k, t'.users[k].origin.value) && t'.invites[t'.users[k].origin.value].usedAt.Some?
    ensures var t' := Redeemed(t, id, usedAt, fullName);
      forall id' :: id' in t'.invites && t'.invites[id'].usedAt.Some? ==> HasUser(t', id')
  {
    var t' := Redeemed(t, id, usedAt, fullName);
    forall k | 0 <= k < |t'.users| && t'.users[k].origin.Some?
      ensures CreatedBy(t', k, t'.users[k].origin.value) && t'.invites[t'.users[k].origin.value].usedAt.Some?
    {
      if k < |t.users| { assert CreatedBy(t, k, t.users[k].origin.value); }
    }
    forall id' | id' in t'.invites && t'.invites[id'].usedAt.Some? ensures HasUser(t', id') {
      if id' == id {
        assert CreatedBy(t', |t.users|, id);
      } else {
        assert HasUser(t, id');
        var k :| CreatedBy(t, k, id');
        assert CreatedBy(t', k, id');
      }
    }
  }

  lemma RedeemDevelops(t: Tables, issued: set<int>, id: int, usedAt: int, fullName: string)
    requires IsSafe(t, issued) && id in t.invites && t.invites[id].usedAt == None && t.invites[id].revokedAt == None
    ensures Develops(t, issued, Redeemed(t, id, usedAt, fullName), issued)
  {
    var t' := Redeemed(t, id, usedAt, fullName);
    forall token | token in issued && !Resolves(t, token) ensures !Resolves(t', token) {
      forall id' | id' in t'.invites ensures t'.invites[id'].token != token {
        assert t.invites[id'].token == t'.invites[id'].token;
      }
    }
  }

  /** Redeeming a pending invite. */
  lemma RedeemInvite(t: Tables, issued: set<int>, id: int, usedAt: int, fullName: string)
    requires IsSafe(t, issued) && id in t.invites && t.invites[id].usedAt == None && t.invites[id].revokedAt == None
    requires !IsRegistered(t.users, t.invites[id].email)
    ensures IsSafe(Redeemed(t, id, usedAt, fullName), issued) && Develops(t, issued, Redeemed(t, id, usedAt, fullName), issued)
  {
    RedeemDevelops(t, issued, id, usedAt, fullName);
    RedeemAddsOneUser(t, issued, id, usedAt, fullName);
    var t' := Redeemed(t, id, usedAt, fullName);
    forall j, k | 0 <= j < |t'.users| && 0 <= k < |t'.users| && t'.users[j].email == t'.users[k].email ensures j == k {
      if j < |t.users| && k < |t.users| { assert t.users[j].email == t.users[k].email; }
    }
  }

  class InviteService {
    var invites: map<int, Invite>
    var users: seq<User>
    var audit: seq<AuditRow>
    ghost var issued: set<int>

    ghost function State(): Tables
      reads this
    {
      Tables(invites, users)
    }

    ghost predicate Valid()
      reads this
    {
      IsSafe(State(), issued)
    }

    constructor (users: seq<User>)
      requires forall j, k :: 0 <= j < |users| && 0 <= k < |users| && users[j].email == users[k].email ==> j == k
      requires forall k :: 0 <= k < |users| ==> users[k].origin == None
      ensures Valid() && invites == map[] && this.users == users
    {
      this.invites, this.users, this.audit, this.issued := map[], users, [], {};
    }

    /** SELECT ... WHERE token = ... */
    method GetByToken(token: int) returns (found: Option<int>)
      requires Valid()
      ensures found == None <==> !Resolves(State(), token)
      ensures found.Some? ==> found.value in invites && invites[found.value].token == token
    {
      if exists id :: id in invites && invites[id].token == token {
        var id :| id in invites && invites[id].token == token;
        return Some(id);
      }
      found := None;
    }

    /** `id` and `token` are fresh uuids; the expiry is `ttlSeconds` from now. */
    method CreateInvite(id: int, token: int, tenant: int, email: string, role: Role, invitedBy: string, ttlSeconds: int, now: int)
      requires Valid() && id !in invites && token !in issued
      modifies this
      ensures Valid() && Develops(old(State()), old(issued), State(), issued) && issued == old(issued) + {token}
      ensures invites == old(invites)[id := Invite(token, tenant, Lower(email), role, invitedBy, now + ttlSeconds, None, None)]
      ensures SameButCase(email, invites[id].email) && !HasCapital(invites[id].email)
      ensures users == old(users) && audit == old(audit)
    {
      LowerForgetsCase(email, email);
      var i := Invite(token, tenant, Lower(email), role, invitedBy, now + ttlSeconds, None, None);
      AddInvite(State(), issued, id, i);
      invites := invites[id := i];
      issued := issued + {token};
    }

    /** Redeem a token.  It succeeds exactly for matching strong passwords on a pending invite whose
        email is not registered yet; it creates that one user and changes nothing otherwise. */
    method AcceptInvite(token: int, fullName: string, password: string, confirmPassword: string, now: int, usedAt: int)
      returns (r: Outcome)
      requires Valid()
      modifies this
      ensures Valid() && Develops(old(State()), old(issued), State(), issued) && issued == old(issued) && audit == old(audit)
      ensures r == PasswordMismatch <==> password != confirmPassword
      ensures r == WeakPassword <==> password == confirmPassword && !IsAcceptable(password)
      ensures var usable := password == confirmPassword && IsAcceptable(password);
        && (r == Accepted <==> usable && exists id :: IsRedeemable(old(State()), id, token, now))
        && (r == AlreadyRegistered <==> usable && exists id :: IsTaken(old(State()), id, token, now))
      ensures r != Accepted ==> State() == old(State())
      ensures r == Accepted ==> exists id :: IsRedeemed(old(State()), id, token, now, usedAt, Strip(fullName), State())
    {
      StrongIsAcceptable(password);
      if password != confirmPassword { return PasswordMismatch; }
      if !IsStrong(password) { return WeakPassword; }
      var found := GetByToken(token);
      assert found.Some? ==> forall id :: id in invites && invites[id].token == token ==> id == found.value;
      if found == None || StatusOf(invites[found.value], now) != Pending { return Unavailable; }
      var id := found.value;
      var i := invites[id];
      if IsRegistered(users, i.email) { assert IsTaken(State(), id, token, now); return AlreadyRegistered; }
      assert IsRedeemable(State(), id, token, now);
      RedeemInvite(State(), issued, id, usedAt, Strip(fullName));
      users := users + [User(i.tenant, i.email, i.role, Strip(fullName), Some(id))];
      invites := invites[id := i.(usedAt := Some(usedAt))];
      assert IsRedeemed(old(State()), id, token, now, usedAt, Strip(fullName), State());
      r := Accepted;
    }

    /** Revoke.  Allowed for pending and for expired invites alike. */
    method RevokeInvite(token: int, actor: Actor, now: int, revokedAt: int) returns (r: Change)
      requires Valid()
      modifies this
      ensures Valid() && Develops(old(State()), old(issued), State(), issued) && issued == old(issued)
      ensures IsVerdict(old(State()), token, actor, r)
      ensures r != Changed ==> State() == old(State()) && audit == old(audit)
      ensures r == Changed ==> (exists id :: IsRevoked(old(State()), id, token, revokedAt, State())
                                  && audit == old(audit) + [InviteRevoked(old(invites)[id].tenant, actor, id)])
    {
      var id;
      r, id := Check(token, actor, now);
      if r != Changed { return; }
      var i := invites[id].(revokedAt := Some(revokedAt));
      ChangeInvite(State(), issued, id, i);
      assert issued + {i.token} == issued;
      invites := invites[id := i];
      audit := audit + [InviteRevoked(i.tenant, actor, id)];
      assert IsRevoked(old(State()), id, token, revokedAt, State());
    }

    /** Re-mint the token and extend the expiry; the old token stops resolving at once. */
    method ResendInvite(token: int, actor: Actor, newToken: int, ttlSeconds: int, now: int) returns (r: Change)
      requires Valid() && newToken !in issued
      modifies this
      ensures Valid() && Develops(old(State()), old(issued), State(), issued)
      ensures IsVerdict(old(State()), token, actor, r)
      ensures issued == if r == Changed then old(issued) + {newToken} else old(issued)
      ensures r != Changed ==> State() == old(State()) && audit == old(audit)
      ensures r == Changed ==> (exists id :: IsResent(old(State()), id, token, newToken, now + ttlSeconds, State())
                                  && audit == old(audit) + [InviteResent(old(invites)[id].tenant, actor, id)])
      ensures r == Changed ==> !Resolves(State(), token) && token in issued
    {
      var id;
      r, id := Check(token, actor, now);
      if r != Changed { return; }
      var i := invites[id].(token := newToken, expiresAt := now + ttlSeconds);
      ChangeInvite(State(), issued, id, i);
      invites := invites[id := i];
      issued := issued + {newToken};
      audit := audit + [InviteResent(i.tenant, actor, id)];
      assert IsResent(old(State()), id, token, newToken, now + ttlSeconds, State());
    }

    /** The refusals that revoke and resend share. */
    method Check(token: int, actor: Actor, now: int) returns (r: Change, id: int)
      requires Valid()
      ensures IsVerdict(State(), token, actor, r)
      ensures r == Changed ==> id in invites && invites[id].token == token && invites[id].usedAt == None && invites[id].revokedAt == None
    {
      id := 0;
      var found := GetByToken(token);
      if found == None { return Unknown, id; }
      id := found.value;
      assert HasToken(State(), id, token);
      var i := invites[id];
      if !MayAct(actor, i) { return CrossTenant, id; }
      match StatusOf(i, now) {
        case Used => r := AlreadyUsed;
        case Revoked => r := AlreadyRevoked;
        case _ => r := Changed;
      }
    }
  }

  /** Neither used nor revoked, and its expiry not passed. */
  predicate IsOpen(i: Invite, now: int) {
    i.usedAt == None && i.revokedAt == None && now <= i.expiresAt
  }

  /** At most 72 characters, at least one letter, at least one digit. */
  predicate IsAcceptable(password: string) {
    |password| <= 72 && HasLetter(password) && HasDigit(password)
  }

  predicate HasLetter(s: string) {
    exists c :: c in s && ('a' <= c <= 'z' || 'A' <= c <= 'Z')
  }

  predicate HasDigit(s: string) {
    exists c :: c in s && '0' <= c <= '9'
  }

  /** What accept requires of the row behind a token. */
  ghost predicate IsRedeemable(t: Tables, id: int, token: int, now: int) {
    HasToken(t, id, token) && IsOpen(t.invites[id], now) && !IsRegistered(t.users, t.invites[id].email)
  }

  /** The row is pending, but somebody has registered its email already. */
  ghost predicate IsTaken(t: Tables, id: int, token: int, now: int) {
    HasToken(t, id, token) && IsOpen(t.invites[id], now) && IsRegistered(t.users, t.invites[id].email)
  }

  /** Which refusal, if any, a token and an actor meet. */
  ghost predicate IsVerdict(t: Tables, token: int, actor: Actor, r: Change) {
    if !Resolves(t, token) then r == Unknown
    else exists id :: HasToken(t, id, token) && r == Verdict(t.invites[id], actor)
  }

  function Verdict(i: Invite, actor: Actor): Change {
    if actor.role == TenantAdmin && i.tenant != actor.tenant then CrossTenant
    else if i.usedAt.Some? then AlreadyUsed
    else if i.revokedAt.Some? then AlreadyRevoked else Changed
  }

  ghost predicate HasToken(t: Tables, id: int, token: int) {
    id in t.invites && t.invites[id].token == token
  }

  function WithInvite(t: Tables, id: int, i: Invite): Tables {
    t.(invites := t.invites[id := i])
  }

  ghost predicate IsRevoked(t: Tables, id: int, token: int, revokedAt: int, t': Tables) {
    HasToken(t, id, token) && t' == WithInvite(t, id, t.invites[id].(revokedAt := Some(revokedAt)))
  }

  ghost predicate IsResent(t: Tables, id: int, token: int, newToken: int, expiresAt: int, t': Tables) {
    HasToken(t, id, token) && t' == WithInvite(t, id, t.invites[id].(token := newToken, expiresAt := expiresAt))
  }

  /** The invite is marked used and one user is added, with the invite's email, tenant and role. */
  ghost predicate IsRedeemed(t: Tables, id: int, token: int, now: int, usedAt: int, fullName: string, t': Tables) {
    && IsRedeemable(t, id, token, now)
    && t' == Redeemed(t, id, usedAt, fullName)
  }

  // ---- How long an invite lives -----------------------------------------------------------------

  /** A token names one row, which alone decides. */
  lemma OneRowDecides(t: Tables, issued: set<int>, id: int, token: int, now: int)
    requires IsSafe(t, issued) && HasToken(t, id, token)
    ensures (exists id' :: IsRedeemable(t, id', token, now)) <==> IsOpen(t.invites[id], now) && !IsRegistered(t.users, t.invites[id].email)
    ensures (exists id' :: IsTaken(t, id', token, now)) <==> IsOpen(t.invites[id], now) && IsRegistered(t.users, t.invites[id].email)
  {
    assert IsOpen(t.invites[id], now) ==> IsRedeemable(t, id, token, now) || IsTaken(t, id, token, now);
    forall id' | HasToken(t, id', token) ensures id' == id {}
  }

  /** An invite nobody touches is accepted until its lifetime is over, and never after. */
  method CreateThenAccept(s: InviteService, id: int, token: int, tenant: int, email: string, role: Role, invitedBy: string,
                          ttlSeconds: int, created: int, fullName: string, password: string, now: int) returns (r: Outcome)
    requires s.Valid() && id !in s.invites && token !in s.issued
    requires IsAcceptable(password) && !IsRegistered(s.users, Lower(email))
    modifies s
    ensures s.Valid() && r == if now <= created + ttlSeconds then Accepted else Unavailable
  {
    s.CreateInvite(id, token, tenant, email, role, invitedBy, ttlSeconds, created);
    OneRowDecides(s.State(), s.issued, id, token, now);
    r := s.AcceptInvite(token, fullName, password, password, now, now);
  }

  /** What accepting the row answers, given a good password, when it has just been sent again. */
  ghost predicate IsAnswerAfterResend(t: Tables, id: int, token: int, resent: int, ttlSeconds: int, now: int, r: Outcome) {
    HasToken(t, id, token)
    && r == if now > resent + ttlSeconds then Unavailable
            else if IsRegistered(t.users, t.invites[id].email) then AlreadyRegistered else Accepted
  }

  /** A resend at any time, before or after the expiry, starts the lifetime again under the new token. */
  method ResendThenAccept(s: InviteService, token: int, actor: Actor, newToken: int, ttlSeconds: int, resent: int,
                          fullName: string, password: string, now: int) returns (change: Change, r: Outcome)
    requires s.Valid() && newToken !in s.issued && IsAcceptable(password)
    modifies s
    ensures s.Valid()
    ensures change == Changed ==> exists id :: IsAnswerAfterResend(old(s.State()), id, token, resent, ttlSeconds, now, r)
  {
    change := s.ResendInvite(token, actor, newToken, ttlSeconds, resent);
    ghost var id := 0;
    if change == Changed {
      id :| IsResent(old(s.State()), id, token, newToken, resent + ttlSeconds, s.State());
      OneRowDecides(s.State(), s.issued, id, newToken, now);
    }
    r := s.AcceptInvite(newToken, fullName, password, password, now, now);
    assert change == Changed ==> IsAnswerAfterResend(old(s.State()), id, token, resent, ttlSeconds, now, r);
  }
}
