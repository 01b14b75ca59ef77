/** The widget configuration: validated updates, their origin audit trail, rollback, and token issuance. */
module WidgetConfigs {
  import opened Wrappers
  import opened Origins

  /** A row; theme_json is kept as its JSON text, and `active` is the owning tenant's status. */
  datatype Config = Config(id: int, tenant: int, widget: int, allowed: seq<string>, enabled: bool, active: bool,
                           theme: Option<string>, greeting: Option<string>)

  datatype Request = Request(allowed: seq<string>, enabled: bool, theme: Option<string>, greeting: Option<string>)

  datatype Update = Update(tenant: int, request: Request, actor: Option<string>)

  datatype AuditAction = OriginAdded | OriginRemoved

  datatype AuditRow = AuditRow(action: AuditAction, tenant: int, actor: Option<string>, origin: string, widget: int)

  datatype Outcome = NotFound | AuditFailed(written: nat) | Updated(config: Config)

  // ---- Sorted differences -----------------------------------------------------------------------

  /** String order by code points. */
  predicate Less(a: string, b: string) {
    b != "" && (a == "" || a[0] < b[0] || (a[0] == b[0] && Less(a[1..], b[1..])))
  }

  lemma {:induction false} LessIsTotal(a: string, b: string)
    ensures a == b || Less(a, b) || Less(b, a)
  {
    if a != "" && b != "" && a[0] == b[0] {
      LessIsTotal(a[1..], b[1..]);
      assert a == [a[0]] + a[1..] && b == [b[0]] + b[1..];
    }
  }

  lemma {:induction false} LessIsTransitive(a: string, b: string, c: string)
    requires Less(a, b) && Less(b, c)
    ensures Less(a, c) && a != c
  {
    if a != "" && a[0] == b[0] == c[0] { LessIsTransitive(a[1..], b[1..], c[1..]); }
  }

  /** a and b agree before position k, where a ends or has the smaller character. */
  ghost predicate DifferAt(a: string, b: string, k: nat) {
    k <= |a| && k < |b| && (forall i :: 0 <= i < k ==> a[i] == b[i]) && (k < |a| ==> a[k] < b[k])
  }

  /** The order is the lexicographic one. */
  lemma {:induction false} LessIff(a: string, b: string)
    ensures Less(a, b) <==> exists k: nat :: DifferAt(a, b, k)
  {
    if a != "" && b != "" && a[0] == b[0] {
      LessIff(a[1..], b[1..]);
      if k: nat :| DifferAt(a[1..], b[1..], k) {
        forall i | 0 <= i < k + 1 ensures a[i] == b[i] { if i > 0 { assert a[1..][i - 1] == b[1..][i - 1]; } }
        assert DifferAt(a, b, k + 1);
      }
      if k: nat :| DifferAt(a, b, k) { assert DifferAt(a[1..], b[1..], k - 1); }
    } else if b != "" {
      if Less(a, b) { assert DifferAt(a, b, 0); }
      if k: nat :| DifferAt(a, b, k) { assert k == 0; }
    }
  }

  ghost predicate IsAscending(s: seq<string>) {
    forall i, j :: 0 <= i < j < |s| ==> Less(s[i], s[j]) && s[i] != s[j]
  }

  /** A string below everything in an ascending sequence may be put in front of it. */
  lemma PrependAscending(x: string, s: seq<string>)
    requires IsAscending(s) && forall o :: o in s ==> Less(x, o) && x != o
    ensures IsAscending([x] + s)
  {
    var r := [x] + s;
    forall i, j | 0 <= i < j < |r| ensures Less(r[i], r[j]) && r[i] != r[j] {
      assert r[j] == s[j - 1] && s[j - 1] in s;
    }
  }

  lemma HeadIsLeast(x: string, s: seq<string>)
    requires IsAscending(s) && s != [] && (Less(x, s[0]) || x == s[0])
    ensures forall o :: o in s[1..] ==> Less(x, o) && x != o
  {
    forall o | o in s[1..] ensures Less(x, o) && x != o {
      var j :| 0 <= j < |s[1..]| && s[1..][j] == o;
      assert Less(s[0], s[j + 1]) && s[j + 1] == o;
      if x != s[0] { LessIsTransitive(x, s[0], o); }
    }
  }

  function Insert(x: string, s: seq<string>): (r: seq<string>)
    requires IsAscending(s)
    ensures IsAscending(r) && forall o :: o in r <==> o == x || o in s
  {
    if s == [] then [x]
    else if x == s[0] then s
    else
      assert s == [s[0]] + s[1..];
      if Less(x, s[0]) then
        HeadIsLeast(x, s);
        PrependAscending(x, s);
        [x] + s
      else
        LessIsTotal(x, s[0]);
        HeadIsLeast(s[0], s);
        var rest := Insert(x, s[1..]);
        PrependAscending(s[0], rest);
        [s[0]] + rest
  }

  /** sorted(set(s) - set(except)) */
  function Difference(s: seq<string>, except: seq<string>): (r: seq<string>)
    ensures IsAscending(r) && forall o :: o in r <==> o in s && o !in except
  {
    if s == [] then []
    else
      assert s == [s[0]] + s[1..];
      var rest := Difference(s[1..], except);
      if s[0] in except then rest else Insert(s[0], rest)
  }

  // ---- One update -------------------------------------------------------------------------------

  function RowsFor(action: AuditAction, origins: seq<string>, tenant: int, actor: Option<string>, widget: int): (r: seq<AuditRow>)
    ensures |r| == |origins|
    ensures forall k :: 0 <= k < |r| ==> r[k] == AuditRow(action, tenant, actor, origins[k], widget)
  {
    seq(|origins|, k requires 0 <= k < |origins| => AuditRow(action, tenant, actor, origins[k], widget))
  }

  /** One audit row per net change: added origins first, each group sorted. */
  function Events(c: Config, u: Update): seq<AuditRow> {
    RowsFor(OriginAdded, Difference(u.request.allowed, c.allowed), u.tenant, u.actor, c.widget)
    + RowsFor(OriginRemoved, Difference(c.allowed, u.request.allowed), u.tenant, u.actor, c.widget)
  }

  function Applied(c: Config, r: Request): Config {
    c.(allowed := r.allowed, enabled := r.enabled, theme := r.theme, greeting := r.greeting)
  }

  /** The row after an update, field by field: the request decides four, and the others are kept. */
  predicate IsUpdated(before: Config, r: Request, after: Config) {
    && after.allowed == r.allowed && after.enabled == r.enabled && after.theme == r.theme && after.greeting == r.greeting
    && after.id == before.id && after.tenant == before.tenant && after.widget == before.widget && after.active == before.active
  }

  /** Row i was updated and no other. */
  predicate IsOneUpdated(before: seq<Config>, i: nat, r: Request, after: seq<Config>)
    requires i < |before|
  {
    |after| == |before| && IsUpdated(before[i], r, after[i]) && forall j :: 0 <= j < |before| && j != i ==> after[j] == before[j]
  }

  /** The first row of a tenant. */
  function FindTenant(rows: seq<Config>, tenant: int): (i: Option<nat>)
    ensures i.Some? ==> i.value < |rows| && rows[i.value].tenant == tenant
    ensures i.Some? ==> forall j :: 0 <= j < i.value ==> rows[j].tenant != tenant
    ensures i == None ==> forall j :: 0 <= j < |rows| ==> rows[j].tenant != tenant
  {
    if rows == [] then None
    else if rows[0].tenant == tenant then Some(0)
    else
      var i := FindTenant(rows[1..], tenant);
      if i == None then None else Some(i.value + 1)
  }

  function UpdatedRows(rows: seq<Config>, tenant: int, r: Request): seq<Config> {
    var i := FindTenant(rows, tenant);
    if i == None then rows else rows[i.value := Applied(rows[i.value], r)]
  }

  function RequestOf(c: Config): Request {
    Request(c.allowed, c.enabled, c.theme, c.greeting)
  }

  /** Writing the snapshot back undoes an update. */
  lemma RestoreUndoes(rows: seq<Config>, tenant: int, r: Request)
    requires FindTenant(rows, tenant).Some?
    ensures UpdatedRows(UpdatedRows(rows, tenant, r), tenant, RequestOf(rows[FindTenant(rows, tenant).value])) == rows
  {
    var i := FindTenant(rows, tenant).value;
    var rows' := UpdatedRows(rows, tenant, r);
    assert rows'[i].tenant == tenant;
    assert FindTenant(rows', tenant) == Some(i);
  }

  /** The repository rows and the audit log. */
  datatype Tables = Tables(rows: seq<Config>, log: seq<AuditRow>)

  /** A successful update. */
  function Apply(t: Tables, u: Update): Tables {
    var i := FindTenant(t.rows, u.tenant);
    if i == None then t
    else Tables(UpdatedRows(t.rows, u.tenant, u.request), t.log + Events(t.rows[i.value], u))
  }

  /** The audit rows an update writes. */
  function Changes(rows: seq<Config>, u: Update): seq<AuditRow> {
    var i := FindTenant(rows, u.tenant);
    if i == None then [] else Events(rows[i.value], u)
  }

  /** The first of n writes that raises, if any. */
  function FirstFailure(n: nat, fails: nat -> bool): (k: Option<nat>)
    ensures k == None <==> forall j :: 0 <= j < n ==> !fails(j)
    ensures k.Some? ==> k.value < n && fails(k.value) && forall j :: 0 <= j < k.value ==> !fails(j)
  {
    if n == 0 then None
    else
      var before := FirstFailure(n - 1, fails);
      if before.Some? then before else if fails(n - 1) then Some(n - 1) else None
  }

  lemma FirstFailureIs(n: nat, k: nat, fails: nat -> bool)
    requires k <= n && (forall j :: 0 <= j < k ==> !fails(j)) && (k < n ==> fails(k))
    ensures FirstFailure(n, fails) == if k < n then Some(k) else None
  {}

  lemma PrefixOfConcat(a: seq<AuditRow>, b: seq<AuditRow>, n: nat)
    requires n <= |a| + |b|
    ensures (a + b)[..n] == if n <= |a| then a[..n] else a + b[..n - |a|]
    ensures n == |a| + |b| ==> (a + b)[..n] == a + b
  {}

  /** What is written before the first failure. */
  function Prefix(es: seq<AuditRow>, failed: Option<nat>): seq<AuditRow> {
    if failed.Some? && failed.value <= |es| then es[..failed.value] else es
  }

  function ApplyAll(t: Tables, us: seq<Update>): Tables
  {
    if us == [] then t else Apply(ApplyAll(t, us[..|us| - 1]), us[|us| - 1])
  }

  // ---- The audit trail replays to the configuration ---------------------------------------------

  function Step(s: set<string>, e: AuditRow, widget: int): set<string> {
    if e.widget != widget then s else if e.action.OriginAdded? then s + {e.origin} else s - {e.origin}
  }

  function Replay(start: set<string>, log: seq<AuditRow>, widget: int): set<string> {
    if log == [] then start else Step(Replay(start, log[..|log| - 1], widget), log[|log| - 1], widget)
  }

  /** Every row of the widget changes the set: nothing is added twice or removed while absent. */
  predicate IsEffective(start: set<string>, log: seq<AuditRow>, widget: int) {
    log == [] ||
    var e := log[|log| - 1];
    && IsEffective(start, log[..|log| - 1], widget)
    && (e.widget == widget ==> (e.origin in Replay(start, log[..|log| - 1], widget) <==> e.action.OriginRemoved?))
  }

  ghost predicate Tracks(start: set<string>, log: seq<AuditRow>, widget: int, origins: seq<string>) {
    IsEffective(start, log, widget) && forall o :: o in Replay(start, log, widget) <==> o in origins
  }

  lemma {:induction false} ReplayConcat(start: set<string>, a: seq<AuditRow>, b: seq<AuditRow>, widget: int)
    ensures Replay(start, a + b, widget) == Replay(Replay(start, a, widget), b, widget)
    ensures IsEffective(start, a + b, widget) <==> IsEffective(start, a, widget) && IsEffective(Replay(start, a, widget), b, widget)
  {
    if b == [] {
      assert a + b == a;
    } else {
      ReplayConcat(start, a, b[..|b| - 1], widget);
      assert (a + b)[..|a + b| - 1] == a + b[..|b| - 1];
    }
  }

  lemma {:induction false} ReplayIgnoresOthers(start: set<string>, es: seq<AuditRow>, widget: int)
    requires forall k :: 0 <= k < |es| ==> es[k].widget != widget
    ensures Replay(start, es, widget) == start && IsEffective(start, es, widget)
  {
    if es != [] { ReplayIgnoresOthers(start, es[..|es| - 1], widget); }
  }

  /** Rows about distinct origins, each a real change of `start`. */
  ghost predicate IsDiff(start: set<string>, es: seq<AuditRow>, widget: int) {
    && (forall j, k :: 0 <= j < k < |es| ==> es[j].origin != es[k].origin)
    && (forall k :: 0 <= k < |es| ==> es[k].widget == widget && (es[k].origin in start <==> es[k].action.OriginRemoved?))
  }

  ghost predicate Mentions(es: seq<AuditRow>, origin: string) {
    exists k :: 0 <= k < |es| && es[k].origin == origin
  }

  /** Such rows flip exactly the origins they mention. */
  lemma {:induction false} ReplayOfDiff(start: set<string>, es: seq<AuditRow>, widget: int)
    requires IsDiff(start, es, widget)
    ensures IsEffective(start, es, widget)
    ensures forall o :: o in Replay(start, es, widget) <==> (if Mentions(es, o) then o !in start else o in start)
  {
    if es != [] {
      var n := |es| - 1;
      ReplayOfDiff(start, es[..n], widget);
      assert !Mentions(es[..n], es[n].origin);
      forall o ensures Mentions(es, o) <==> Mentions(es[..n], o) || o == es[n].origin {
        if Mentions(es[..n], o) { var k :| 0 <= k < n && es[..n][k].origin == o; assert es[k].origin == o; }
        if Mentions(es, o) { var k :| 0 <= k < |es| && es[k].origin == o; if k < n { assert es[..n][k].origin == o; } }
      }
    }
  }

  lemma EventsAreDiff(s: set<string>, c: Config, u: Update)
    requires forall o :: o in s <==> o in c.allowed
    ensures IsDiff(s, Events(c, u), c.widget)
  {
    var added, removed := Difference(u.request.allowed, c.allowed), Difference(c.allowed, u.request.allowed);
    var es := Events(c, u);
    forall k | 0 <= k < |es|
      ensures if k < |added| then es[k].origin == added[k] && added[k] in added && es[k].action == OriginAdded
              else es[k].origin == removed[k - |added|] && removed[k - |added|] in removed && es[k].action == OriginRemoved
    {}
    forall k | 0 <= k < |es| ensures es[k].origin in s <==> es[k].action.OriginRemoved? {}
    forall j, k | 0 <= j < k < |es| ensures es[j].origin != es[k].origin {
      if |added| <= j { assert removed[j - |added|] != removed[k - |added|]; }
    }
  }

  lemma EventsMention(c: Config, u: Update, o: string)
    ensures Mentions(Events(c, u), o) <==> (o in c.allowed <==> o !in u.request.allowed)
  {
    var added, removed := Difference(u.request.allowed, c.allowed), Difference(c.allowed, u.request.allowed);
    var es := Events(c, u);
    if o in added { var k :| 0 <= k < |added| && added[k] == o; assert es[k].origin == o; }
    if o in removed { var k :| 0 <= k < |removed| && removed[k] == o; assert es[|added| + k].origin == o; }
    if Mentions(es, o) {
      var k :| 0 <= k < |es| && es[k].origin == o;
      assert if k < |added| then added[k] == o else removed[k - |added|] == o;
    }
  }

  /** An update keeps the trail in step with the row it changes. */
  lemma UpdateTracks(start: set<string>, log: seq<AuditRow>, c: Config, u: Update)
    requires Tracks(start, log, c.widget, c.allowed)
    ensures Tracks(start, log + Events(c, u), c.widget, u.request.allowed)
  {
    var s := Replay(start, log, c.widget);
    EventsAreDiff(s, c, u);
    ReplayOfDiff(s, Events(c, u), c.widget);
    ReplayConcat(start, log, Events(c, u), c.widget);
    forall o ensures o in Replay(s, Events(c, u), c.widget) <==> o in u.request.allowed { EventsMention(c, u, o); }
  }

  /** A failed update restores the row but leaves the rows written before the failure, so the trail still
      replays to the configuration exactly if the very first write failed. */
  lemma FailedUpdateTracksIff(start: set<string>, log: seq<AuditRow>, c: Config, u: Update, written: nat)
    requires Tracks(start, log, c.widget, c.allowed) && written <= |Events(c, u)|
    ensures Tracks(start, log + Events(c, u)[..written], c.widget, c.allowed) <==> written == 0
  {
    var s, es := Replay(start, log, c.widget), Events(c, u)[..written];
    EventsAreDiff(s, c, u);
    assert IsDiff(s, es, c.widget);
    ReplayOfDiff(s, es, c.widget);
    ReplayConcat(start, log, es, c.widget);
    if written > 0 {
      assert Mentions(es, es[0].origin);
    } else {
      assert log + es == log;
    }
  }

  ghost predicate HasUniqueWidgets(rows: seq<Config>) {
    forall i, j :: 0 <= i < j < |rows| ==> rows[i].widget != rows[j].widget
  }

  /** Every row's origins are what its own audit rows make of the origins it started with. */
  ghost predicate IsTracked(start: seq<set<string>>, t: Tables) {
    && |start| == |t.rows| && HasUniqueWidgets(t.rows)
    && forall i :: 0 <= i < |t.rows| ==> Tracks(start[i], t.log, t.rows[i].widget, t.rows[i].allowed)
  }

  lemma ApplyTracks(start: seq<set<string>>, t: Tables, u: Update)
    requires IsTracked(start, t)
    ensures IsTracked(start, Apply(t, u))
  {
    var found := FindTenant(t.rows, u.tenant);
    if found.Some? {
      var i, t' := found.value, Apply(t, u);
      forall j | 0 <= j < |t'.rows| ensures Tracks(start[j], t'.log, t'.rows[j].widget, t'.rows[j].allowed) {
        assert Tracks(start[j], t.log, t.rows[j].widget, t.rows[j].allowed);
        if j == i {
          UpdateTracks(start[i], t.log, t.rows[i], u);
        } else {
          var s := Replay(start[j], t.log, t.rows[j].widget);
          ReplayIgnoresOthers(s, Events(t.rows[i], u), t.rows[j].widget);
          ReplayConcat(start[j], t.log, Events(t.rows[i], u), t.rows[j].widget);
        }
      }
    }
  }

  /** Over any run of successful updates the audit trail replays to the current origins of every widget,
      without a redundant row. */
  lemma {:induction false} RunTracks(start: seq<set<string>>, t: Tables, us: seq<Update>)
    requires IsTracked(start, t)
    ensures IsTracked(start, ApplyAll(t, us))
  {
    if us != [] {
      RunTracks(start, t, us[..|us| - 1]);
      ApplyTracks(start, ApplyAll(t, us[..|us| - 1]), us[|us| - 1]);
    }
  }

  /** Saving the origins that are stored already, in any order, writes no audit row. */
  lemma NoOpIsSilent(c: Config, u: Update)
    ensures Events(c, u) == [] <==> forall o :: o in u.request.allowed <==> o in c.allowed
  {
    var added, removed := Difference(u.request.allowed, c.allowed), Difference(c.allowed, u.request.allowed);
    if added != [] { assert added[0] in added; }
    if removed != [] { assert removed[0] in removed; }
  }

  // ---- Objects ----------------------------------------------------------------------------------

  class InMemoryWidgetRepository {
    /** The dictionary's values in insertion order. */
    var rows: seq<Config>

    constructor (rows: seq<Config>)
      ensures this.rows == rows
    {
      this.rows := rows;
    }

    method UpdateByTenantId(tenant: int, r: Request) returns (updated: Option<Config>)
      modifies this
      ensures rows == UpdatedRows(old(rows), tenant, r)
      ensures var i := FindTenant(old(rows), tenant);
        updated == if i == None then None else Some(Applied(old(rows)[i.value], r))
      ensures var i := FindTenant(old(rows), tenant);
        if i == None then rows == old(rows) && updated == None
        else IsOneUpdated(old(rows), i.value, r, rows) && updated == Some(rows[i.value])
    {
      var i := FindTenant(rows, tenant);
      if i == None { return None; }
      var row := Applied(rows[i.value], r);
      rows := rows[i.value := row];
      updated := Some(row);
    }
  }

  class AuditLogger {
    var log: seq<AuditRow>

    constructor ()
      ensures log == []
    {
      log := [];
    }

    /** The write raises when `fails`. */
    method AddAuditLog(row: AuditRow, fails: bool) returns (ok: bool)
      modifies this
      ensures ok == !fails && log == if fails then old(log) else old(log) + [row]
    {
      if !fails { log := log + [row]; }
      ok := !fails;
    }

    /** One write after the other until one raises; `first` is the number of writes before these. */
    method AddAll(rows: seq<AuditRow>, first: nat, fails: nat -> bool) returns (ok: bool, written: nat)
      modifies this
      ensures written <= |rows| && log == old(log) + rows[..written] && (forall k :: first <= k < first + written ==> !fails(k))
      ensures if ok then written == |rows| else written < |rows| && fails(first + written)
    {
      ok, written := true, 0;
      while written < |rows|
        invariant written <= |rows| && log == old(log) + rows[..written] && (forall k :: first <= k < first + written ==> !fails(k))
      {
        ok := AddAuditLog(rows[written], fails(first + written));
        if !ok { return; }
        assert rows[..written + 1] == rows[..written] + [rows[written]];
        written := written + 1;
      }
      ok := true;
    }

    /** Two batches, the second only if the first was written. */
    method AddBoth(a: seq<AuditRow>, b: seq<AuditRow>, fails: nat -> bool) returns (failed: Option<nat>)
      modifies this
      ensures failed == FirstFailure(|a + b|, fails)
      ensures log == old(log) + Prefix(a + b, failed)
    {
      var ok, written := AddAll(a, 0, fails);
      if !ok {
        FirstFailureIs(|a + b|, written, fails);
        PrefixOfConcat(a, b, written);
        return Some(written);
      }
      assert a[..|a|] == a;
      ok, written := AddAll(b, |a|, fails);
      PrefixOfConcat(a, b, |a| + written);
      if !ok {
        FirstFailureIs(|a + b|, |a| + written, fails);
        return Some(|a| + written);
      }
      FirstFailureIs(|a + b|, |a + b|, fails);
      failed := None;
    }
  }

  class WidgetConfigService {
    const repo: InMemoryWidgetRepository
    const auditLogger: AuditLogger

    constructor (repo: InMemoryWidgetRepository, auditLogger: AuditLogger)
      ensures this.repo == repo && this.auditLogger == auditLogger
    {
      this.repo, this.auditLogger := repo, auditLogger;
    }

    ghost function State(): Tables
      reads repo, auditLogger
    {
      Tables(repo.rows, auditLogger.log)
    }

    /** Apply an update and write its audit rows; the k-th write of this call raises when fails(k).  When
        one does, the row is put back as it was before the call. */
    method UpdateWidgetConfig(u: Update, fails: nat -> bool) returns (r: Outcome)
      modifies repo, auditLogger
      ensures r == NotFound <==> FindTenant(old(repo.rows), u.tenant) == None
      ensures r == NotFound ==> State() == old(State())
      ensures r.Updated? ==> State() == Apply(old(State()), u)
      ensures r.Updated? ==> r.config == Applied(old(repo.rows)[FindTenant(old(repo.rows), u.tenant).value], u.request)
      ensures r.Updated? ==> var i := FindTenant(old(repo.rows), u.tenant).value;
        IsOneUpdated(old(repo.rows), i, u.request, repo.rows) && r.config == repo.rows[i]
      ensures r != NotFound ==> FirstFailure(|Changes(old(repo.rows), u)|, fails) == if r.Updated? then None else Some(r.written)
      ensures r.AuditFailed? ==> State() == Tables(old(repo.rows), old(auditLogger.log) + Changes(old(repo.rows), u)[..r.written])
    {
      var found := FindTenant(repo.rows, u.tenant);
      if found == None { return NotFound; }
      var snapshot := repo.rows[found.value];
      RestoreUndoes(repo.rows, u.tenant, u.request);

      var updated := repo.UpdateByTenantId(u.tenant, u.request);
      var failed := WriteChanges(snapshot, u, fails);
      if failed.Some? {
        var restored := repo.UpdateByTenantId(u.tenant, RequestOf(snapshot));
        return AuditFailed(failed.value);
      }
      r := Updated(updated.value);
    }

    /** The audit rows of an update: first what is added, then what is removed. */
    method WriteChanges(snapshot: Config, u: Update, fails: nat -> bool) returns (failed: Option<nat>)
      modifies auditLogger
      ensures failed == FirstFailure(|Events(snapshot, u)|, fails)
      ensures auditLogger.log == old(auditLogger.log) + Prefix(Events(snapshot, u), failed)
    {
      var added, removed := Difference(u.request.allowed, snapshot.allowed), Difference(snapshot.allowed, u.request.allowed);
      failed := auditLogger.AddBoth(RowsFor(OriginAdded, added, u.tenant, u.actor, snapshot.widget),
                                    RowsFor(OriginRemoved, removed, u.tenant, u.actor, snapshot.widget), fails);
    }
  }

  // ---- From the submitted form to the issued token ----------------------------------------------

  datatype Verdict = UnknownWidget | WidgetDisabled | TenantNotActive | OriginNotAllowlisted | Issued

  /** The token endpoint's validation gates, in order. */
  function IssueVerdict(config: Option<Config>, origin: string, canon: Canon): Verdict {
    if config == None then UnknownWidget
    else if !config.value.enabled then WidgetDisabled
    else if !config.value.active then TenantNotActive
    else if !Admits(config.value.allowed, origin, canon) then OriginNotAllowlisted
    else Issued
  }

  /** The request validator: origins normalised, an enabled widget needs one, greetings are short. */
  method ValidateRequest(form: Request, canon: Canon) returns (r: Option<Request>)
    ensures r.Some? <==> AllValid(form.allowed, canon) && (form.enabled ==> form.allowed != [])
                         && (form.greeting.Some? ==> |form.greeting.value| <= 280)
    ensures r.Some? ==> r.value == form.(allowed := Stored(form.allowed, canon))
  {
    var saved := NormalizeOrigins(form.allowed, canon);
    if saved.Invalid? { return None; }
    StoredAre(form.allowed, canon);
    assert form.allowed == [] <==> saved.origins == [] by {
      if form.allowed == [] { assert Canonicals(form.allowed, canon) == []; } else { assert canon(form.allowed[0]).value in saved.origins; }
    }
    if form.enabled && saved.origins == [] { return None; }
    if form.greeting.Some? && |form.greeting.value| > 280 { return None; }
    r := Some(form.(allowed := saved.origins));
  }

  /** End to end: after a form is validated and saved, a token is issued for a request exactly when the form
      enabled the widget, the tenant is active, and the request's origin was submitted.  This holds for
      every request exactly if the widget stays shut anyway or every submitted origin is stable. */
  lemma IssuedIff(t: Tables, form: Request, u: Update, bracketsOk: BracketCheck)
    requires FindTenant(t.rows, u.tenant).Some?
    requires AllValid(form.allowed, CanonOf(bracketsOk))
    requires u.request == form.(allowed := Stored(form.allowed, CanonOf(bracketsOk)))
    ensures var row := Apply(t, u).rows[FindTenant(t.rows, u.tenant).value];
      (forall origin :: IssuesAsSubmitted(row, form, origin, CanonOf(bracketsOk)))
      <==> !(form.enabled && row.active) || AllStable(form.allowed, bracketsOk)
  {
    var canon := CanonOf(bracketsOk);
    var row := Apply(t, u).rows[FindTenant(t.rows, u.tenant).value];
    assert row.allowed == Stored(form.allowed, canon) && row.enabled == form.enabled;
    IssuesIffAgrees(row, form, canon);
    AgreementIff(form.allowed, bracketsOk);
  }

  ghost predicate IssuesAsSubmitted(row: Config, form: Request, origin: string, canon: Canon) {
    IssueVerdict(Some(row), origin, canon) == Issued <==> form.enabled && row.active && Admits(form.allowed, origin, canon)
  }

  lemma IssuesIffAgrees(row: Config, form: Request, canon: Canon)
    requires AllValid(form.allowed, canon) && row.allowed == Stored(form.allowed, canon) && row.enabled == form.enabled
    ensures (forall origin :: IssuesAsSubmitted(row, form, origin, canon)) <==> !(form.enabled && row.active) || Agrees(form.allowed, canon)
  {
    if form.enabled && row.active {
      forall origin
        ensures IssuesAsSubmitted(row, form, origin, canon)
           <==> (Admits(Stored(form.allowed, canon), origin, canon) <==> Admits(form.allowed, origin, canon))
      {}
      if forall origin :: IssuesAsSubmitted(row, form, origin, canon) {
        forall origin ensures Admits(Stored(form.allowed, canon), origin, canon) <==> Admits(form.allowed, origin, canon) {
          assert IssuesAsSubmitted(row, form, origin, canon);
        }
      }
    }
  }

  // ---- The two backends -------------------------------------------------------------------------

  /** The SQL columns are NOT NULL: an absent theme or greeting is stored as an empty one. */
  datatype SqlRow = SqlRow(id: int, tenant: int, widget: int, allowed: seq<string>, enabled: bool, theme: string, greeting: string)

  function ToSql(c: Config): SqlRow {
    SqlRow(c.id, c.tenant, c.widget, c.allowed, c.enabled,
           if c.theme.Some? then c.theme.value else "{}", if c.greeting.Some? then c.greeting.value else "")
  }

  function ToDomain(row: SqlRow, active: bool): Config {
    Config(row.id, row.tenant, row.widget, row.allowed, row.enabled, active,
           if row.theme == "{}" then None else Some(row.theme), if row.greeting == "" then None else Some(row.greeting))
  }

  /** The SQL backend returns what the in-memory one does, exactly unless an empty theme object or an
      empty greeting was saved: those come back as absent. */
  lemma BackendsAgreeIff(c: Config)
    ensures ToDomain(ToSql(c), c.active) == c <==> c.theme != Some("{}") && c.greeting != Some("")
  {
  }
}
