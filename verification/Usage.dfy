/** Usage accounting: the dashboard rollup and its totals. */
module Usage {

  datatype UnitType = Tokens | Other(name: string)

  /** A usage row; costs are whole micro-dollars and times are seconds. */
  datatype Row = Row(tenant: int, feature: string, unitType: UnitType, units: int, micros: int, createdAt: int)

  datatype FeatureUse = FeatureUse(tokens: int, micros: int)

  datatype DayCost = DayCost(day: int, micros: int)

  datatype Rollup = Rollup(totalTokens: int, totalMicros: int, byFeature: map<string, FeatureUse>, daily: seq<DayCost>)

  function TokensOf(r: Row): int { if r.unitType.Tokens? then r.units else 0 }

  function MicrosOf(r: Row): int { r.micros }

  function TenantOf(r: Row): int { r.tenant }

  function FeatureOf(r: Row): string { r.feature }

  function DayOf(r: Row): int { r.createdAt / 86400 }

  // ---- Queries ----------------------------------------------------------------------------------

  function Where(rows: seq<Row>, keep: Row -> bool): (r: seq<Row>)
    ensures forall row :: row in r <==> row in rows && keep(row)
  {
    if rows == [] then []
    else
      assert rows == [rows[0]] + rows[1..];
      (if keep(rows[0]) then [rows[0]] else []) + Where(rows[1..], keep)
  }

  /** coalesce(sum(measure), 0) */
  function Sum(rows: seq<Row>, measure: Row -> int): int {
    if rows == [] then 0 else measure(rows[0]) + Sum(rows[1..], measure)
  }

  function Has<K(==)>(key: Row -> K, k: K): Row -> bool { (r: Row) => key(r) == k }

  function Lacks<K(==)>(key: Row -> K, k: K): Row -> bool { (r: Row) => key(r) != k }

  /** The sum over one group of a GROUP BY. */
  function GroupSum<K(==)>(rows: seq<Row>, key: Row -> K, k: K, measure: Row -> int): int {
    Sum(Where(rows, Has(key, k)), measure)
  }

  /** The groups' sums added up. */
  function SumOfGroups<K(==)>(keys: seq<K>, rows: seq<Row>, key: Row -> K, measure: Row -> int): int {
    if keys == [] then 0 else GroupSum(rows, key, keys[0], measure) + SumOfGroups(keys[1..], rows, key, measure)
  }

  predicate IsDistinct<K(==)>(keys: seq<K>) {
    forall i, j :: 0 <= i < j < |keys| ==> keys[i] != keys[j]
  }

  /** The keys of a GROUP BY, in whatever order the database returns them. */
  ghost predicate AreKeys<K(!new)>(keys: seq<K>, rows: seq<Row>, key: Row -> K) {
    IsDistinct(keys) && forall k :: k in keys <==> HasKey(rows, key, k)
  }

  ghost predicate HasKey<K>(rows: seq<Row>, key: Row -> K, k: K) {
    exists r :: r in rows && key(r) == k
  }

  lemma {:induction false} SumSplits(rows: seq<Row>, keep: Row -> bool, drop: Row -> bool, measure: Row -> int)
    requires forall r :: keep(r) <==> !drop(r)
    ensures Sum(rows, measure) == Sum(Where(rows, keep), measure) + Sum(Where(rows, drop), measure)
  {
    if rows != [] {
      SumSplits(rows[1..], keep, drop, measure);
      var a, b := Where(rows[1..], keep), Where(rows[1..], drop);
      assert ([rows[0]] + a)[1..] == a && ([rows[0]] + b)[1..] == b;
      assert [] + a == a && [] + b == b;
    }
  }

  lemma {:induction false} GroupSumOfRest<K>(rows: seq<Row>, key: Row -> K, k: K, k0: K, measure: Row -> int)
    requires k != k0
    ensures GroupSum(Where(rows, Lacks(key, k0)), key, k, measure) == GroupSum(rows, key, k, measure)
  {
    forall r: Row ensures Has(key, k)(r) ==> Lacks(key, k0)(r) {}
    WhereWhere(rows, Lacks(key, k0), Has(key, k));
  }

  lemma {:induction false} WhereWhere(rows: seq<Row>, keep: Row -> bool, narrower: Row -> bool)
    requires forall r :: narrower(r) ==> keep(r)
    ensures Where(Where(rows, keep), narrower) == Where(rows, narrower)
  {
    if rows != [] {
      WhereWhere(rows[1..], keep, narrower);
      var a := Where(rows[1..], keep);
      assert ([rows[0]] + a)[1..] == a && [] + a == a;
    }
  }

  lemma {:induction false} SumOfGroupsOfRest<K>(keys: seq<K>, rows: seq<Row>, key: Row -> K, k0: K, measure: Row -> int)
    requires k0 !in keys
    ensures SumOfGroups(keys, Where(rows, Lacks(key, k0)), key, measure) == SumOfGroups(keys, rows, key, measure)
  {
    if keys != [] {
      GroupSumOfRest(rows, key, keys[0], k0, measure);
      SumOfGroupsOfRest(keys[1..], rows, key, k0, measure);
    }
  }

  /** Grouping loses nothing: for any key and any order of the groups, their sums add up to the total. */
  lemma {:induction false} GroupsConserve<K>(keys: seq<K>, rows: seq<Row>, key: Row -> K, measure: Row -> int)
    requires IsDistinct(keys) && forall r :: r in rows ==> key(r) in keys
    ensures SumOfGroups(keys, rows, key, measure) == Sum(rows, measure)
    decreases |keys|
  {
    assert rows != [] ==> rows[0] in rows;
    if keys != [] {
      var k0 := keys[0];
      var rest := Where(rows, Lacks(key, k0));
      SumSplits(rows, Has(key, k0), Lacks(key, k0), measure);
      forall r | r in rest ensures key(r) in keys[1..] { assert keys == [k0] + keys[1..]; }
      GroupsConserve(keys[1..], rest, key, measure);
      SumOfGroupsOfRest(keys[1..], rows, key, k0, measure);
    }
  }

  // ---- The rollup -------------------------------------------------------------------------------

  function InScope(tenant: int, since: int): Row -> bool {
    (r: Row) => r.tenant == tenant && r.createdAt >= since
  }

  function Scope(rows: seq<Row>, tenant: int, since: int): seq<Row> {
    Where(rows, InScope(tenant, since))
  }

  function OfTenant(rows: seq<Row>, tenant: int): seq<Row> {
    Where(rows, Has(TenantOf, tenant))
  }

  /** SELECT DISTINCT ... ORDER BY for days. */
  function Days(rows: seq<Row>): (days: seq<int>)
    ensures (forall i, j :: 0 <= i < j < |days| ==> days[i] < days[j]) && forall d :: d in days <==> HasKey(rows, DayOf, d)
  {
    if rows == [] then []
    else
      assert rows == [rows[0]] + rows[1..];
      assert forall d :: HasKey(rows, DayOf, d) <==> d == DayOf(rows[0]) || HasKey(rows[1..], DayOf, d) by {
        assert rows[0] in rows;
      }
      InsertDay(DayOf(rows[0]), Days(rows[1..]))
  }

  function InsertDay(d: int, days: seq<int>): (r: seq<int>)
    requires forall i, j :: 0 <= i < j < |days| ==> days[i] < days[j]
    ensures (forall i, j :: 0 <= i < j < |r| ==> r[i] < r[j]) && forall x :: x in r <==> x == d || x in days
  {
    if days == [] then [d]
    else if d < days[0] then [d] + days
    else
      assert days == [days[0]] + days[1..];
      if d == days[0] then days
      else
        var rest := InsertDay(d, days[1..]);
        assert forall i :: 0 <= i < |rest| ==> days[0] < rest[i] by {
          forall i | 0 <= i < |rest| ensures days[0] < rest[i] { assert rest[i] in rest; }
        }
        [days[0]] + rest
  }

  function DailyCosts(days: seq<int>, rows: seq<Row>): (r: seq<DayCost>)
    ensures |r| == |days|
    ensures forall i :: 0 <= i < |days| ==> r[i] == DayCost(days[i], GroupSum(rows, DayOf, days[i], MicrosOf))
  {
    seq(|days|, i requires 0 <= i < |days| => DayCost(days[i], GroupSum(rows, DayOf, days[i], MicrosOf)))
  }

  function SumOfDays(daily: seq<DayCost>): int {
    if daily == [] then 0 else daily[0].micros + SumOfDays(daily[1..])
  }

  /** The rollup of one tenant since a time; `features` are the groups in the order the query returns them. */
  method UsageRollup(rows: seq<Row>, tenant: int, since: int, features: seq<string>) returns (r: Rollup)
    requires AreKeys(features, Scope(rows, tenant, since), FeatureOf)
    ensures r.totalTokens == Sum(Scope(rows, tenant, since), TokensOf)
    ensures r.totalMicros == Sum(Scope(rows, tenant, since), MicrosOf)
    ensures IsBreakdown(r, rows, tenant, since, features)
    ensures r.totalTokens == SumOfFeatures(features, r.byFeature, TokensIn)
    ensures r.totalMicros == SumOfFeatures(features, r.byFeature, MicrosIn) == SumOfDays(r.daily)
    ensures forall i, j :: 0 <= i < j < |r.daily| ==> r.daily[i].day < r.daily[j].day
  {
    var scope := Scope(rows, tenant, since);
    var byFeature: map<string, FeatureUse> := map[];
    for k := 0 to |features|
      invariant forall f :: f in byFeature <==> f in features[..k]
      invariant forall f :: f in byFeature ==> byFeature[f] == UseOf(scope, f)
    {
      byFeature := byFeature[features[k] := UseOf(scope, features[k])];
    }
    assert features[..|features|] == features;
    var days := Days(scope);
    r := Rollup(Sum(scope, TokensOf), Sum(scope, MicrosOf), byFeature, DailyCosts(days, scope));
    RollupConserves(scope, features, byFeature, days);
  }

  function UseOf(scope: seq<Row>, f: string): FeatureUse {
    FeatureUse(GroupSum(scope, FeatureOf, f, TokensOf), GroupSum(scope, FeatureOf, f, MicrosOf))
  }

  ghost predicate IsBreakdown(r: Rollup, rows: seq<Row>, tenant: int, since: int, features: seq<string>) {
    && (forall f :: f in r.byFeature <==> f in features)
    && (forall f :: f in r.byFeature ==> r.byFeature[f] == UseOf(Scope(rows, tenant, since), f))
    && r.daily == DailyCosts(Days(Scope(rows, tenant, since)), Scope(rows, tenant, since))
  }

  function TokensIn(u: FeatureUse): int { u.tokens }

  function MicrosIn(u: FeatureUse): int { u.micros }

  function SumOfFeatures(features: seq<string>, byFeature: map<string, FeatureUse>, measure: FeatureUse -> int): int
    requires forall f :: f in features ==> f in byFeature
  {
    if features == [] then 0 else measure(byFeature[features[0]]) + SumOfFeatures(features[1..], byFeature, measure)
  }

  lemma {:induction false} FeaturesAreGroups(features: seq<string>, byFeature: map<string, FeatureUse>, scope: seq<Row>)
    requires forall f :: f in features ==> f in byFeature && byFeature[f] == UseOf(scope, f)
    ensures SumOfFeatures(features, byFeature, TokensIn) == SumOfGroups(features, scope, FeatureOf, TokensOf)
    ensures SumOfFeatures(features, byFeature, MicrosIn) == SumOfGroups(features, scope, FeatureOf, MicrosOf)
  {
    if features != [] { FeaturesAreGroups(features[1..], byFeature, scope); }
  }

  lemma {:induction false} DaysAreGroups(days: seq<int>, scope: seq<Row>)
    ensures SumOfDays(DailyCosts(days, scope)) == SumOfGroups(days, scope, DayOf, MicrosOf)
  {
    if days != [] {
      DaysAreGroups(days[1..], scope);
      assert DailyCosts(days, scope)[1..] == DailyCosts(days[1..], scope);
    }
  }

  /** Totals, features and days agree. */
  lemma RollupConserves(scope: seq<Row>, features: seq<string>, byFeature: map<string, FeatureUse>, days: seq<int>)
    requires AreKeys(features, scope, FeatureOf) && days == Days(scope)
    requires forall f :: f in features ==> f in byFeature && byFeature[f] == UseOf(scope, f)
    ensures SumOfFeatures(features, byFeature, TokensIn) == Sum(scope, TokensOf)
    ensures SumOfFeatures(features, byFeature, MicrosIn) == Sum(scope, MicrosOf) == SumOfDays(DailyCosts(days, scope))
  {
    FeaturesAreGroups(features, byFeature, scope);
    DaysAreGroups(days, scope);
    forall r | r in scope ensures FeatureOf(r) in features && DayOf(r) in days {
      assert HasKey(scope, FeatureOf, FeatureOf(r)) && HasKey(scope, DayOf, DayOf(r));
    }
    GroupsConserve(features, scope, FeatureOf, TokensOf);
    GroupsConserve(features, scope, FeatureOf, MicrosOf);
    GroupsConserve(days, scope, DayOf, MicrosOf);
  }

  /** Rows of other tenants never matter: the rollup reads the same rows whatever they are. */
  lemma {:induction false} OtherTenantsAreIrrelevant(rows: seq<Row>, rows': seq<Row>, tenant: int, since: int)
    requires OfTenant(rows, tenant) == OfTenant(rows', tenant)
    ensures Scope(rows, tenant, since) == Scope(rows', tenant, since)
  {
    forall r: Row ensures InScope(tenant, since)(r) ==> Has(TenantOf, tenant)(r) {
      assert InScope(tenant, since)(r) ==> TenantOf(r) == tenant;
    }
    WhereWhere(rows, Has(TenantOf, tenant), InScope(tenant, since));
    WhereWhere(rows', Has(TenantOf, tenant), InScope(tenant, since));
  }

  // ---- What one row contributes -----------------------------------------------------------------

  lemma {:induction false} WhereAppend(rows: seq<Row>, r: Row, keep: Row -> bool)
    ensures Where(rows + [r], keep) == Where(rows, keep) + (if keep(r) then [r] else [])
  {
    if rows == [] {
      assert [] + [r] == [r] && [r][1..] == [];
    } else {
      WhereAppend(rows[1..], r, keep);
      var first, last := if keep(rows[0]) then [rows[0]] else [], if keep(r) then [r] else [];
      assert (rows + [r])[0] == rows[0] && (rows + [r])[1..] == rows[1..] + [r];
      assert first + (Where(rows[1..], keep) + last) == (first + Where(rows[1..], keep)) + last;
    }
  }

  lemma {:induction false} SumAppend(rows: seq<Row>, r: Row, measure: Row -> int)
    ensures Sum(rows + [r], measure) == Sum(rows, measure) + measure(r)
  {
    if rows == [] {
      assert [] + [r] == [r] && [r][1..] == [];
    } else {
      SumAppend(rows[1..], r, measure);
      assert (rows + [r])[1..] == rows[1..] + [r];
    }
  }

  lemma GroupAppend<K>(scope: seq<Row>, r: Row, key: Row -> K, k: K, measure: Row -> int)
    ensures GroupSum(scope + [r], key, k, measure) == GroupSum(scope, key, k, measure) + (if key(r) == k then measure(r) else 0)
  {
    WhereAppend(scope, r, Has(key, k));
    SumAppend(Where(scope, Has(key, k)), r, measure);
    assert Where(scope, Has(key, k)) + [] == Where(scope, Has(key, k));
  }

  /** The row is the tenant's and not older than `since`. */
  predicate IsCounted(r: Row, tenant: int, since: int) {
    r.tenant == tenant && since <= r.createdAt
  }

  /** What one more row adds to totals, features and days: a row outside the scope nothing, a row of another
      unit type its cost and no tokens, and each only to its own feature and day. */
  lemma OneMoreRow(rows: seq<Row>, r: Row, tenant: int, since: int, feature: string, day: int)
    ensures var before, after := Scope(rows, tenant, since), Scope(rows + [r], tenant, since);
      var counted := IsCounted(r, tenant, since);
      var tokens, micros := if counted && r.unitType == Tokens then r.units else 0, if counted then r.micros else 0;
      var inDay := 86400 * day <= r.createdAt < 86400 * (day + 1);
      && Sum(after, TokensOf) == Sum(before, TokensOf) + tokens
      && Sum(after, MicrosOf) == Sum(before, MicrosOf) + micros
      && UseOf(after, feature).tokens == UseOf(before, feature).tokens + (if r.feature == feature then tokens else 0)
      && UseOf(after, feature).micros == UseOf(before, feature).micros + (if r.feature == feature then micros else 0)
      && GroupSum(after, DayOf, day, MicrosOf) == GroupSum(before, DayOf, day, MicrosOf) + (if inDay then micros else 0)
  {
    var before := Scope(rows, tenant, since);
    WhereAppend(rows, r, InScope(tenant, since));
    assert before + [] == before;
    SumAppend(before, r, TokensOf);
    SumAppend(before, r, MicrosOf);
    GroupAppend(before, r, FeatureOf, feature, TokensOf);
    GroupAppend(before, r, FeatureOf, feature, MicrosOf);
    GroupAppend(before, r, DayOf, day, MicrosOf);
  }

  /** Without rows there is nothing to count. */
  lemma NoRows(tenant: int, since: int, measure: Row -> int)
    ensures Sum(Scope([], tenant, since), measure) == 0
  {}
}
