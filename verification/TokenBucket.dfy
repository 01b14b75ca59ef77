/** The token bucket of the widget token endpoint, and the all-windows meter it implements.

    A bucket keeps two numbers.  The guarantee it is for speaks about a whole history: in every
    window that ends now, no more requests were admitted than `capacity + refill * length`.
    The meter below reads the history only; the classes never do. */
module TokenBuckets {

  datatype Check = Check(time: real, admitted: bool)

  /** Requests admitted among the first k checks. */
  function Admitted(h: seq<Check>, k: nat): (n: nat)
    requires k <= |h|
    ensures n <= k
  {
    if k == 0 then 0 else Admitted(h, k - 1) + (if h[k - 1].admitted then 1 else 0)
  }

  /** What a window opened at time `from` allows up to time `to`. */
  function Allowance(capacity: int, refill: real, from: real, to: real): real {
    capacity as real + (refill * to - refill * from)
  }

  /** After the first k checks, one more admission at time t would overdraw the window that opens
      at check j. */
  ghost predicate Overdraws(capacity: int, refill: real, h: seq<Check>, j: nat, k: nat, t: real)
    requires j < k <= |h|
  {
    (Admitted(h, k) - Admitted(h, j) + 1) as real > Allowance(capacity, refill, h[j].time, t)
  }

  /** The meter after the first k checks: refuse at time t iff some window, down to the one that
      holds this check alone, would be overdrawn. */
  ghost predicate MeterRefuses(capacity: int, refill: real, h: seq<Check>, k: nat, t: real)
    requires k <= |h|
  {
    capacity < 1 || exists j: nat :: j < k && Overdraws(capacity, refill, h, j, k, t)
  }

  ghost predicate Decided(capacity: int, refill: real, h: seq<Check>, k: nat)
    requires k < |h|
  {
    h[k].admitted <==> !MeterRefuses(capacity, refill, h, k, h[k].time)
  }

  /** Every decision in h is the meter's. */
  ghost predicate Metered(capacity: int, refill: real, h: seq<Check>) {
    forall k: nat :: k < |h| ==> Decided(capacity, refill, h, k)
  }

  ghost predicate TimeOrdered(h: seq<Check>) {
    forall i, j :: 0 <= i <= j < |h| ==> h[i].time <= h[j].time
  }

  lemma {:induction false} AdmittedPrefix(h: seq<Check>, g: seq<Check>, k: nat)
    requires k <= |h| && k <= |g| && h[..k] == g[..k]
    ensures Admitted(h, k) == Admitted(g, k)
  {
    if k > 0 {
      assert h[k - 1] == h[..k][k - 1] == g[..k][k - 1] == g[k - 1];
      assert h[..k - 1] == h[..k][..k - 1] == g[..k][..k - 1] == g[..k - 1];
      AdmittedPrefix(h, g, k - 1);
    }
  }

  lemma {:induction false} AdmittedMonotone(h: seq<Check>, j: nat, k: nat)
    requires j <= k <= |h|
    ensures Admitted(h, j) <= Admitted(h, k)
  {
    if j < k { AdmittedMonotone(h, j, k - 1); }
  }

  // ---- The bucket's two numbers against the history -------------------------------------------

  /** What window j still allows at time t. */
  function Slack(capacity: int, refill: real, h: seq<Check>, j: nat, t: real): real
    requires j < |h|
  {
    Allowance(capacity, refill, h[j].time, t) - (Admitted(h, |h|) - Admitted(h, j)) as real
  }

  /** x is no more than any window still allows at time t ... */
  ghost predicate WithinSlack(x: real, capacity: int, refill: real, h: seq<Check>, t: real) {
    forall j: nat :: j < |h| ==> x <= Slack(capacity, refill, h, j, t)
  }

  /** ... and is all that one of them allows. */
  ghost predicate ReachesSlack(x: real, capacity: int, refill: real, h: seq<Check>, t: real) {
    exists j: nat :: j < |h| && x == Slack(capacity, refill, h, j, t)
  }

  lemma SlackLater(capacity: int, refill: real, h: seq<Check>, j: nat, t: real, t': real, gain: real)
    requires j < |h| && gain == (t' - t) * refill
    ensures Slack(capacity, refill, h, j, t') == Slack(capacity, refill, h, j, t) + gain
  {
    assert refill * (t' - h[j].time) == refill * (t - h[j].time) + refill * (t' - t);
  }

  /** Refilling and comparing with 1 is the meter's decision, for every capacity and refill. */
  lemma RefillDecides(tokens: real, gain: real, capacity: int, refill: real, h: seq<Check>, last: real, now: real, filled: real)
    requires WithinSlack(tokens, capacity, refill, h, last) && ReachesSlack(tokens, capacity, refill, h, last)
    requires gain == (now - last) * refill
    requires filled == if capacity as real <= tokens + gain then capacity as real else tokens + gain
    ensures filled >= 1.0 <==> !MeterRefuses(capacity, refill, h, |h|, now)
    ensures WithinSlack(filled, capacity, refill, h, now)
    ensures filled == capacity as real || ReachesSlack(filled, capacity, refill, h, now)
  {
    forall j: nat | j < |h|
      ensures Slack(capacity, refill, h, j, now) == Slack(capacity, refill, h, j, last) + gain
      ensures Overdraws(capacity, refill, h, j, |h|, now) <==> Slack(capacity, refill, h, j, now) < 1.0
    {
      SlackLater(capacity, refill, h, j, last, now, gain);
    }
    var j: nat :| j < |h| && tokens == Slack(capacity, refill, h, j, last);
    assert tokens + gain == Slack(capacity, refill, h, j, now);
    if filled < 1.0 && capacity >= 1 { assert Overdraws(capacity, refill, h, j, |h|, now); }
  }

  /** Taking the token keeps the level for the extended history. */
  lemma LevelAfter(filled: real, tokens: real, capacity: int, refill: real, h: seq<Check>, e: Check)
    requires WithinSlack(filled, capacity, refill, h, e.time) && filled <= capacity as real
    requires filled == capacity as real || ReachesSlack(filled, capacity, refill, h, e.time)
    requires tokens == filled - (if e.admitted then 1.0 else 0.0)
    ensures WithinSlack(tokens, capacity, refill, h + [e], e.time)
    ensures ReachesSlack(tokens, capacity, refill, h + [e], e.time)
  {
    var g := h + [e];
    AdmittedPrefix(h, g, |h|);
    assert refill * (e.time - e.time) == 0.0;
    assert Slack(capacity, refill, g, |h|, e.time) == capacity as real - (if e.admitted then 1.0 else 0.0);
    forall j: nat | j < |h|
      ensures Slack(capacity, refill, g, j, e.time)
           == Slack(capacity, refill, h, j, e.time) - (if e.admitted then 1.0 else 0.0)
    {
      AdmittedPrefix(h, g, j);
    }
  }

  // ---- What the meter means over whole histories ------------------------------------------------

  /** With a non-negative refill the creation of the bucket opens no window of its own. */
  lemma CreationIsSilent(capacity: int, refill: real, created: real, h: seq<Check>, t: real)
    requires refill >= 0.0 && created <= t
    requires |h| > 0 ==> created <= h[0].time
    ensures MeterRefuses(capacity, refill, [Check(created, false)] + h, |h| + 1, t)
       <==> MeterRefuses(capacity, refill, h, |h|, t)
  {
    var g := [Check(created, false)] + h;
    forall k: nat | k <= |h| ensures Admitted(g, k + 1) == Admitted(h, k) { AdmittedShift(created, h, k); }
    if j: nat :| j < |h| && Overdraws(capacity, refill, h, j, |h|, t) {
      assert Overdraws(capacity, refill, g, j + 1, |g|, t);
    }
    if j: nat :| j < |g| && Overdraws(capacity, refill, g, j, |g|, t) {
      if j > 0 {
        assert Overdraws(capacity, refill, h, j - 1, |h|, t);
      } else {
        assert Admitted(g, |g|) == Admitted(h, |h|);
        AllowanceGrows(capacity, refill, if |h| > 0 then h[0].time else t, t, created, t);
        assert |h| > 0 ==> Overdraws(capacity, refill, h, 0, |h|, t);
      }
    }
  }

  lemma {:induction false} AdmittedShift(created: real, h: seq<Check>, k: nat)
    requires k <= |h|
    ensures Admitted([Check(created, false)] + h, k + 1) == Admitted(h, k)
  {
    if k > 0 { AdmittedShift(created, h, k - 1); }
  }

  /** A longer window allows no less. */
  lemma AllowanceGrows(capacity: int, refill: real, from: real, to: real, from': real, to': real)
    requires refill >= 0.0 && from' <= from && to <= to'
    ensures Allowance(capacity, refill, from, to) <= Allowance(capacity, refill, from', to')
  {
    assert refill * (to' - to) >= 0.0 && refill * (from - from') >= 0.0;
  }

  lemma MeterPrefix(capacity: int, refill: real, h: seq<Check>, g: seq<Check>, k: nat, t: real)
    requires k <= |h| && k <= |g| && h[..k] == g[..k]
    ensures MeterRefuses(capacity, refill, h, k, t) <==> MeterRefuses(capacity, refill, g, k, t)
  {
    forall j: nat | j <= k ensures Admitted(h, j) == Admitted(g, j) {
      assert h[..j] == h[..k][..j] == g[..j];
      AdmittedPrefix(h, g, j);
    }
    forall j: nat | j < k
      ensures Overdraws(capacity, refill, h, j, k, t) <==> Overdraws(capacity, refill, g, j, k, t)
    {
      assert h[j] == h[..k][j] == g[j];
    }
  }

  lemma MeteredAppend(capacity: int, refill: real, h: seq<Check>, e: Check)
    requires Metered(capacity, refill, h)
    requires e.admitted <==> !MeterRefuses(capacity, refill, h, |h|, e.time)
    ensures Metered(capacity, refill, h + [e])
  {
    var g := h + [e];
    forall k: nat | k < |g|
      ensures Decided(capacity, refill, g, k)
    {
      assert k < |h| ==> Decided(capacity, refill, h, k);
      assert g[..k] == h[..k];
      MeterPrefix(capacity, refill, h, g, k, g[k].time);
    }
  }

  /** No window of checks i..j ever admits more than capacity + refill * length. */
  lemma {:induction false} EveryWindowIsBounded(capacity: nat, refill: real, h: seq<Check>, i: nat, j: nat)
    requires refill >= 0.0 && Metered(capacity, refill, h) && TimeOrdered(h)
    requires i <= j < |h|
    ensures (Admitted(h, j + 1) - Admitted(h, i)) as real <= Allowance(capacity, refill, h[i].time, h[j].time)
  {
    assert Decided(capacity, refill, h, j);
    if i == j {
    } else if h[j].admitted {
      assert !Overdraws(capacity, refill, h, i, j, h[j].time);
    } else {
      EveryWindowIsBounded(capacity, refill, h, i, j - 1);
      AllowanceGrows(capacity, refill, h[i].time, h[j - 1].time, h[i].time, h[j].time);
      assert Admitted(h, j + 1) == Admitted(h, j);
    }
  }

  /** Under the shipped factories (capacity n, refill n / 60) no minute admits more than 2n. */
  lemma AtMostTwiceTheRatePerMinute(perMinute: nat, refill: real, h: seq<Check>, i: nat, j: nat)
    requires refill == perMinute as real / 60.0
    requires Metered(perMinute, refill, h) && TimeOrdered(h)
    requires i <= j < |h| && h[j].time - h[i].time <= 60.0
    ensures Admitted(h, j + 1) - Admitted(h, i) <= 2 * perMinute
  {
    EveryWindowIsBounded(perMinute, refill, h, i, j);
    AllowanceOfMinute(perMinute, refill, h[i].time, h[j].time);
  }

  lemma AllowanceOfMinute(perMinute: nat, refill: real, from: real, to: real)
    requires refill == perMinute as real / 60.0 && to - from <= 60.0
    ensures Allowance(perMinute, refill, from, to) <= (2 * perMinute) as real
  {
    AllowanceGrows(perMinute, refill, from, to, from, from + 60.0);
    assert refill * (from + 60.0) == refill * from + refill * 60.0;
    assert refill * 60.0 == perMinute as real;
  }

  /** A policy that keeps every window within its allowance. */
  ghost predicate KeepsEveryWindow(capacity: int, refill: real, h: seq<Check>) {
    forall i: nat, j: nat :: i <= j < |h| && h[j].admitted ==> Keeps(capacity, refill, h, i, j)
  }

  ghost predicate Keeps(capacity: int, refill: real, h: seq<Check>, i: nat, j: nat)
    requires i <= j < |h|
  {
    (Admitted(h, j + 1) - Admitted(h, i)) as real <= Allowance(capacity, refill, h[i].time, h[j].time)
  }

  /** The bucket is the most generous such policy: on the same arrivals, no policy that keeps every
      window has admitted more at any point. */
  lemma {:induction false} NoPolicyAdmitsMore(capacity: int, refill: real, h: seq<Check>, other: seq<Check>, k: nat)
    requires |h| == |other| && (forall i :: 0 <= i < |h| ==> h[i].time == other[i].time)
    requires Metered(capacity, refill, h) && KeepsEveryWindow(capacity, refill, other)
    requires k <= |h|
    ensures Admitted(other, k) <= Admitted(h, k)
  {
    if k > 0 {
      NoPolicyAdmitsMore(capacity, refill, h, other, k - 1);
      if other[k - 1].admitted && !h[k - 1].admitted {
        assert Decided(capacity, refill, h, k - 1);
        assert Keeps(capacity, refill, other, k - 1, k - 1);
        var j: nat :| j < k - 1 && Overdraws(capacity, refill, h, j, k - 1, h[k - 1].time);
        assert Keeps(capacity, refill, other, j, k - 1);
        NoPolicyAdmitsMore(capacity, refill, h, other, j);
      }
    }
  }

  // ---- The bucket and the limiter ---------------------------------------------------------------

  /** In time order and, with a non-negative refill, decided by the meter. */
  ghost predicate HistoryMetered(capacity: int, refill: real, created: real, h: seq<Check>, last: real) {
    && TimeOrdered(h)
    && (if |h| > 0 then created <= h[0].time && h[|h| - 1].time == last else created == last)
    && (refill >= 0.0 ==> Metered(capacity, refill, h))
  }

  /** What the two numbers of a bucket mean: `tokens` is what the tightest window, the one that opens
      at the creation included, still allows at `last`. */
  ghost predicate IsLevel(capacity: int, refill: real, created: real, h: seq<Check>, tokens: real, last: real) {
    var g := [Check(created, false)] + h;
    WithinSlack(tokens, capacity, refill, g, last) && ReachesSlack(tokens, capacity, refill, g, last)
  }

  lemma NewLevel(capacity: int, refill: real, created: real)
    ensures IsLevel(capacity, refill, created, [], capacity as real, created)
    ensures HistoryMetered(capacity, refill, created, [], created)
  {
    var g := [Check(created, false)];
    assert g + [] == g;
    assert capacity as real == Slack(capacity, refill, g, 0, created);
  }

  /** One step of the bucket: refill up to the capacity, then take one token if there is one. */
  lemma ConsumeStep(capacity: int, refill: real, created: real, h: seq<Check>, tokens: real, last: real,
                    gain: real, filled: real, e: Check)
    requires IsLevel(capacity, refill, created, h, tokens, last)
    requires HistoryMetered(capacity, refill, created, h, last) && last <= e.time
    requires gain == (e.time - last) * refill
    requires filled == if capacity as real <= tokens + gain then capacity as real else tokens + gain
    requires e.admitted <==> filled >= 1.0
    ensures IsLevel(capacity, refill, created, h + [e], if e.admitted then filled - 1.0 else filled, e.time)
    ensures HistoryMetered(capacity, refill, created, h + [e], e.time)
    ensures refill >= 0.0 ==> (e.admitted <==> !MeterRefuses(capacity, refill, h, |h|, e.time))
  {
    var g := [Check(created, false)] + h;
    RefillDecides(tokens, gain, capacity, refill, g, last, e.time, filled);
    LevelAfter(filled, if e.admitted then filled - 1.0 else filled, capacity, refill, g, e);
    assert g + [e] == [Check(created, false)] + (h + [e]);
    if |h| > 0 { assert h[0].time <= h[|h| - 1].time; }
    if refill >= 0.0 {
      CreationIsSilent(capacity, refill, created, h, e.time);
      MeteredAppend(capacity, refill, h, e);
    }
  }

  class TokenBucket {
    const capacity: int
    const refillPerSecond: real
    var tokens: real
    var lastRefill: real
    ghost const created: real
    ghost var history: seq<Check>

    ghost predicate Valid()
      reads this
    {
      && IsLevel(capacity, refillPerSecond, created, history, tokens, lastRefill)
      && HistoryMetered(capacity, refillPerSecond, created, history, lastRefill)
    }

    constructor (capacity: int, refillPerSecond: real, now: real)
      ensures Valid() && history == [] && lastRefill == now
      ensures this.capacity == capacity && this.refillPerSecond == refillPerSecond
    {
      this.capacity := capacity;
      this.refillPerSecond := refillPerSecond;
      tokens := capacity as real;
      lastRefill := now;
      created := now;
      history := [];
      NewLevel(capacity, refillPerSecond, now);
    }

    /** Exactly the meter on the bucket's history. */
    method TryConsume(now: real) returns (allowed: bool)
      requires Valid() && lastRefill <= now
      modifies this
      ensures Valid() && lastRefill == now
      ensures history == old(history) + [Check(now, allowed)]
      ensures refillPerSecond >= 0.0 ==>
        (allowed <==> !MeterRefuses(capacity, refillPerSecond, old(history), |old(history)|, now))
    {
      ghost var before, last := tokens, lastRefill;
      var elapsed := now - lastRefill;
      var gain := elapsed * refillPerSecond;
      var more := tokens + gain;
      tokens := if capacity as real <= more then capacity as real else more;
      lastRefill := now;
      ghost var filled := tokens;
      allowed := tokens >= 1.0;
      if allowed {
        tokens := tokens - 1.0;
      }
      ConsumeStep(capacity, refillPerSecond, created, history, before, last, gain, filled, Check(now, allowed));
      history := history + [Check(now, allowed)];
    }
  }

  class InMemoryTokenBucketRateLimiter {
    const capacity: int
    const refill: real
    var buckets: map<string, TokenBucket>

    ghost predicate Valid()
      reads this, buckets.Values
    {
      && (forall k, m :: k in buckets && m in buckets && k != m ==> buckets[k] != buckets[m])
      && (forall k :: k in buckets ==> Holds(buckets[k]))
    }

    ghost predicate Holds(b: TokenBucket)
      reads b
    {
      b.Valid() && b.capacity == capacity && b.refillPerSecond == refill
    }

    /** The checks made so far on one key. */
    ghost function History(key: string): seq<Check>
      reads this, buckets.Values
    {
      if key in buckets then buckets[key].history else []
    }

    constructor (capacity: int, refill: real)
      ensures Valid() && buckets == map[] && this.capacity == capacity && this.refill == refill
    {
      this.capacity := capacity;
      this.refill := refill;
      buckets := map[];
    }

    /** The bucket of a key, made full on first use. */
    method BucketFor(key: string, created: real) returns (bucket: TokenBucket)
      requires Valid()
      modifies this
      ensures Valid() && key in buckets && bucket == buckets[key] && buckets == old(buckets)[key := bucket]
      ensures key in old(buckets) ==> bucket == old(buckets[key])
      ensures key !in old(buckets) ==> fresh(bucket) && bucket.history == [] && bucket.lastRefill == created
    {
      if key !in buckets {
        var newborn := new TokenBucket(capacity, refill, created);
        buckets := buckets[key := newborn];
      }
      bucket := buckets[key];
    }

    /** A check is decided by the meter on this key's own history, whatever other keys did, and
        leaves the bucket of every other key alone.  The two clock readings do not run backwards. */
    method CheckKey(key: string, created: real, now: real) returns (allowed: bool)
      requires Valid() && created <= now && (key in buckets ==> buckets[key].lastRefill <= now)
      modifies this, buckets.Values
      ensures Valid() && key in buckets && buckets == old(buckets)[key := buckets[key]]
      ensures key in old(buckets) ==> buckets[key] == old(buckets[key])
      ensures key !in old(buckets) ==> fresh(buckets[key])
      ensures forall k :: k in old(buckets) && k != key ==> unchanged(old(buckets[k]))
      ensures buckets[key].lastRefill == now
      ensures buckets[key].history == old(History(key)) + [Check(now, allowed)]
      ensures refill >= 0.0 ==> var h := old(History(key));
        (allowed <==> !MeterRefuses(capacity, refill, h, |h|, now))
    {
      var bucket := BucketFor(key, created);
      allowed := bucket.TryConsume(now);
    }
  }

  /** The factories of the token endpoint: n per minute, refilled at n / 60 per second. */
  method PerMinuteLimiter(perMinute: int) returns (limiter: InMemoryTokenBucketRateLimiter)
    ensures fresh(limiter) && limiter.Valid() && limiter.buckets == map[]
    ensures limiter.capacity == perMinute && limiter.refill == perMinute as real / 60.0
  {
    limiter := new InMemoryTokenBucketRateLimiter(perMinute, perMinute as real / 60.0);
  }
}
