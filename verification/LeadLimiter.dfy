/** The per-session write guard of `capture_lead`: a fixed-window counter that is restarted lazily.

    The windows are stated on the history of attempts alone; the classes keep two numbers. */
module LeadLimiter {
  import opened Wrappers
  import Text

  datatype Attempt = Attempt(time: real, cap: int, accepted: bool)

  // ---- Windows of a history ---------------------------------------------------------------------

  /** Attempt k opens a new window: it is the first, or the running window is at least w old. */
  predicate Opens(w: real, h: seq<Attempt>, k: nat)
    requires k < |h|
    decreases k, 1
  {
    k == 0 || h[k].time - WindowStart(w, h, k) >= w
  }

  /** When the window that holds attempt k - 1 was opened. */
  function WindowStart(w: real, h: seq<Attempt>, k: nat): real
    requires 0 < k <= |h|
    decreases k, 0
  {
    if Opens(w, h, k - 1) then h[k - 1].time else WindowStart(w, h, k - 1)
  }

  /** Attempts accepted in the window that is running when attempt k arrives. */
  function Before(w: real, h: seq<Attempt>, k: nat): nat
    requires k < |h|
    decreases k, 1
  {
    if Opens(w, h, k) then 0 else Used(w, h, k)
  }

  /** Attempts accepted, among the first k, in the window that holds attempt k - 1. */
  function Used(w: real, h: seq<Attempt>, k: nat): nat
    requires k <= |h|
    decreases k, 0
  {
    if k == 0 then 0 else Before(w, h, k - 1) + (if h[k - 1].accepted then 1 else 0)
  }

  ghost predicate Decided(w: real, h: seq<Attempt>, k: nat)
    requires k < |h|
  {
    h[k].accepted <==> Before(w, h, k) < h[k].cap
  }

  /** A possible history of one session: time does not run back and every decision compares the
      window's count with the cap supplied at that attempt. */
  ghost predicate Legal(w: real, h: seq<Attempt>) {
    && (forall k: nat :: k < |h| ==> Decided(w, h, k))
    && (forall i, j :: 0 <= i <= j < |h| ==> h[i].time <= h[j].time)
  }

  function Accepted(h: seq<Attempt>, k: nat): nat
    requires k <= |h|
  {
    if k == 0 then 0 else Accepted(h, k - 1) + (if h[k - 1].accepted then 1 else 0)
  }

  ghost predicate CapsWithin(h: seq<Attempt>, i: nat, j: nat, cap: int)
    requires i <= j < |h|
  {
    forall k :: i <= k <= j ==> h[k].cap <= cap
  }

  ghost predicate OneWindow(w: real, h: seq<Attempt>, i: nat, j: nat)
    requires i <= j < |h|
  {
    forall k: nat :: i < k <= j ==> !Opens(w, h, k)
  }

  lemma {:induction false} CountOfWindow(w: real, h: seq<Attempt>, i: nat, j: nat)
    requires i <= j < |h| && OneWindow(w, h, i, j)
    ensures Used(w, h, j + 1) == Before(w, h, i) + Accepted(h, j + 1) - Accepted(h, i)
  {
    if i < j {
      CountOfWindow(w, h, i, j - 1);
      assert !Opens(w, h, j);
    }
  }

  /** A window never accepts more than the largest cap supplied in it. */
  lemma {:induction false} WindowIsCapped(w: real, h: seq<Attempt>, i: nat, j: nat, cap: nat)
    requires Legal(w, h) && i <= j < |h| && OneWindow(w, h, i, j) && CapsWithin(h, i, j, cap)
    ensures Accepted(h, j + 1) - Accepted(h, i) <= cap
    ensures Accepted(h, j + 1) > Accepted(h, i) ==> Before(w, h, i) + Accepted(h, j + 1) - Accepted(h, i) <= cap
  {
    if h[j].accepted {
      CountOfWindow(w, h, i, j);
      assert Decided(w, h, j);
    } else if i < j {
      WindowIsCapped(w, h, i, j - 1, cap);
    }
  }

  lemma {:induction false} StartIsLater(w: real, h: seq<Attempt>, k: nat, m: nat)
    requires Legal(w, h) && k < m <= |h| && Opens(w, h, k)
    ensures WindowStart(w, h, m) >= h[k].time
  {
    if k + 1 < m { StartIsLater(w, h, k, m - 1); }
  }

  /** Window starts are at least w apart. */
  lemma StartsAreApart(w: real, h: seq<Attempt>, k: nat, m: nat)
    requires Legal(w, h) && k < m < |h| && Opens(w, h, k) && Opens(w, h, m)
    ensures h[m].time - h[k].time >= w
  {
    StartIsLater(w, h, k, m);
  }

  /** An interval shorter than w meets at most two windows. */
  lemma AtMostTwoWindows(w: real, h: seq<Attempt>, i: nat, j: nat, k: nat)
    requires Legal(w, h) && i < k <= j < |h| && h[j].time - h[i].time < w && Opens(w, h, k)
    ensures OneWindow(w, h, i, k - 1) && OneWindow(w, h, k, j)
  {
    forall m: nat | i < m <= j && m != k ensures !Opens(w, h, m) {
      if Opens(w, h, m) {
        StartsAreApart(w, h, if m < k then m else k, if m < k then k else m);
        assert false;
      }
    }
  }

  /** Where the second window of such an interval begins; i itself if there is none. */
  lemma SplitAt(w: real, h: seq<Attempt>, i: nat, j: nat) returns (k: nat)
    requires Legal(w, h) && i <= j < |h| && h[j].time - h[i].time < w
    ensures i <= k <= j && OneWindow(w, h, k, j)
    ensures k > i ==> OneWindow(w, h, i, k - 1) && Opens(w, h, k)
  {
    if OneWindow(w, h, i, j) {
      k := i;
    } else {
      k :| i < k <= j && Opens(w, h, k);
      AtMostTwoWindows(w, h, i, j, k);
    }
  }

  /** Whatever caps are supplied, an interval shorter than w accepts at most twice the largest. */
  lemma ShortIntervalIsBounded(w: real, h: seq<Attempt>, i: nat, j: nat, cap: nat)
    requires Legal(w, h) && i <= j < |h| && h[j].time - h[i].time < w && CapsWithin(h, i, j, cap)
    ensures Accepted(h, j + 1) - Accepted(h, i) <= 2 * cap
  {
    var k := SplitAt(w, h, i, j);
    WindowIsCapped(w, h, k, j, cap);
    if k > i { WindowIsCapped(w, h, i, k - 1, cap); }
  }

  // ---- "N writes per hour, hard ceiling" --------------------------------------------------------

  ghost predicate ConstantCap(h: seq<Attempt>, n: nat) {
    forall k :: 0 <= k < |h| ==> h[k].cap == n
  }

  lemma {:induction false} OpenWindowIsUsed(w: real, h: seq<Attempt>, n: nat, k: nat)
    requires Legal(w, h) && ConstantCap(h, n) && n >= 1 && 0 < k <= |h|
    ensures Used(w, h, k) >= 1
  {
    assert Decided(w, h, k - 1);
    if !Opens(w, h, k - 1) { OpenWindowIsUsed(w, h, n, k - 1); }
  }

  /** With one cap n >= 1 throughout, an interval shorter than w accepts at most 2n - 1. */
  lemma ShortIntervalUnderOneCap(w: real, h: seq<Attempt>, n: nat, i: nat, j: nat)
    requires Legal(w, h) && ConstantCap(h, n) && n >= 1
    requires i <= j < |h| && h[j].time - h[i].time < w
    ensures Accepted(h, j + 1) - Accepted(h, i) <= 2 * n - 1
  {
    var k := SplitAt(w, h, i, j);
    assert CapsWithin(h, k, j, n);
    WindowIsCapped(w, h, k, j, n);
    if k > i {
      FirstPartIsNotFull(w, h, n, i, k);
      FirstPart(w, h, n, i, k);
    }
  }

  lemma FirstPart(w: real, h: seq<Attempt>, n: nat, i: nat, k: nat)
    requires Legal(w, h) && ConstantCap(h, n) && i < k <= |h| && OneWindow(w, h, i, k - 1) && Before(w, h, i) >= 1 && n >= 1
    ensures Accepted(h, k) - Accepted(h, i) <= n - 1
  {
    assert CapsWithin(h, i, k - 1, n);
    WindowIsCapped(w, h, i, k - 1, n);
  }

  /** A window that is cut off on its left by i, and that a later one follows within w, was used before i. */
  lemma FirstPartIsNotFull(w: real, h: seq<Attempt>, n: nat, i: nat, k: nat)
    requires Legal(w, h) && ConstantCap(h, n) && n >= 1
    requires i < k < |h| && h[k].time - h[i].time < w && Opens(w, h, k)
    ensures Before(w, h, i) >= 1
  {
    if Opens(w, h, i) {
      StartsAreApart(w, h, i, k);
      assert false;
    } else {
      OpenWindowIsUsed(w, h, n, i);
    }
  }

  /** The documented promise: no interval shorter than w ever holds more than n accepted writes. */
  ghost predicate HardCeiling(w: real, n: nat) {
    forall h: seq<Attempt>, i: nat, j: nat ::
      Legal(w, h) && ConstantCap(h, n) && i <= j < |h| && h[j].time - h[i].time < w ==> CeilingHolds(h, i, j, n)
  }

  ghost predicate CeilingHolds(h: seq<Attempt>, i: nat, j: nat, n: nat)
    requires i <= j < |h|
  {
    Accepted(h, j + 1) - Accepted(h, i) <= n
  }

  /** One write opens the window, n - 1 come in its middle, and n more as soon as it has expired. */
  function Burst(w: real, n: nat): seq<Attempt> {
    seq(2 * n, k => Attempt(if k == 0 then 0.0 else if k < n then w / 2.0 else w, n, true))
  }

  lemma {:induction false} FirstWindow(w: real, n: nat, k: nat)
    requires w > 0.0 && 0 < k <= n
    ensures WindowStart(w, Burst(w, n), k) == 0.0 && Used(w, Burst(w, n), k) == k == Accepted(Burst(w, n), k)
  {
    if k > 1 { FirstWindow(w, n, k - 1); }
  }

  lemma {:induction false} SecondWindow(w: real, n: nat, k: nat)
    requires w > 0.0 && n < k <= 2 * n
    ensures WindowStart(w, Burst(w, n), k) == w && Used(w, Burst(w, n), k) == k - n && Accepted(Burst(w, n), k) == k
  {
    if k > n + 1 { SecondWindow(w, n, k - 1); } else { FirstWindow(w, n, n); }
  }

  /** The bound of 2n - 1 is reached, for every n, in less than a window. */
  lemma BurstIsLegal(w: real, n: nat)
    requires w > 0.0 && n >= 1
    ensures var h := Burst(w, n);
      && Legal(w, h) && ConstantCap(h, n) && h[2 * n - 1].time - h[1].time < w
      && Accepted(h, 2 * n) - Accepted(h, 1) == 2 * n - 1
  {
    var h := Burst(w, n);
    FirstWindow(w, n, 1);
    SecondWindow(w, n, 2 * n);
    forall k: nat | k < |h| ensures Decided(w, h, k) {
      if 0 < k <= n { FirstWindow(w, n, k); } else if n < k { SecondWindow(w, n, k); }
    }
  }

  /** The promise holds exactly for ceilings of at most one write. */
  lemma HardCeilingIff(w: real, n: nat)
    requires w > 0.0
    ensures HardCeiling(w, n) <==> n <= 1
  {
    if n >= 2 {
      var h := Burst(w, n);
      BurstIsLegal(w, n);
      assert !CeilingHolds(h, 1, 2 * n - 1, n);
    } else {
      forall h: seq<Attempt>, i: nat, j: nat |
        Legal(w, h) && ConstantCap(h, n) && i <= j < |h| && h[j].time - h[i].time < w
        ensures CeilingHolds(h, i, j, n)
      {
        if n == 0 { ShortIntervalIsBounded(w, h, i, j, 0); } else { ShortIntervalUnderOneCap(w, h, n, i, j); }
      }
    }
  }

  // ---- Scope keys -------------------------------------------------------------------------------

  function Key(tenantId: string, sessionId: string): string {
    "lead:" + tenantId + ":" + sessionId
  }

  /** Tenant ids print without a colon, so two sessions never share a bucket. */
  lemma KeyIsInjective(t: string, s: string, t': string, s': string)
    requires ':' !in t && ':' !in t'
    requires Key(t, s) == Key(t', s')
    ensures t == t' && s == s'
  {
    var k, k' := t + ":" + s, t' + ":" + s';
    assert k == Key(t, s)[5..] && k' == Key(t', s')[5..];
    Text.IndexOfJoin(t, ':', s);
    Text.IndexOfJoin(t', ':', s');
  }

  // ---- The classes ------------------------------------------------------------------------------

  lemma {:induction false} WindowPrefix(w: real, h: seq<Attempt>, g: seq<Attempt>, k: nat)
    requires k <= |h| && h <= g
    ensures k > 0 ==> WindowStart(w, h, k) == WindowStart(w, g, k)
    ensures Used(w, h, k) == Used(w, g, k)
    ensures k < |h| ==> Opens(w, h, k) == Opens(w, g, k) && Before(w, h, k) == Before(w, g, k)
  {
    if k > 0 { WindowPrefix(w, h, g, k - 1); }
  }

  /** At time now the window that is running after h is over (or there is none). */
  predicate Expired(w: real, h: seq<Attempt>, now: real) {
    |h| == 0 || now - WindowStart(w, h, |h|) >= w
  }

  /** What one more attempt does to the window and its count. */
  lemma AttemptStep(w: real, h: seq<Attempt>, e: Attempt)
    requires (h == [] || Legal(w, h)) && (|h| > 0 ==> h[|h| - 1].time <= e.time)
    ensures var g := h + [e]; var room := if Expired(w, h, e.time) then 0 else Used(w, h, |h|);
      && Before(w, g, |h|) == room
      && Used(w, g, |g|) == room + (if e.accepted then 1 else 0)
      && WindowStart(w, g, |g|) == (if Expired(w, h, e.time) then e.time else WindowStart(w, h, |h|))
      && ((e.accepted <==> room < e.cap) ==> Legal(w, g) && Decided(w, g, |h|))
  {
    var g := h + [e];
    WindowPrefix(w, h, g, |h|);
    if Decided(w, g, |h|) {
      forall k: nat | k < |g| ensures Decided(w, g, k) {
        if k < |h| {
          WindowPrefix(w, h, g, k);
          assert Decided(w, h, k);
        }
      }
    }
  }

  /** The fixed-window counter of one session; the records live in the limiter's dictionary only. */
  datatype LeadWindowBucket = LeadWindowBucket(cap: int, windowSeconds: int, count: int, windowStartedAt: real)

  class LeadCaptureRateLimiter {
    const defaultCap: int
    const windowSeconds: int
    var buckets: map<string, LeadWindowBucket>
    ghost var histories: map<string, seq<Attempt>>  // the attempts of every session

    ghost predicate Valid()
      reads this
    {
      buckets.Keys == histories.Keys && forall k :: k in buckets ==> Keeps(buckets[k], histories[k])
    }

    /** The record holds the start and the count of the running window of a legal history. */
    ghost predicate Keeps(b: LeadWindowBucket, h: seq<Attempt>) {
      var w := windowSeconds as real;
      && |h| > 0 && Legal(w, h) && b.windowSeconds == windowSeconds
      && b.windowStartedAt == WindowStart(w, h, |h|) && b.count == Used(w, h, |h|)
    }

    ghost function History(key: string): seq<Attempt>
      reads this
    {
      if key in histories then histories[key] else []
    }

    constructor (defaultCap: int := 5, windowSeconds: int := 3600)
      ensures Valid() && buckets == map[] && histories == map[]
      ensures this.defaultCap == defaultCap && this.windowSeconds == windowSeconds
    {
      this.defaultCap := defaultCap;
      this.windowSeconds := windowSeconds;
      buckets := map[];
      histories := map[];
    }

    /** The window that is running at `now`: a new one when there is none or the old one has expired,
        the old one with the cap of this call otherwise. */
    method RunningWindow(key: string, effectiveCap: int, now: real) returns (bucket: LeadWindowBucket)
      requires Valid()
      ensures bucket.cap == effectiveCap && bucket.windowSeconds == windowSeconds
      ensures var w, h := windowSeconds as real, History(key);
        && bucket.windowStartedAt == (if Expired(w, h, now) then now else WindowStart(w, h, |h|))
        && bucket.count == if Expired(w, h, now) then 0 else Used(w, h, |h|)
    {
      if key !in buckets || now - buckets[key].windowStartedAt >= windowSeconds as real {
        bucket := LeadWindowBucket(effectiveCap, windowSeconds, 0, now);
      } else {
        assert Keeps(buckets[key], histories[key]);
        bucket := buckets[key].(cap := effectiveCap);
      }
    }

    /** Record one attempt under a scope key.  The session's history grows by the attempt and stays
        legal, which decides `allowed`; no other session is touched. */
    method Attend(key: string, effectiveCap: int, now: real) returns (allowed: bool)
      requires Valid()
      requires |History(key)| > 0 ==> History(key)[|History(key)| - 1].time <= now
      modifies this
      ensures Valid()
      ensures key in buckets && buckets == old(buckets)[key := buckets[key]]
      ensures histories == old(histories)[key := old(History(key)) + [Attempt(now, effectiveCap, allowed)]]
      ensures Legal(windowSeconds as real, histories[key])
    {
      var bucket := RunningWindow(key, effectiveCap, now);
      allowed := bucket.count < bucket.cap;
      if allowed {
        bucket := bucket.(count := bucket.count + 1);
      }
      ghost var h, e := History(key), Attempt(now, effectiveCap, allowed);
      assert key in buckets ==> Keeps(buckets[key], histories[key]);
      AttemptStep(windowSeconds as real, h, e);
      assert Keeps(bucket, h + [e]);
      buckets := buckets[key := bucket];
      histories := histories[key := h + [e]];
    }

    method CheckAndIncrement(tenantId: string, sessionId: string, cap: Option<int>, now: real)
      returns (allowed: bool)
      requires Valid()
      requires var h := History(Key(tenantId, sessionId)); |h| > 0 ==> h[|h| - 1].time <= now
      modifies this
      ensures Valid()
      ensures var key := Key(tenantId, sessionId);
        && key in buckets && buckets == old(buckets)[key := buckets[key]]
        && histories == old(histories)[key := old(History(key))
             + [Attempt(now, if cap.Some? then cap.value else defaultCap, allowed)]]
        && Legal(windowSeconds as real, histories[key])
    {
      var effectiveCap := match cap case Some(c) => c case None => defaultCap;
      allowed := Attend(Key(tenantId, sessionId), effectiveCap, now);
    }
  }
}
