/** The token buckets that limit NACK handling, per peer and per transfer. */
module TokenBucket {
  import opened Wrappers

  const NACK_BUCKET_INTERVAL := 2.0
  const NACK_BUCKET_MAX_TOKENS := 40.0
  const NACK_TRANSFER_BUCKET_MAX_TOKENS := 20.0

  datatype Bucket = Bucket(tokens: real, lastRefill: real)

  function Min(a: real, b: real): real { if a < b then a else b }

  /** The bucket at clock reading now, created full if there is none. */
  function Refilled(b: Option<Bucket>, cap: real, interval: real, now: real): Bucket
    requires interval > 0.0
  {
    if b.None? then Bucket(cap, now)
    else
      var refill := (now - b.value.lastRefill) / interval;
      if refill > 0.0 then Bucket(Min(b.value.tokens + refill, cap), now) else b.value
  }

  predicate Allows(b: Option<Bucket>, cap: real, interval: real, now: real)
    requires interval > 0.0
  {
    Refilled(b, cap, interval, now).tokens >= 1.0
  }

  function Consumed(b: Option<Bucket>, cap: real, interval: real, now: real): Bucket
    requires interval > 0.0
  {
    var r := Refilled(b, cap, interval, now);
    if r.tokens >= 1.0 then r.(tokens := r.tokens - 1.0) else r
  }

  /** A call for this key, or the removal of its bucket by the cache clean-up. */
  datatype Event = Try(now: real) | Purge

  function After(events: seq<Event>, cap: real, interval: real): Option<Bucket>
    requires interval > 0.0
  {
    if events == [] then None
    else
      var before, e := After(events[..|events| - 1], cap, interval), events[|events| - 1];
      match e
      case Try(now) => Some(Consumed(before, cap, interval, now))
      case Purge => None
  }

  predicate GrantedAt(events: seq<Event>, cap: real, interval: real, n: nat)
    requires interval > 0.0 && n < |events|
  {
    events[n].Try? && Allows(After(events[..n], cap, interval), cap, interval, events[n].now)
  }

  /** Grants among events [m, n). */
  function GrantCount(events: seq<Event>, cap: real, interval: real, m: nat, n: nat): nat
    requires interval > 0.0 && m <= n <= |events|
  {
    if m == n then 0
    else GrantCount(events, cap, interval, m, n - 1) + if GrantedAt(events, cap, interval, n - 1) then 1 else 0
  }

  function PurgeCount(events: seq<Event>, m: nat, n: nat): nat
    requires m <= n <= |events|
  {
    if m == n then 0 else PurgeCount(events, m, n - 1) + if events[n - 1].Purge? then 1 else 0
  }

  ghost predicate Clocked(events: seq<Event>) {
    forall m, n :: 0 <= m < n < |events| && events[m].Try? && events[n].Try? ==> events[m].now <= events[n].now
  }

  /** A bucket never holds more than its cap nor claims a refill from the future. */
  ghost predicate Sane(b: Option<Bucket>, cap: real, now: real) {
    b.Some? ==> 0.0 <= b.value.tokens <= cap && b.value.lastRefill <= now
  }

  lemma RefillBound(x: real, y: real, interval: real)
    requires interval > 0.0 && x <= y
    ensures (y - x) / interval >= 0.0
  {
  }

  lemma {:induction false} BucketIsSane(events: seq<Event>, cap: real, interval: real, now: real)
    requires interval > 0.0 && cap >= 0.0 && Clocked(events)
    requires forall n :: 0 <= n < |events| && events[n].Try? ==> events[n].now <= now
    ensures Sane(After(events, cap, interval), cap, now)
  {
    if events != [] {
      var e := events[|events| - 1];
      if e.Try? {
        BucketIsSane(events[..|events| - 1], cap, interval, e.now);
      }
    }
  }

  /** Tokens available at now: at most the cap. */
  function Potential(b: Option<Bucket>, cap: real, interval: real, now: real): real
    requires interval > 0.0
  {
    Refilled(b, cap, interval, now).tokens
  }

  lemma SplitElapsed(a: real, b: real, c: real, interval: real)
    requires interval > 0.0
    ensures (c - a) / interval == (b - a) / interval + (c - b) / interval
  {
  }

  /** Waiting from t to now adds at most one token per interval. */
  lemma WaitingRefills(b: Option<Bucket>, cap: real, interval: real, t: real, now: real)
    requires interval > 0.0 && Sane(b, cap, t) && t <= now
    ensures Potential(b, cap, interval, now) <= Potential(b, cap, interval, t) + (now - t) / interval
    ensures Potential(b, cap, interval, now) <= cap
  {
    RefillBound(t, now, interval);
    if b.Some? {
      SplitElapsed(b.value.lastRefill, t, now, interval);
      RefillBound(b.value.lastRefill, t, interval);
    }
  }

  /** A grant uses one token, and right after the call there is nothing more to refill. */
  lemma GrantUsesToken(b: Option<Bucket>, cap: real, interval: real, now: real)
    requires interval > 0.0 && cap >= 0.0 && Sane(b, cap, now)
    ensures var after := Some(Consumed(b, cap, interval, now));
            && Potential(after, cap, interval, now)
               == Potential(b, cap, interval, now) - (if Allows(b, cap, interval, now) then 1.0 else 0.0)
            && Sane(after, cap, now)
  {
    if b.Some? { RefillBound(b.value.lastRefill, now, interval); }
  }

  /** Every purge hands the key a new full bucket. */
  function Credit(events: seq<Event>, cap: real, m: nat, n: nat): real
    requires m <= n <= |events|
  {
    if m == n then cap else Credit(events, cap, m, n - 1) + if events[n - 1].Purge? then cap else 0.0
  }

  /** Grants so far plus tokens in hand never exceed the credit plus what time refilled. */
  lemma {:induction false} Budget(events: seq<Event>, cap: real, interval: real, m: nat, n: nat, t1: real, t: real)
    requires interval > 0.0 && cap >= 0.0 && Clocked(events) && m <= n <= |events| && t1 <= t
    requires forall j :: 0 <= j < m && events[j].Try? ==> events[j].now <= t1
    requires forall j :: m <= j < n && events[j].Try? ==> t1 <= events[j].now <= t
    ensures GrantCount(events, cap, interval, m, n) as real
        + Potential(After(events[..n], cap, interval), cap, interval, t)
         <= Credit(events, cap, m, n) + (t - t1) / interval
  {
    hide Refilled, Consumed;
    if m == n {
      BucketIsSane(events[..m], cap, interval, t1);
      WaitingRefills(After(events[..m], cap, interval), cap, interval, t1, t);
      RefillBound(t1, t, interval);
    } else {
      var e := events[n - 1];
      assert events[..n][..n - 1] == events[..n - 1];
      match e
      case Try(now) =>
        Budget(events, cap, interval, m, n - 1, t1, now);
        BucketIsSane(events[..n - 1], cap, interval, now);
        var before := After(events[..n - 1], cap, interval);
        GrantUsesToken(before, cap, interval, now);
        WaitingRefills(Some(Consumed(before, cap, interval, now)), cap, interval, now, t);
        SplitElapsed(t1, now, t, interval);
      case Purge =>
        Budget(events, cap, interval, m, n - 1, t1, t);
        BucketIsSane(events[..n - 1], cap, interval, t);
        PotentialNonNegative(After(events[..n - 1], cap, interval), cap, interval, t);
        FreshPotential(cap, interval, t);
    }
  }

  lemma PotentialNonNegative(b: Option<Bucket>, cap: real, interval: real, now: real)
    requires interval > 0.0 && cap >= 0.0 && Sane(b, cap, now)
    ensures Potential(b, cap, interval, now) >= 0.0
  {
  }

  lemma FreshPotential(cap: real, interval: real, now: real)
    requires interval > 0.0
    ensures Potential(None, cap, interval, now) == cap
  {
  }

  /**
   * For every run of calls and clean-ups and every interval [t1, t2] of it, the grants number
   * at most the credit (one full bucket, plus one per clean-up that removed the bucket) plus
   * (t2 - t1) / interval.
   */
  lemma GrantsAreBounded(events: seq<Event>, cap: real, interval: real, m: nat, n: nat, t1: real, t2: real)
    requires interval > 0.0 && cap >= 0.0 && During(events, m, n, t1, t2)
    ensures GrantCount(events, cap, interval, m, n) as real <= Credit(events, cap, m, n) + (t2 - t1) / interval
  {
    hide After, Potential, GrantCount, Credit;
    Budget(events, cap, interval, m, n, t1, t2);
    assert forall j :: 0 <= j < |events[..n]| && events[..n][j].Try? ==> events[j].now <= t2;
    BucketIsSane(events[..n], cap, interval, t2);
    PotentialNonNegative(After(events[..n], cap, interval), cap, interval, t2);
  }

  /** The credit is one full bucket, plus one for every removal. */
  lemma {:induction false} CreditCounts(events: seq<Event>, cap: real, m: nat, n: nat)
    requires m <= n <= |events|
    ensures Credit(events, cap, m, n) == cap * (1 + PurgeCount(events, m, n)) as real
  {
    if m < n {
      CreditCounts(events, cap, m, n - 1);
      OneMoreBucket(cap, PurgeCount(events, m, n - 1));
    }
  }

  lemma OneMoreBucket(cap: real, p: nat)
    ensures cap * (1 + (p + 1)) as real == cap * (1 + p) as real + cap
  {
    assert (1 + (p + 1)) as real == (1 + p) as real + 1.0;
  }

  /** Events [m, n) of a run are calls within [t1, t2] and removals; what came before is not later. */
  ghost predicate During(events: seq<Event>, m: nat, n: nat, t1: real, t2: real) {
    && Clocked(events) && m <= n <= |events| && t1 <= t2
    && (forall j :: 0 <= j < m && events[j].Try? ==> events[j].now <= t1)
    && (forall j :: m <= j < n && events[j].Try? ==> t1 <= events[j].now <= t2)
  }

  lemma {:induction false} NeverRemoved(events: seq<Event>, m: nat, n: nat)
    requires m <= n <= |events| && forall j :: m <= j < n ==> events[j].Try?
    ensures PurgeCount(events, m, n) == 0
  {
    if m < n { NeverRemoved(events, m, n - 1); }
  }

  /** Per-peer buckets are never removed: at most 40 + (t2 - t1) / 2 grants in [t1, t2]. */
  lemma PeerNackBudget(events: seq<Event>, m: nat, n: nat, t1: real, t2: real)
    requires During(events, m, n, t1, t2) && forall j :: 0 <= j < |events| ==> events[j].Try?
    ensures GrantCount(events, NACK_BUCKET_MAX_TOKENS, NACK_BUCKET_INTERVAL, m, n) as real <= 40.0 + (t2 - t1) / 2.0
  {
    hide GrantCount;
    GrantsAreBounded(events, NACK_BUCKET_MAX_TOKENS, NACK_BUCKET_INTERVAL, m, n, t1, t2);
    CreditCounts(events, NACK_BUCKET_MAX_TOKENS, m, n);
    NeverRemoved(events, m, n);
  }

  /** With P removals of its bucket, one transfer gets at most 20 * (1 + P) + (t2 - t1) / 2 grants in [t1, t2]. */
  lemma TransferNackBudget(events: seq<Event>, m: nat, n: nat, t1: real, t2: real)
    requires During(events, m, n, t1, t2)
    ensures TransferGrants(events, m, n) as real <= 20.0 * (1 + PurgeCount(events, m, n)) as real + (t2 - t1) / 2.0
  {
    hide GrantCount;
    GrantsAreBounded(events, NACK_TRANSFER_BUCKET_MAX_TOKENS, NACK_BUCKET_INTERVAL, m, n, t1, t2);
    CreditCounts(events, NACK_TRANSFER_BUCKET_MAX_TOKENS, m, n);
  }

  /** A call made at least one interval after every earlier one is always granted. */
  lemma SpacedCallIsGranted(events: seq<Event>, cap: real, interval: real, last: real, now: real)
    requires interval > 0.0 && cap >= 1.0 && Clocked(events) && last + interval <= now
    requires forall n :: 0 <= n < |events| && events[n].Try? ==> events[n].now <= last
    ensures Allows(After(events, cap, interval), cap, interval, now)
  {
    BucketIsSane(events, cap, interval, last);
    var b := After(events, cap, interval);
    if b.Some? { OneInterval(b.value.lastRefill, last, now, interval); }
  }

  lemma OneInterval(a: real, b: real, c: real, interval: real)
    requires interval > 0.0 && a <= b && b + interval <= c
    ensures (c - a) / interval >= 1.0
  {
    var middle := a + interval;
    SplitElapsed(a, middle, c, interval);
    RefillBound(middle, c, interval);
    assert (middle - a) / interval == 1.0;
  }

  // ---- The bound for one transfer is exact ------------------------------------------------------

  /** Grants to one transfer among events [m, n). */
  function TransferGrants(events: seq<Event>, m: nat, n: nat): nat
    requires m <= n <= |events|
  {
    GrantCount(events, NACK_TRANSFER_BUCKET_MAX_TOKENS, NACK_BUCKET_INTERVAL, m, n)
  }

  function TransferBucket(events: seq<Event>): Option<Bucket> {
    After(events, NACK_TRANSFER_BUCKET_MAX_TOKENS, NACK_BUCKET_INTERVAL)
  }

  /** n calls at time zero. */
  function Burst(n: nat): (es: seq<Event>)
    ensures |es| == n && forall j :: 0 <= j < n ==> es[j] == Try(0.0)
  {
    seq(n, j => Try(0.0))
  }

  lemma DrainOne(b: Option<Bucket>, j: nat)
    requires j < 20 && b == if j == 0 then None else Some(Bucket((20 - j) as real, 0.0))
    ensures Allows(b, NACK_TRANSFER_BUCKET_MAX_TOKENS, NACK_BUCKET_INTERVAL, 0.0)
    ensures Consumed(b, NACK_TRANSFER_BUCKET_MAX_TOKENS, NACK_BUCKET_INTERVAL, 0.0)
         == Bucket((20 - (j + 1)) as real, 0.0)
  {
  }

  /** How a call extends the history of a bucket. */
  lemma CallSnoc(calls: seq<Event>, cap: real, interval: real, now: real)
    requires interval > 0.0
    ensures var after := calls + [Try(now)];
            var before := After(calls, cap, interval);
            && After(after, cap, interval) == Some(Consumed(before, cap, interval, now))
            && GrantCount(after, cap, interval, 0, |after|) == GrantCount(calls, cap, interval, 0, |calls|)
                                                               + (if Allows(before, cap, interval, now) then 1 else 0)
            && GrantCount(after, cap, interval, |calls|, |after|) == if Allows(before, cap, interval, now) then 1 else 0
  {
    hide Consumed, Allows;
    var after := calls + [Try(now)];
    assert after[..|calls|] == calls;
    GrantPrefix(after, calls, cap, interval, 0, |calls|);
    assert GrantCount(after, cap, interval, |calls|, |calls|) == 0;
  }

  /** j calls at one instant after a fresh bucket are all granted as long as tokens last. */
  lemma {:induction false} BurstDrains(front: seq<Event>, j: nat)
    requires TransferBucket(front) == None && j <= 20
    ensures TransferBucket(front + Burst(j)) == if j == 0 then None else Some(Bucket((20 - j) as real, 0.0))
    ensures TransferGrants(front + Burst(j), |front|, |front| + j) == j
  {
    hide After, GrantCount, Refilled, Allows, Consumed, Burst;
    var es := front + Burst(j);
    if j == 0 {
      assert es == front;
      NoGrants(front);
    } else {
      var before := front + Burst(j - 1);
      BurstDrains(front, j - 1);
      assert es == before + [Try(0.0)];
      DrainOne(TransferBucket(before), j - 1);
      CallSnoc(before, NACK_TRANSFER_BUCKET_MAX_TOKENS, NACK_BUCKET_INTERVAL, 0.0);
      GrantSplit(es, NACK_TRANSFER_BUCKET_MAX_TOKENS, NACK_BUCKET_INTERVAL, |front|, |before|, |es|);
      GrantPrefix(es, before, NACK_TRANSFER_BUCKET_MAX_TOKENS, NACK_BUCKET_INTERVAL, |front|, |before|);
    }
  }

  lemma NoGrants(calls: seq<Event>)
    ensures TransferGrants(calls, |calls|, |calls|) == 0
  {
  }

  lemma {:induction false} GrantPrefix(es: seq<Event>, before: seq<Event>, cap: real, interval: real, m: nat, n: nat)
    requires interval > 0.0 && m <= n <= |before| && before <= es
    ensures GrantCount(es, cap, interval, m, n) == GrantCount(before, cap, interval, m, n)
    ensures PurgeCount(es, m, n) == PurgeCount(before, m, n)
  {
    if m < n {
      GrantPrefix(es, before, cap, interval, m, n - 1);
      assert es[..n - 1] == before[..n - 1];
    }
  }

  lemma {:induction false} GrantSplit(es: seq<Event>, cap: real, interval: real, m: nat, k: nat, n: nat)
    requires interval > 0.0 && m <= k <= n <= |es|
    ensures GrantCount(es, cap, interval, m, n)
         == GrantCount(es, cap, interval, m, k) + GrantCount(es, cap, interval, k, n)
    ensures PurgeCount(es, m, n) == PurgeCount(es, m, k) + PurgeCount(es, k, n)
  {
    if k < n { GrantSplit(es, cap, interval, m, k, n - 1); }
  }

  lemma PurgeLeavesNothing(es: seq<Event>, n: nat)
    requires n < |es| && es[n].Purge?
    ensures TransferGrants(es, n, n + 1) == 0 && PurgeCount(es, n, n + 1) == 1
    ensures TransferBucket(es[..n + 1]) == None
  {
    assert TransferGrants(es, n, n) == 0 && PurgeCount(es, n, n) == 0;
    assert !GrantedAt(es, NACK_TRANSFER_BUCKET_MAX_TOKENS, NACK_BUCKET_INTERVAL, n);
  }

  lemma StartsEmpty()
    ensures TransferBucket([]) == None && TransferGrants([], 0, 0) == 0 && PurgeCount([], 0, 0) == 0
  {
  }

  /** p removals with a burst of 20 calls before the first and after each, all at time zero. */
  function Bursts(p: nat): (es: seq<Event>)
    ensures |es| == 21 * p + 20 && forall j :: 0 <= j < |es| ==> es[j] == Try(0.0) || es[j] == Purge
  {
    if p == 0 then Burst(20) else Bursts(p - 1) + [Purge] + Burst(20)
  }

  /** Twenty more calls after a removal, or at the start, are all granted. */
  lemma BurstAfter(front: seq<Event>)
    requires TransferBucket(front) == None
    ensures var es := front + Burst(20);
            && TransferGrants(es, 0, |es|) == TransferGrants(front, 0, |front|) + 20
            && PurgeCount(es, 0, |es|) == PurgeCount(front, 0, |front|)
  {
    hide TransferBucket, GrantCount, PurgeCount, Burst;
    var es := front + Burst(20);
    BurstDrains(front, 20);
    GrantSplit(es, NACK_TRANSFER_BUCKET_MAX_TOKENS, NACK_BUCKET_INTERVAL, 0, |front|, |es|);
    GrantPrefix(es, front, NACK_TRANSFER_BUCKET_MAX_TOKENS, NACK_BUCKET_INTERVAL, 0, |front|);
    NeverRemoved(es, |front|, |es|);
  }

  lemma {:induction false} BurstsAreGranted(p: nat)
    ensures TransferGrants(Bursts(p), 0, |Bursts(p)|) == 20 * (1 + p) && PurgeCount(Bursts(p), 0, |Bursts(p)|) == p
  {
    hide TransferBucket, GrantCount, PurgeCount, Burst;
    if p == 0 {
      StartsEmpty();
      BurstAfter([]);
      assert [] + Burst(20) == Burst(20);
    } else {
      BurstsAreGranted(p - 1);
      var before := Bursts(p - 1);
      var front := before + [Purge];
      PurgeLeavesNothing(front, |before|);
      assert front[..|front|] == front;
      GrantSplit(front, NACK_TRANSFER_BUCKET_MAX_TOKENS, NACK_BUCKET_INTERVAL, 0, |before|, |front|);
      GrantPrefix(front, before, NACK_TRANSFER_BUCKET_MAX_TOKENS, NACK_BUCKET_INTERVAL, 0, |before|);
      BurstAfter(front);
    }
  }

  /**
   * The exact allowance of one transfer: b + (t2 - t1) / 2 bounds the grants of every interval of
   * every run with p removals of its bucket if and only if b is at least 20 * (1 + p).
   */
  lemma ExactTransferBudget(p: nat, b: real)
    ensures (forall events, m, n, t1, t2 :: During(events, m, n, t1, t2) && PurgeCount(events, m, n) == p ==>
                                              TransferGrants(events, m, n) as real <= b + (t2 - t1) / 2.0)
            <==> b >= 20.0 * (1 + p) as real
  {
    hide TransferGrants, PurgeCount, Bursts;
    if b >= 20.0 * (1 + p) as real {
      forall events, m, n, t1, t2 | During(events, m, n, t1, t2) && PurgeCount(events, m, n) == p
        ensures TransferGrants(events, m, n) as real <= b + (t2 - t1) / 2.0
      {
        TransferNackBudget(events, m, n, t1, t2);
      }
    } else {
      var es := Bursts(p);
      BurstsAreGranted(p);
      assert During(es, 0, |es|, 0.0, 0.0);
    }
  }

  /**
   * The intended 20 + (t2 - t1) / 2 holds of all runs with p removals if and only if there are
   * none. The clean-up removes the bucket of every transfer that is not outgoing, although the
   * receiver also draws on it for the transfers it is receiving.
   */
  lemma IntendedBudgetIffNeverRemoved(p: nat)
    ensures (forall events, m, n, t1, t2 :: During(events, m, n, t1, t2) && PurgeCount(events, m, n) == p ==>
                                              TransferGrants(events, m, n) as real <= 20.0 + (t2 - t1) / 2.0)
            <==> p == 0
  {
    ExactTransferBudget(p, 20.0);
  }

  // ---- The bucket dictionaries ----------------------------------------------------------------

  class NackBuckets {
    const cap: real
    const interval: real
    var buckets: map<string, Bucket>

    constructor (cap: real, interval: real)
      requires cap >= 0.0 && interval > 0.0
      ensures this.cap == cap && this.interval == interval && buckets == map[]
    {
      this.cap, this.interval, buckets := cap, interval, map[];
    }

    ghost function Of(key: string): Option<Bucket>
      reads this
    {
      if key in buckets then Some(buckets[key]) else None
    }

    method TryConsume(key: string, now: real) returns (allowed: bool)
      requires interval > 0.0
      modifies this`buckets
      ensures allowed == Allows(old(Of(key)), cap, interval, now)
      ensures buckets == old(buckets)[key := Consumed(old(Of(key)), cap, interval, now)]
    {
      var bucket := if key in buckets then buckets[key] else Bucket(cap, now);
      var elapsed := now - bucket.lastRefill;
      var refill := elapsed / interval;
      if refill > 0.0 { bucket := Bucket(Min(bucket.tokens + refill, cap), now); }
      allowed := bucket.tokens >= 1.0;
      if allowed { bucket := bucket.(tokens := bucket.tokens - 1.0); }
      buckets := buckets[key := bucket];
    }

    /** The clean-up keeps only the buckets of transfers that are still outgoing. */
    method PurgeExcept(outgoing: set<string>)
      modifies this`buckets
      ensures forall key :: Of(key) == if key in outgoing then old(Of(key)) else None
    {
      buckets := map key | key in buckets && key in outgoing :: buckets[key];
    }
  }
}
