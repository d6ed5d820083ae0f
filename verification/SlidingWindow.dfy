/**
 * Sliding-window limiting: a key is granted a call only if fewer than limit of its earlier
 * grants are still inside the window. The manifest request limiter and the advertisement
 * quota both keep their per-key history this way.
 */
module SlidingWindow {

  /**
   * One call: the clock when the history is checked, the clock when the grant is recorded
   * (publish reads it twice), and whether the other conditions permit the call.
   */
  datatype Call = Call(key: string, check: real, stamp: real, permitted: bool)

  /** Drops entries from the front while they are older than the cutoff. */
  function DropStale(history: seq<real>, cutoff: real): (h: seq<real>)
    ensures |h| <= |history|
  {
    if history != [] && history[0] < cutoff then DropStale(history[1..], cutoff) else history
  }

  lemma {:induction false} DropStaleKeepsTail(history: seq<real>, cutoff: real)
    ensures var h := DropStale(history, cutoff);
            && h == history[|history| - |h|..]
            && (forall i :: 0 <= i < |history| - |h| ==> history[i] < cutoff)
            && (h != [] ==> h[0] >= cutoff)
  {
    if history != [] && history[0] < cutoff {
      DropStaleKeepsTail(history[1..], cutoff);
      var h := DropStale(history, cutoff);
      forall i | 0 <= i < |history| - |h|
        ensures history[i] < cutoff
      {
        if i > 0 { assert history[i] == history[1..][i - 1]; }
      }
    }
  }

  lemma DropStaleStep(history: seq<real>, cutoff: real)
    ensures DropStale(history, cutoff)
         == if history != [] && history[0] < cutoff then DropStale(history[1..], cutoff) else history
  {
  }

  predicate Grants(history: seq<real>, limit: nat, window: real, c: Call) {
    |DropStale(history, c.check - window)| < limit && c.permitted
  }

  /** The history of the called key after the call. */
  function Record(history: seq<real>, limit: nat, window: real, c: Call): seq<real> {
    var kept := DropStale(history, c.check - window);
    if Grants(history, limit, window, c) then kept + [c.stamp] else kept
  }

  type Histories = map<string, seq<real>>

  function HistoryOf(hs: Histories, key: string): seq<real> { if key in hs then hs[key] else [] }

  function Step(hs: Histories, limit: nat, window: real, c: Call): Histories {
    hs[c.key := Record(HistoryOf(hs, c.key), limit, window, c)]
  }

  // ---- Runs -----------------------------------------------------------------------

  function After(calls: seq<Call>, limit: nat, window: real): Histories {
    if calls == [] then map[]
    else Step(After(calls[..|calls| - 1], limit, window), limit, window, calls[|calls| - 1])
  }

  /** The recorded times of all grants to one key, in order. */
  function GrantsTo(calls: seq<Call>, limit: nat, window: real, key: string): seq<real> {
    if calls == [] then []
    else
      var before, c := calls[..|calls| - 1], calls[|calls| - 1];
      var earlier := GrantsTo(before, limit, window, key);
      if c.key == key && Grants(HistoryOf(After(before, limit, window), key), limit, window, c)
      then earlier + [c.stamp] else earlier
  }

  /** A clock that never goes back: within a call and from one call to the next. */
  ghost predicate Clocked(calls: seq<Call>) {
    && (forall n :: 0 <= n < |calls| ==> calls[n].check <= calls[n].stamp)
    && (forall m, n :: 0 <= m < n < |calls| ==> calls[m].stamp <= calls[n].check)
  }

  /**
   * The history is the tail of the grants; what was dropped is older than the window at the
   * last check; and any limit + 1 consecutive grants span more than the window.
   */
  ghost predicate Spaced(grants: seq<real>, history: seq<real>, limit: nat, window: real, now: real) {
    && |history| <= |grants| && history == grants[|grants| - |history|..]
    && (forall i :: 0 <= i < |grants| - |history| ==> grants[i] < now - window)
    && (forall i, j :: 0 <= i < j < |grants| ==> grants[i] <= grants[j])
    && (forall i :: 0 <= i < |grants| ==> grants[i] <= now)
    && (forall i :: limit <= i < |grants| ==> grants[i - limit] < grants[i] - window)
  }

  lemma CallKeepsSpaced(grants: seq<real>, history: seq<real>, limit: nat, window: real, now: real, c: Call)
    requires Spaced(grants, history, limit, window, now) && now <= c.check <= c.stamp
    ensures var granted := Grants(history, limit, window, c);
            Spaced(if granted then grants + [c.stamp] else grants, Record(history, limit, window, c), limit, window,
                c.stamp)
  {
    hide DropStale, Spaced;
    var kept := DropStale(history, c.check - window);
    DropKeepsSpaced(grants, history, limit, window, now, c.check);
    if |kept| < limit && c.permitted {
      AppendKeepsSpaced(grants, kept, limit, window, c.check, c.stamp);
    } else {
      Later(grants, kept, limit, window, c.check, c.stamp);
    }
  }

  lemma DropKeepsSpaced(grants: seq<real>, history: seq<real>, limit: nat, window: real, now: real, check: real)
    requires Spaced(grants, history, limit, window, now) && now <= check
    ensures Spaced(grants, DropStale(history, check - window), limit, window, check)
  {
    hide DropStale;
    DropStaleKeepsTail(history, check - window);
    var kept := DropStale(history, check - window);
    forall i | 0 <= i < |grants| - |kept|
      ensures grants[i] < check - window
    {
      if i >= |grants| - |history| {
        assert grants[i] == history[i - (|grants| - |history|)];
      }
    }
  }

  lemma AppendKeepsSpaced(grants: seq<real>, kept: seq<real>, limit: nat, window: real, check: real, stamp: real)
    requires Spaced(grants, kept, limit, window, check) && |kept| < limit && check <= stamp
    ensures Spaced(grants + [stamp], kept + [stamp], limit, window, stamp)
  {
    var after := grants + [stamp];
    forall i | limit <= i < |after|
      ensures after[i - limit] < after[i] - window
    {
      if i == |grants| { assert grants[i - limit] < check - window; }
    }
  }

  lemma Later(grants: seq<real>, history: seq<real>, limit: nat, window: real, now: real, then_: real)
    requires Spaced(grants, history, limit, window, now) && now <= then_
    ensures Spaced(grants, history, limit, window, then_)
  {
  }

  lemma NothingSpaced(limit: nat, window: real, now: real)
    ensures Spaced([], [], limit, window, now)
  {
  }

  /** The invariant of every run, for every key, at any time not before the last call. */
  lemma {:induction false} RunIsSpaced(calls: seq<Call>, limit: nat, window: real, key: string, now: real)
    requires Clocked(calls) && (calls != [] ==> calls[|calls| - 1].stamp <= now)
    ensures Spaced(GrantsTo(calls, limit, window, key), HistoryOf(After(calls, limit, window), key), limit, window, now)
  {
    hide Spaced, DropStale, Grants, Record;
    if calls == [] {
      NothingSpaced(limit, window, now);
    } else {
      var before, c := calls[..|calls| - 1], calls[|calls| - 1];
      RunIsSpaced(before, limit, window, key, c.check);
      var grants, history := GrantsTo(before, limit, window, key), HistoryOf(After(before, limit, window), key);
      if c.key == key {
        CallKeepsSpaced(grants, history, limit, window, c.check, c);
        Later(GrantsTo(calls, limit, window, key), HistoryOf(After(calls, limit, window), key), limit, window,
            c.stamp, now);
      } else {
        Later(grants, history, limit, window, c.check, now);
      }
    }
  }

  // ---- Counting inside a window --------------------------------------------------------

  function CountWithin(s: seq<real>, lo: real, hi: real): nat {
    if s == [] then 0
    else CountWithin(s[..|s| - 1], lo, hi) + if lo <= s[|s| - 1] <= hi then 1 else 0
  }

  /** In an ascending sequence whose entries limit apart differ by more than hi - lo, at most limit fit. */
  lemma {:induction false} AtMostLimit(s: seq<real>, limit: nat, lo: real, hi: real)
    requires forall i, j :: 0 <= i < j < |s| ==> s[i] <= s[j]
    requires forall i :: limit <= i < |s| ==> s[i - limit] < s[i] - (hi - lo)
    ensures CountWithin(s, lo, hi) <= limit
    decreases |s|
  {
    if s != [] {
      var n := |s| - 1;
      if !(lo <= s[n] <= hi) {
        AtMostLimit(s[..n], limit, lo, hi);
      } else if limit == 0 {
        assert false;
      } else if n < limit {
        CountAtMostLength(s, lo, hi);
      } else {
        assert forall i :: 0 <= i <= n - limit ==> s[i] <= s[n - limit];
        FewerBelow(s, n - limit + 1, lo, hi);
      }
    }
  }

  lemma {:induction false} CountAtMostLength(s: seq<real>, lo: real, hi: real)
    ensures CountWithin(s, lo, hi) <= |s|
  {
    if s != [] { CountAtMostLength(s[..|s| - 1], lo, hi); }
  }

  /** Entries below lo at the front do not count. */
  lemma {:induction false} FewerBelow(s: seq<real>, k: nat, lo: real, hi: real)
    requires k <= |s| && forall i :: 0 <= i < k ==> s[i] < lo
    ensures CountWithin(s, lo, hi) <= |s| - k
  {
    if |s| > k {
      FewerBelow(s[..|s| - 1], k, lo, hi);
    } else if s != [] {
      FewerBelow(s[..|s| - 1], k - 1, lo, hi);
    }
  }

  /**
   * In every run with a non-decreasing clock, every closed time window of the configured
   * length contains at most limit grants to each key.
   */
  lemma WindowHoldsAtMostLimit(calls: seq<Call>, limit: nat, window: real, key: string, t: real)
    requires Clocked(calls)
    ensures CountWithin(GrantsTo(calls, limit, window, key), t, t + window) <= limit
  {
    var now := if calls == [] then 0.0 else calls[|calls| - 1].stamp;
    RunIsSpaced(calls, limit, window, key, now);
    AtMostLimit(GrantsTo(calls, limit, window, key), limit, t, t + window);
  }

  lemma {:induction false} CountTail(s: seq<real>, k: nat, lo: real, hi: real)
    requires k <= |s| && (forall i :: 0 <= i < k ==> s[i] < lo) && (forall i :: k <= i < |s| ==> lo <= s[i] <= hi)
    ensures CountWithin(s, lo, hi) == |s| - k
  {
    if s != [] { CountTail(s[..|s| - 1], if k < |s| then k else k - 1, lo, hi); }
  }

  /** The kept tail lies in the window; what is before it does not. */
  lemma TailInWindow(grants: seq<real>, kept: seq<real>, limit: nat, window: real, now: real)
    requires Spaced(grants, kept, limit, window, now) && (kept != [] ==> kept[0] >= now - window)
    ensures CountWithin(grants, now - window, now) == |kept|
  {
    hide CountWithin;
    var k := |grants| - |kept|;
    forall i | k <= i < |grants|
      ensures now - window <= grants[i] <= now
    {
      assert grants[k] == kept[0];
      assert k == i || grants[k] <= grants[i];
    }
    CountTail(grants, k, now - window, now);
  }

  /** What is kept of the history is what lies in the window. */
  lemma KeptCount(grants: seq<real>, history: seq<real>, limit: nat, window: real, check: real)
    requires Spaced(grants, history, limit, window, check)
    ensures |DropStale(history, check - window)| == CountWithin(grants, check - window, check)
  {
    hide DropStale, CountWithin, Spaced;
    DropKeepsSpaced(grants, history, limit, window, check, check);
    DropStaleKeepsTail(history, check - window);
    TailInWindow(grants, DropStale(history, check - window), limit, window, check);
  }

  lemma ClockedPrefix(calls: seq<Call>, c: Call)
    requires Clocked(calls + [c])
    ensures Clocked(calls) && (calls != [] ==> calls[|calls| - 1].stamp <= c.check)
  {
    var all := calls + [c];
    assert all[|calls|] == c && forall n :: 0 <= n < |calls| ==> all[n] == calls[n];
  }

  /**
   * After every such run a call is granted exactly when it is otherwise permitted and fewer than
   * limit grants lie in the closed window that ends at the check.
   */
  lemma GrantedIffRoom(calls: seq<Call>, limit: nat, window: real, c: Call)
    requires Clocked(calls + [c])
    ensures Grants(HistoryOf(After(calls, limit, window), c.key), limit, window, c)
            <==> c.permitted && CountWithin(GrantsTo(calls, limit, window, c.key), c.check - window, c.check) < limit
  {
    hide DropStale, After, GrantsTo, CountWithin, Clocked, Spaced;
    ClockedPrefix(calls, c);
    RunIsSpaced(calls, limit, window, c.key, c.check);
    KeptCount(GrantsTo(calls, limit, window, c.key), HistoryOf(After(calls, limit, window), c.key), limit, window,
        c.check);
  }

  // ---- The request limiter object --------------------------------------------------------

  class RateLimiter {
    const limit: nat
    const windowSeconds: real
    var history: Histories

    constructor (limit: nat, windowSeconds: real)
      requires limit > 0 && windowSeconds > 0.0
      ensures this.limit == limit && this.windowSeconds == windowSeconds && history == map[]
    {
      this.limit, this.windowSeconds, history := limit, windowSeconds, map[];
    }

    method Allow(peerKey: string, now: real) returns (granted: bool)
      modifies this`history
      ensures history == Step(old(history), limit, windowSeconds, Call(peerKey, now, now, true))
      ensures granted == Grants(HistoryOf(old(history), peerKey), limit, windowSeconds, Call(peerKey, now, now, true))
    {
      hide DropStale;
      var bucket := HistoryOf(history, peerKey);
      var cutoff := now - windowSeconds;
      while bucket != [] && bucket[0] < cutoff
        invariant history == old(history)
        invariant DropStale(bucket, cutoff) == DropStale(HistoryOf(old(history), peerKey), cutoff)
        decreases |bucket|
      {
        DropStaleStep(bucket, cutoff);
        bucket := bucket[1..];
      }
      DropStaleStep(bucket, cutoff);
      granted := |bucket| < limit;
      if granted { bucket := bucket + [now]; }
      history := history[peerKey := bucket];
    }
  }
}
