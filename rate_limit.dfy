/** The in-memory login throttle: a sliding window of attempt timestamps per
    client key. Time is an integer clock reading passed in by the caller. */
module RateLimit {

  /** Attempt timestamps of a key; a key never seen has none. */
  function Entries(attempts: map<string, seq<int>>, key: string): seq<int> {
    if key in attempts then attempts[key] else []
  }

  predicate Sorted(s: seq<int>) {
    forall i, j :: 0 <= i < j < |s| ==> s[i] <= s[j]
  }

  /** Every timestamp is at most `now`: the clock never runs backwards. */
  predicate NotAfter(s: seq<int>, now: int) {
    forall i :: 0 <= i < |s| ==> s[i] <= now
  }

  /** What `_prune` leaves of a deque: the leading entries at or before the
      cutoff are gone, the rest is kept in order. */
  function Pruned(entries: seq<int>, cutoff: int): (r: seq<int>)
    ensures |r| <= |entries|
    ensures r == [] || r[0] > cutoff
    decreases |entries|
  {
    if entries != [] && entries[0] <= cutoff then Pruned(entries[1..], cutoff) else entries
  }

  /** The kept part is a suffix of the deque and everything dropped is at or
      before the cutoff. */
  lemma {:induction false} PrunedIsSuffix(entries: seq<int>, cutoff: int)
    ensures Pruned(entries, cutoff) == entries[|entries| - |Pruned(entries, cutoff)|..]
    ensures forall i :: 0 <= i < |entries| - |Pruned(entries, cutoff)| ==> entries[i] <= cutoff
    decreases |entries|
  {
    if entries != [] && entries[0] <= cutoff {
      PrunedIsSuffix(entries[1..], cutoff);
      var r := Pruned(entries, cutoff);
      assert entries[1..][|entries| - 1 - |r|..] == entries[|entries| - |r|..];
      forall i | 0 <= i < |entries| - |r| ensures entries[i] <= cutoff {
        if i > 0 {
          assert entries[i] == entries[1..][i - 1];
        }
      }
    }
  }

  /** In a sorted deque every kept entry is after the cutoff. */
  lemma {:induction false} PrunedSortedAfterCutoff(entries: seq<int>, cutoff: int)
    requires Sorted(entries)
    ensures forall i :: 0 <= i < |Pruned(entries, cutoff)| ==> Pruned(entries, cutoff)[i] > cutoff
  {
    PrunedIsSuffix(entries, cutoff);
    var r := Pruned(entries, cutoff);
    if r != [] {
      forall i | 0 <= i < |r| ensures r[i] > cutoff {
        assert r[0] == entries[|entries| - |r|];
        assert r[i] == entries[|entries| - |r| + i];
      }
    }
  }

  /** Pruning twice with the same cutoff is pruning once. */
  lemma {:induction false} PrunedIdempotent(entries: seq<int>, cutoff: int)
    ensures Pruned(Pruned(entries, cutoff), cutoff) == Pruned(entries, cutoff)
  {
    var r := Pruned(entries, cutoff);
    assert r == [] || r[0] > cutoff;
  }

  /** `retry_after`: the seconds until the oldest kept attempt leaves the window,
      at least 1. */
  function RetryAfter(windowSeconds: int, now: int, oldest: int): (r: int)
    ensures r >= 1
    ensures r == 1 || r == windowSeconds - (now - oldest)
  {
    var wait := windowSeconds - (now - oldest);
    if wait < 1 then 1 else wait
  }

  /** The wait never exceeds the window when the oldest attempt is not in the
      future, and equals the exact remaining time when that is positive. */
  lemma RetryAfterBounds(windowSeconds: int, now: int, oldest: int)
    requires windowSeconds > 0 && oldest <= now
    ensures 1 <= RetryAfter(windowSeconds, now, oldest) <= windowSeconds
    ensures oldest > now - windowSeconds ==> RetryAfter(windowSeconds, now, oldest) == windowSeconds - (now - oldest)
  {
  }

  /** State after `is_blocked` on an enabled limiter: the `defaultdict` lookup
      creates the key, and its deque is pruned. */
  function AfterCheck(attempts: map<string, seq<int>>, key: string, cutoff: int): (r: map<string, seq<int>>)
    ensures r.Keys == attempts.Keys + {key}
    ensures forall k :: k != key ==> Entries(r, k) == Entries(attempts, k)
  {
    attempts[key := Pruned(Entries(attempts, key), cutoff)]
  }

  /** State after `add_attempt` on an enabled limiter. */
  function AfterAdd(attempts: map<string, seq<int>>, key: string, cutoff: int, now: int): (r: map<string, seq<int>>)
    ensures r.Keys == attempts.Keys + {key}
    ensures forall k :: k != key ==> Entries(r, k) == Entries(attempts, k)
    ensures |Entries(r, key)| <= |Entries(attempts, key)| + 1
    ensures Entries(r, key) != [] && Entries(r, key)[|Entries(r, key)| - 1] == now
  {
    attempts[key := Pruned(Entries(attempts, key), cutoff) + [now]]
  }

  /** State after `reset` on an enabled limiter: the key is forgotten. */
  function AfterReset(attempts: map<string, seq<int>>, key: string): (r: map<string, seq<int>>)
    ensures key !in r && Entries(r, key) == []
    ensures forall k :: k != key ==> Entries(r, k) == Entries(attempts, k)
  {
    attempts - {key}
  }

  /** With a clock that does not run backwards, recording keeps a key's deque
      sorted and not after the clock. */
  lemma {:induction false} AddKeepsSorted(attempts: map<string, seq<int>>, key: string, cutoff: int, now: int)
    requires Sorted(Entries(attempts, key)) && NotAfter(Entries(attempts, key), now)
    ensures Sorted(Entries(AfterAdd(attempts, key, cutoff, now), key))
    ensures NotAfter(Entries(AfterAdd(attempts, key, cutoff, now), key), now)
  {
    var e := Entries(attempts, key);
    var p := Pruned(e, cutoff);
    PrunedIsSuffix(e, cutoff);
    var s := p + [now];
    assert Entries(AfterAdd(attempts, key, cutoff, now), key) == s;
    forall i | 0 <= i < |p| ensures p[i] == e[|e| - |p| + i] && p[i] <= now {
      assert p[i] == e[|e| - |p| + i];
    }
    forall i, j | 0 <= i < j < |s| ensures s[i] <= s[j] {
      if j < |p| {
        assert s[i] == e[|e| - |p| + i] && s[j] == e[|e| - |p| + j];
      }
    }
  }

  /** A check right after a recorded attempt, at the same clock reading, sees
      that attempt: the kept count grows by exactly one. */
  lemma {:induction false} CheckSeesAdd(attempts: map<string, seq<int>>, key: string, windowSeconds: int, now: int)
    requires windowSeconds > 0
    ensures Pruned(Entries(AfterAdd(attempts, key, now - windowSeconds, now), key), now - windowSeconds)
         == Pruned(Entries(attempts, key), now - windowSeconds) + [now]
  {
    var cutoff := now - windowSeconds;
    var p := Pruned(Entries(attempts, key), cutoff);
    PrunedIdempotent(Entries(attempts, key), cutoff);
    if p != [] {
      assert (p + [now])[0] == p[0];
    }
  }

  /** Every deque is sorted and no later than `now`. */
  predicate WellOrdered(attempts: map<string, seq<int>>, now: int) {
    forall k :: k in attempts ==> Sorted(attempts[k]) && NotAfter(attempts[k], now)
  }

  lemma {:induction false} PrunedKeepsOrder(entries: seq<int>, cutoff: int, now: int)
    requires Sorted(entries) && NotAfter(entries, now)
    ensures Sorted(Pruned(entries, cutoff)) && NotAfter(Pruned(entries, cutoff), now)
  {
    PrunedIsSuffix(entries, cutoff);
    var p := Pruned(entries, cutoff);
    forall i | 0 <= i < |p| ensures p[i] == entries[|entries| - |p| + i] {
    }
  }

  /** The three operations keep every deque sorted and no later than the
      clock, as long as the clock does not run backwards. */
  lemma {:induction false} OperationsKeepOrder(attempts: map<string, seq<int>>, key: string, cutoff: int, now: int, later: int)
    requires WellOrdered(attempts, now) && now <= later
    ensures WellOrdered(AfterAdd(attempts, key, cutoff, now), later)
    ensures WellOrdered(AfterCheck(attempts, key, cutoff), later)
    ensures WellOrdered(AfterReset(attempts, key), later)
  {
    assert Sorted(Entries(attempts, key)) && NotAfter(Entries(attempts, key), now);
    AddKeepsSorted(attempts, key, cutoff, now);
    PrunedKeepsOrder(Entries(attempts, key), cutoff, now);
    forall k | k in AfterAdd(attempts, key, cutoff, now)
      ensures Sorted(AfterAdd(attempts, key, cutoff, now)[k]) && NotAfter(AfterAdd(attempts, key, cutoff, now)[k], later)
    {
      assert AfterAdd(attempts, key, cutoff, now)[k] == Entries(AfterAdd(attempts, key, cutoff, now), k);
    }
    forall k | k in AfterCheck(attempts, key, cutoff)
      ensures Sorted(AfterCheck(attempts, key, cutoff)[k]) && NotAfter(AfterCheck(attempts, key, cutoff)[k], later)
    {
      assert AfterCheck(attempts, key, cutoff)[k] == Entries(AfterCheck(attempts, key, cutoff), k);
    }
  }

  class RateLimiter {
    const maxAttempts: int
    const windowSeconds: int
    const enabled: bool := maxAttempts > 0 && windowSeconds > 0
    /** `_attempts`: the per-key deques. */
    var attempts: map<string, seq<int>>

    constructor (maxAttempts: int, windowSeconds: int)
      ensures this.maxAttempts == maxAttempts && this.windowSeconds == windowSeconds
      ensures enabled <==> maxAttempts > 0 && windowSeconds > 0
      ensures attempts == map[]
    {
      this.maxAttempts := maxAttempts;
      this.windowSeconds := windowSeconds;
      attempts := map[];
    }

    /** Every deque is sorted and no entry lies after the clock reading. */
    ghost predicate Valid(now: int)
      reads this
    {
      WellOrdered(attempts, now)
    }

    /** `_prune`: pop the left end while it is at or before `now - window`. */
    method Prune(entries: seq<int>, now: int) returns (kept: seq<int>)
      ensures kept == Pruned(entries, now - windowSeconds)
    {
      var cutoff := now - windowSeconds;
      kept := entries;
      while kept != [] && kept[0] <= cutoff
        invariant Pruned(kept, cutoff) == Pruned(entries, cutoff)
        decreases |kept|
      {
        kept := kept[1..];
      }
    }

    method IsBlocked(key: string, now: int) returns (blocked: bool, retryAfter: int)
      modifies this
      ensures !enabled ==> !blocked && retryAfter == 0 && attempts == old(attempts)
      ensures enabled ==> attempts == AfterCheck(old(attempts), key, now - windowSeconds)
      ensures enabled ==> (blocked <==> |Entries(attempts, key)| >= maxAttempts)
      ensures blocked ==> retryAfter == RetryAfter(windowSeconds, now, Entries(attempts, key)[0])
      ensures !blocked ==> retryAfter == 0
      ensures old(Valid(now)) ==> Valid(now)
    {
      if !enabled {
        return false, 0;
      }
      if Valid(now) {
        OperationsKeepOrder(attempts, key, now - windowSeconds, now, now);
      }
      var entries := Prune(Entries(attempts, key), now);
      attempts := attempts[key := entries];
      if |entries| >= maxAttempts {
        return true, RetryAfter(windowSeconds, now, entries[0]);
      }
      return false, 0;
    }

    method AddAttempt(key: string, now: int)
      modifies this
      ensures !enabled ==> attempts == old(attempts)
      ensures enabled ==> attempts == AfterAdd(old(attempts), key, now - windowSeconds, now)
      ensures old(Valid(now)) ==> Valid(now)
    {
      if !enabled {
        return;
      }
      if Valid(now) {
        OperationsKeepOrder(attempts, key, now - windowSeconds, now, now);
      }
      var entries := Prune(Entries(attempts, key), now);
      attempts := attempts[key := entries + [now]];
    }

    method Reset(key: string)
      modifies this
      ensures !enabled ==> attempts == old(attempts)
      ensures enabled ==> attempts == AfterReset(old(attempts), key)
      ensures forall now :: old(Valid(now)) ==> Valid(now)
    {
      if !enabled {
        return;
      }
      forall now | Valid(now) ensures WellOrdered(AfterReset(attempts, key), now) {
        OperationsKeepOrder(attempts, key, now, now, now);
      }
      attempts := attempts - {key};
    }
  }
}
