/** The per-key sliding-window limiter of the auth endpoints (server/main.py:250-291). */
module RateLimiter {

  type Time = real
  type Stamps = seq<Time>

  // ---- The limiter that forgets nothing ----

  /** How many of the stamps lie within the window ending now. */
  function InWindow(all: Stamps, now: Time, window: Time): nat {
    if |all| == 0 then 0
    else InWindow(all[..|all| - 1], now, window) + if now - all[|all| - 1] <= window then 1 else 0
  }

  /** Accept when fewer than `max` accepted attempts lie within the window; 0 switches limiting off. */
  predicate Accepts(all: Stamps, now: Time, window: Time, max: nat) {
    max == 0 || InWindow(all, now, window) < max
  }

  ghost predicate Ordered(all: Stamps) {
    forall i, j :: 0 <= i <= j < |all| ==> all[i] <= all[j]
  }

  // ---- Forgetting what is out of the window ----

  /** The bucket is the end of the whole history, and what it lacks is out of the window. */
  ghost predicate Prunes(all: Stamps, bucket: Stamps, now: Time, window: Time) {
    && |bucket| <= |all| && all[|all| - |bucket|..] == bucket
    && forall i :: 0 <= i < |all| - |bucket| ==> now - all[i] > window
  }

  lemma {:induction false} OldStampsDoNotCount(all: Stamps, n: nat, now: Time, window: Time)
    requires n <= |all| && forall i :: 0 <= i < n ==> now - all[i] > window
    ensures InWindow(all, now, window) == InWindow(all[n..], now, window)
  {
    if n == |all| {
      if n > 0 { OldStampsDoNotCount(all[..n - 1], n - 1, now, window); }
    } else {
      var k := |all| - 1;
      OldStampsDoNotCount(all[..k], n, now, window);
      assert all[n..][..|all[n..]| - 1] == all[..k][n..];
    }
  }

  lemma {:induction false} AllCount(all: Stamps, now: Time, window: Time)
    requires forall i :: 0 <= i < |all| ==> now - all[i] <= window
    ensures InWindow(all, now, window) == |all|
  {
    if |all| > 0 { AllCount(all[..|all| - 1], now, window); }
  }

  /** Once the old stamps at its front are gone, the length of a bucket is the number of accepted
      attempts within the window. */
  lemma BucketCounts(all: Stamps, bucket: Stamps, now: Time, window: Time)
    requires Ordered(all) && Prunes(all, bucket, now, window)
    requires |bucket| > 0 ==> now - bucket[0] <= window
    ensures |bucket| == InWindow(all, now, window)
  {
    var n := |all| - |bucket|;
    OldStampsDoNotCount(all, n, now, window);
    forall i | 0 <= i < |bucket|
      ensures now - bucket[i] <= window
    {
      assert bucket[0] == all[n] && bucket[i] == all[n + i];
    }
    AllCount(bucket, now, window);
  }

  lemma PrunesLater(all: Stamps, bucket: Stamps, was: Time, now: Time, window: Time)
    requires Prunes(all, bucket, was, window) && was <= now
    ensures Prunes(all, bucket, now, window)
  {}

  /** An attempt is turned away exactly when the last `max` accepted ones all lie within the window. */
  lemma TurnedAway(all: Stamps, now: Time, window: Time, max: nat)
    requires max > 0 && Ordered(all) && forall t :: t in all ==> t <= now
    ensures !Accepts(all, now, window, max) <==> |all| >= max && now - all[|all| - max] <= window
  {
    var i := |all| - max;
    if i >= 0 && now - all[i] <= window {
      forall k | i <= k < |all| ensures now - all[k] <= window {
        assert all[i] <= all[k];
      }
      RecentCount(all, i, now, window);
    } else if i >= 0 {
      forall k | 0 <= k < i + 1 ensures now - all[k] > window {
        assert all[k] <= all[i];
      }
      OldStampsDoNotCount(all, i + 1, now, window);
      CountAtMost(all[i + 1..], now, window);
    } else {
      CountAtMost(all, now, window);
    }
  }

  lemma {:induction false} CountAtMost(all: Stamps, now: Time, window: Time)
    ensures InWindow(all, now, window) <= |all|
  {
    if |all| > 0 { CountAtMost(all[..|all| - 1], now, window); }
  }

  // ---- What the limit promises ----

  /** Any max + 1 consecutive accepted attempts span more than the window. */
  ghost predicate Spaced(all: Stamps, window: Time, max: nat) {
    forall i, j :: 0 <= i && j == i + max && j < |all| ==> all[j] - all[i] > window
  }

  /** From n on everything lies within the window: then at least that many count. */
  lemma {:induction false} RecentCount(all: Stamps, n: nat, now: Time, window: Time)
    requires n <= |all| && forall i :: n <= i < |all| ==> now - all[i] <= window
    ensures InWindow(all, now, window) >= |all| - n
  {
    if n < |all| { RecentCount(all[..|all| - 1], n, now, window); }
  }

  /** An accepted attempt keeps the spacing. */
  lemma SpacedStays(all: Stamps, now: Time, window: Time, max: nat)
    requires max > 0 && Ordered(all) && Spaced(all, window, max) && Accepts(all, now, window, max)
    requires forall t :: t in all ==> t <= now
    ensures Ordered(all + [now]) && Spaced(all + [now], window, max)
  {
    var next, i := all + [now], |all| - max;
    forall k | 0 <= k < |all| ensures next[k] == all[k] && all[k] <= now {
      assert all[k] in all;
    }
    if i >= 0 && now - all[i] <= window {
      forall k | i <= k < |all| ensures now - all[k] <= window {
        assert all[i] <= all[k];
      }
      RecentCount(all, i, now, window);
      assert false;
    }
  }

  /** The accepted ones of a sequence of attempts. */
  function AcceptedOf(attempts: Stamps, window: Time, max: nat): Stamps {
    if |attempts| == 0 then []
    else
      var before, now := AcceptedOf(attempts[..|attempts| - 1], window, max), attempts[|attempts| - 1];
      if Accepts(before, now, window, max) then before + [now] else before
  }

  /** With clocks that never go back, no window holds more than max accepted attempts. */
  lemma {:induction false} LimitHolds(attempts: Stamps, window: Time, max: nat)
    requires max > 0 && Ordered(attempts)
    ensures Ordered(AcceptedOf(attempts, window, max)) && Spaced(AcceptedOf(attempts, window, max), window, max)
    ensures forall t :: t in AcceptedOf(attempts, window, max) ==> t in attempts
  {
    if |attempts| > 0 {
      var n := |attempts| - 1;
      var before := AcceptedOf(attempts[..n], window, max);
      LimitHolds(attempts[..n], window, max);
      if Accepts(before, attempts[n], window, max) {
        forall t | t in before ensures t <= attempts[n] {
          var i :| 0 <= i < n && attempts[i] == t;
        }
        SpacedStays(before, attempts[n], window, max);
      }
    }
  }

  // ---- The limiter that prunes ----

  ghost predicate KeyValid(all: Stamps, bucket: Stamps, now: Time, window: Time, max: nat) {
    && Ordered(all) && (max > 0 ==> Spaced(all, window, max))
    && (forall t :: t in all ==> t <= now)
    && Prunes(all, bucket, now, window)
  }

  lemma KeyValidLater(all: Stamps, bucket: Stamps, was: Time, now: Time, window: Time, max: nat)
    requires KeyValid(all, bucket, was, window, max) && was <= now
    ensures KeyValid(all, bucket, now, window, max)
  {
    PrunesLater(all, bucket, was, now, window);
  }

  lemma KeyValidAppend(all: Stamps, bucket: Stamps, now: Time, window: Time, max: nat)
    requires KeyValid(all, bucket, now, window, max) && max > 0 && Accepts(all, now, window, max)
    ensures KeyValid(all + [now], bucket + [now], now, window, max)
  {
    SpacedStays(all, now, window, max);
    AppendPrunes(all, bucket, now, window);
  }

  class Limiter {
    const window: Time
    const max: nat
    const bucketLimit: nat
    var buckets: map<string, Stamps>
    /** Every accepted attempt, and the latest time the limiter has been asked. */
    ghost var accepted: map<string, Stamps>
    ghost var clock: Time

    ghost function Accepted(key: string): Stamps
      reads `accepted
    {
      if key in accepted then accepted[key] else []
    }

    /** `defaultdict(deque)`. */
    function Bucket(key: string): Stamps
      reads `buckets
    {
      if key in buckets then buckets[key] else []
    }

    /** Each bucket is its key's accepted attempts without some that are out of the window for good. */
    ghost predicate ValidAt(now: Time)
      reads `accepted, `buckets
    {
      forall key :: KeyValid(Accepted(key), Bucket(key), now, window, max)
    }

    ghost predicate Valid()
      reads this
    {
      ValidAt(clock)
    }

    constructor (window: Time, max: nat, bucketLimit: nat, now: Time)
      ensures Valid() && clock == now && accepted == map[]
      ensures this.window == window && this.max == max
    {
      this.window, this.max, this.bucketLimit := window, max, bucketLimit;
      buckets, accepted, clock := map[], map[], now;
    }

    lemma ValidLater(now: Time)
      requires Valid() && clock <= now
      ensures ValidAt(now)
    {
      forall key
        ensures KeyValid(Accepted(key), Bucket(key), now, window, max)
      {
        KeyValidLater(Accepted(key), Bucket(key), clock, now, window, max);
      }
    }

    /** `while bucket and now - bucket[0] > WINDOW: bucket.popleft()`. */
    method DropOld(was: Stamps, ghost history: Stamps, now: Time) returns (bucket: Stamps)
      requires Prunes(history, was, now, window)
      ensures Prunes(history, bucket, now, window)
      ensures |bucket| > 0 ==> now - bucket[0] <= window
    {
      bucket := was;
      while |bucket| > 0 && now - bucket[0] > window
        invariant Prunes(history, bucket, now, window)
      {
        bucket := bucket[1..];
      }
    }

    /** `_prune_rate_buckets`: no accepted attempt is forgotten that could still count. */
    method Prune(now: Time)
      requires Valid() && clock <= now
      modifies `buckets, `clock
      ensures Valid() && clock == now
    {
      ValidLater(now);
      clock := now;
      var todo := buckets.Keys;
      while todo != {}
        invariant ValidAt(now) && clock == now
        decreases todo
      {
        var key :| key in todo;
        PruneKey(key, now);
        todo := todo - {key};
      }
    }

    method PruneKey(key: string, now: Time)
      requires ValidAt(now)
      modifies `buckets
      ensures ValidAt(now)
    {
      assert KeyValid(Accepted(key), Bucket(key), now, window, max);
      var bucket := DropOld(Bucket(key), Accepted(key), now);
      SetBucket(key, bucket, now);
    }

    /** A bucket that has become empty is dropped. */
    method SetBucket(key: string, bucket: Stamps, now: Time)
      requires ValidAt(now) && KeyValid(Accepted(key), bucket, now, window, max)
      modifies `buckets
      ensures ValidAt(now)
    {
      if bucket == [] {
        buckets := buckets - {key};
      } else {
        buckets := buckets[key := bucket];
      }
      forall k
        ensures KeyValid(Accepted(k), Bucket(k), now, window, max)
      {
        assert k != key ==> Bucket(k) == old(Bucket(k));
      }
    }

    /** `_enforce_rate_limit`: the decision is that of the limiter that forgets nothing. */
    method Enforce(key: string, now: Time) returns (ok: bool)
      requires Valid() && clock <= now
      modifies this
      ensures Valid()
      ensures ok == Accepts(old(Accepted(key)), now, window, max)
      ensures Accepted(key) == old(Accepted(key)) + if ok && max > 0 then [now] else []
      ensures forall k :: k != key ==> Accepted(k) == old(Accepted(k))
      ensures clock == if max == 0 then old(clock) else now
    {
      if max == 0 { return true; }
      if |buckets| > bucketLimit {
        Prune(now);
      }
      ValidLater(now);
      clock := now;
      ok := Decide(key, now);
    }

    method Decide(key: string, now: Time) returns (ok: bool)
      requires ValidAt(now) && max > 0
      modifies `accepted, `buckets
      ensures ValidAt(now)
      ensures ok == Accepts(old(Accepted(key)), now, window, max)
      ensures Accepted(key) == old(Accepted(key)) + if ok then [now] else []
      ensures forall k :: k != key ==> Accepted(k) == old(Accepted(k))
    {
      assert KeyValid(Accepted(key), Bucket(key), now, window, max);
      var bucket := DropOld(Bucket(key), Accepted(key), now);
      BucketCounts(Accepted(key), bucket, now, window);
      ok := |bucket| < max;
      if ok {
        Append(key, bucket, now);
      } else {
        buckets := buckets[key := bucket];
        forall k
          ensures KeyValid(Accepted(k), Bucket(k), now, window, max)
        {
          assert k != key ==> Bucket(k) == old(Bucket(k));
        }
      }
    }

    /** `bucket.append(now)`. */
    method Append(key: string, bucket: Stamps, now: Time)
      requires ValidAt(now) && max > 0
      requires KeyValid(Accepted(key), bucket, now, window, max) && Accepts(Accepted(key), now, window, max)
      modifies `accepted, `buckets
      ensures ValidAt(now)
      ensures Accepted(key) == old(Accepted(key)) + [now]
      ensures forall k :: k != key ==> Accepted(k) == old(Accepted(k))
    {
      KeyValidAppend(Accepted(key), bucket, now, window, max);
      accepted := accepted[key := Accepted(key) + [now]];
      buckets := buckets[key := bucket + [now]];
      forall k
        ensures KeyValid(Accepted(k), Bucket(k), now, window, max)
      {
        assert k != key ==> Accepted(k) == old(Accepted(k)) && Bucket(k) == old(Bucket(k));
      }
    }
  }

  lemma AppendPrunes(all: Stamps, bucket: Stamps, now: Time, window: Time)
    requires Prunes(all, bucket, now, window)
    ensures Prunes(all + [now], bucket + [now], now, window)
  {
    var n := |all| - |bucket|;
    assert (all + [now])[n..] == all[n..] + [now];
  }
}
