/** The rate limiter object of internal/auth/ratelimit.go. */
module RateLimiter {
  import opened Wrappers
  import T = TokenBucket
  import A = AuthBlocks
  import Strings

  class Bucket {
    var tokens: real
    var lastRefill: real
    var lastAccess: real

    constructor (tokens: real, now: real)
      ensures Value() == T.Bucket(tokens, now) && InStep()
    {
      this.tokens, lastRefill, lastAccess := tokens, now, now;
    }

    ghost function Value(): T.Bucket
      reads this
    {
      T.Bucket(tokens, lastRefill)
    }

    /** The two times are one, as `T.Bucket` has it. */
    ghost predicate InStep()
      reads this
    {
      lastRefill == lastAccess
    }
  }

  datatype Age = Age(key: string, lastAccess: real)

  predicate Older(x: Age, y: Age) {
    x.lastAccess < y.lastAccess
  }

  lemma OlderWeakOrder()
    ensures Strings.WeakOrder(Older)
  {
  }

  ghost predicate Distinct(ages: seq<Age>) {
    forall i, j :: 0 <= i < j < |ages| ==> ages[i].key != ages[j].key
  }

  lemma PermutedDistinct(a: seq<Age>, b: seq<Age>)
    requires Distinct(a) && multiset(a) == multiset(b)
    ensures Distinct(b) && |a| == |b| && forall x :: x in a <==> x in b
  {
    Strings.PermutedUnique(a, b);
    forall i, j | 0 <= i < j < |b| ensures b[i].key != b[j].key {
      var p :| 0 <= p < |a| && a[p] == b[i];
      var q :| 0 <= q < |a| && a[q] == b[j];
      assert b[i] != b[j];
    }
  }

  /** The block has run out, or the window started more than ten minutes ago. */
  ghost predicate LongGone(b: A.Bucket, now: int) {
    || (b.blockedUntil.Some? && b.blockedUntil.value < now)
    || b.windowStart + 600_000_000_000 < now
  }

  /** A failure drops other entries only when it does not block, there are more than a thousand, and they are over. */
  lemma DroppedByFailure(m: A.Failures, ip: string, now: int)
    ensures forall k :: k in m && k != ip && k !in A.AfterFailure(m, ip, now) ==>
              !A.Blocks(m, ip, now) && |m.Keys + {ip}| > 1000 && LongGone(m[k], now)
  {
    hide A.Counted;
    var all := m[ip := A.Counted(A.BucketFor(m, ip, now), now)];
    assert all.Keys == m.Keys + {ip} && |all.Keys| == |all|;
  }

  class RateLimiter {
    const config: T.Config
    const ttl: real
    const maxEntries: nat
    var buckets: map<string, Bucket>
    var authFailures: A.Failures

    constructor (config: T.Config, ttl: real, maxEntries: nat)
      ensures buckets == map[] && authFailures == map[]
      ensures this.config == config && this.ttl == ttl && this.maxEntries == maxEntries
    {
      this.config, this.ttl, this.maxEntries := config, ttl, maxEntries;
      buckets, authFailures := map[], map[];
    }

    /** Every bucket was accessed when it was last refilled. */
    ghost predicate AllInStep()
      reads this, buckets.Values
    {
      forall k :: k in buckets ==> buckets[k].InStep()
    }

    /** Buckets are only removed, and each removed one was unused for at least as long as every one kept. */
    ghost predicate OldestGone(all: map<string, Bucket>, kept: map<string, Bucket>)
      reads all.Values
    {
      && (forall k :: k in kept ==> k in all && kept[k] == all[k])
      && (forall k, l :: k in all && k !in kept && l in kept ==> all[k].lastAccess <= all[l].lastAccess)
    }

    lemma VictimsCount(all: map<string, Bucket>, victims: seq<string>, kept: map<string, Bucket>)
      requires Strings.Unique(victims) && forall i :: 0 <= i < |victims| ==> victims[i] in all
      requires kept == all - (set k | k in victims)
      ensures |kept| == |all| - |victims|
    {
      var gone := set k | k in victims;
      Strings.UniqueSize(victims);
      assert kept.Keys == all.Keys - gone;
      assert |all.Keys| == |all| && |kept.Keys| == |kept|;
    }

    /** The first half of Allow. A new bucket is full; more buckets than allowed push out the oldest. */
    method FindBucket(key: string, now: real) returns (b: Bucket)
      modifies this`buckets
      ensures old(AllInStep()) ==> AllInStep() && b.InStep()
      ensures key in old(buckets) ==> b == old(buckets)[key] && buckets == old(buckets)
      ensures key !in old(buckets) ==>
                && fresh(b) && b.Value() == T.New(config, now) && b.InStep()
                && (|old(buckets)[key := b]| <= maxEntries ==> buckets == old(buckets)[key := b])
                && (|old(buckets)[key := b]| > maxEntries ==> |buckets| == maxEntries)
                && OldestGone(old(buckets)[key := b], buckets)
                && (maxEntries > 0 && (forall k :: k in old(buckets) ==> old(buckets)[k].lastAccess < now) ==>
                      key in buckets && buckets[key] == b)
    {
      if key in buckets {
        b := buckets[key];
      } else {
        b := new Bucket(config.burst as real, now);
        buckets := buckets[key := b];
        ghost var all := buckets;
        MakeRoom();
        assert all[key] == b && b.lastAccess == now;
        NewestKept(all, buckets, key);
      }
    }

    /** When there are more buckets than allowed, the oldest of them go. */
    method MakeRoom()
      modifies this`buckets
      ensures if |old(buckets)| <= maxEntries then buckets == old(buckets) else |buckets| == maxEntries
      ensures OldestGone(old(buckets), buckets)
    {
      if |buckets| > maxEntries {
        ghost var all := buckets;
        var victims := EvictOldest(|buckets| - maxEntries);
        VictimsCount(all, victims, buckets);
      }
    }

    lemma NewestKept(all: map<string, Bucket>, kept: map<string, Bucket>, key: string)
      requires OldestGone(all, kept) && key in all
      ensures kept != map[] && (forall k :: k in all && k != key ==> all[k].lastAccess < all[key].lastAccess) ==>
                key in kept && kept[key] == all[key]
    {
      if kept != map[] && key !in kept {
        var k :| k in kept;
        assert all[key].lastAccess <= all[k].lastAccess;
      }
    }

    /** The second half of Allow, on the bucket found, wherever it is by now. */
    method TakeToken(b: Bucket, now: real) returns (ok: bool)
      modifies b
      ensures ok == T.Allows(old(b.Value()), config, now)
      ensures b.Value() == T.AfterTake(old(b.Value()), config, now) && b.InStep()
      ensures old(AllInStep()) ==> AllInStep()
    {
      hide T.Gain;
      var elapsed := now - b.lastRefill;
      b.tokens := b.tokens + T.Gain(config, elapsed);
      if b.tokens > config.burst as real {
        b.tokens := config.burst as real;
      }
      b.lastRefill, b.lastAccess := now, now;
      if b.tokens < 1.0 {
        return false;
      }
      b.tokens := b.tokens - 1.0;
      ok := true;
    }

    method ListAges() returns (ages: seq<Age>)
      ensures Distinct(ages)
      ensures forall i :: 0 <= i < |ages| ==>
                ages[i].key in buckets && ages[i].lastAccess == buckets[ages[i].key].lastAccess
      ensures forall k :: k in buckets ==> Age(k, buckets[k].lastAccess) in ages
    {
      ages := [];
      var rest := buckets.Keys;
      while rest != {}
        invariant rest <= buckets.Keys && Distinct(ages)
        invariant forall i :: 0 <= i < |ages| ==>
                    ages[i].key in buckets.Keys - rest && ages[i].lastAccess == buckets[ages[i].key].lastAccess
        invariant forall k :: k in buckets.Keys - rest ==> Age(k, buckets[k].lastAccess) in ages
        decreases rest
      {
        var k :| k in rest;
        ages := ages + [Age(k, buckets[k].lastAccess)];
        rest := rest - {k};
      }
    }

    method SortAges(ages: seq<Age>) returns (sorted: seq<Age>)
      requires Distinct(ages)
      ensures Strings.SortedBy(sorted, Older) && Distinct(sorted) && forall x :: x in sorted <==> x in ages
      ensures |sorted| == |ages|
    {
      hide Strings.WeakOrder;
      var a := new Age[|ages|](i requires 0 <= i < |ages| => ages[i]);
      assert a[..] == ages;
      OlderWeakOrder();
      Strings.InsertionSort(a, Older);
      sorted := a[..];
      PermutedDistinct(ages, sorted);
    }

    method OldestFirst() returns (sorted: seq<Age>)
      ensures Strings.SortedBy(sorted, Older) && Distinct(sorted)
      ensures forall i :: 0 <= i < |sorted| ==>
                sorted[i].key in buckets && sorted[i].lastAccess == buckets[sorted[i].key].lastAccess
      ensures forall k :: k in buckets ==> Age(k, buckets[k].lastAccess) in sorted
    {
      hide Strings.SortedBy, Distinct;
      var ages := ListAges();
      sorted := SortAges(ages);
      forall i | 0 <= i < |sorted|
        ensures sorted[i].key in buckets && sorted[i].lastAccess == buckets[sorted[i].key].lastAccess
      {
        assert sorted[i] in ages;
      }
    }

    /** Removes the n buckets that were not used for longest, or all when there are fewer. */
    method EvictOldest(n: nat) returns (victims: seq<string>)
      modifies this`buckets
      ensures Strings.Unique(victims) && (|victims| == n || buckets == map[])
      ensures |victims| <= n
      ensures buckets == old(buckets) - (set k | k in victims)
      ensures forall i :: 0 <= i < |victims| ==> victims[i] in old(buckets)
      ensures forall i, k :: 0 <= i < |victims| && k in buckets ==>
              old(buckets)[victims[i]].lastAccess <= buckets[k].lastAccess
    {
      hide Strings.SortedBy, Distinct;
      var sorted := OldestFirst();
      var m := if n > |sorted| then |sorted| else n;
      victims := [];
      var i := 0;
      while i < m
        invariant 0 <= i <= m && |victims| == i
        invariant forall j :: 0 <= j < i ==> victims[j] == sorted[j].key
        invariant buckets == old(buckets) - (set k | k in victims)
      {
        victims := victims + [sorted[i].key];
        buckets := buckets - {sorted[i].key};
        i := i + 1;
      }
      EvictedOldest(old(buckets), sorted, victims, buckets);
    }

    /** Removes the buckets not used within the time to live. */
    method EvictStale(now: real) returns (evicted: nat)
      modifies this`buckets
      ensures forall k :: k in buckets <==> k in old(buckets) && !(old(buckets)[k].lastAccess < now - ttl)
      ensures forall k :: k in buckets ==> buckets[k] == old(buckets)[k]
      ensures evicted == |old(buckets)| - |buckets|
      ensures old(AllInStep()) ==>
                AllInStep() && forall k :: k in old(buckets) ==>
                  (k !in buckets <==> T.Expired(old(buckets[k].Value()), ttl, now))
    {
      var rest := buckets.Keys;
      evicted := 0;
      while rest != {}
        invariant rest <= old(buckets).Keys && rest <= buckets.Keys
        invariant forall k :: k in buckets <==>
                    k in rest || (k in old(buckets) && !(old(buckets)[k].lastAccess < now - ttl))
        invariant forall k :: k in buckets ==> k in old(buckets) && buckets[k] == old(buckets)[k]
        invariant evicted == |old(buckets)| - |buckets|
        decreases rest
      {
        var k :| k in rest;
        if buckets[k].lastAccess < now - ttl {
          buckets := buckets - {k};
          evicted := evicted + 1;
        }
        rest := rest - {k};
      }
    }

    // ---- Failed authentications ----

    method AuthFailure(ip: string, now: int) returns (blocked: bool)
      modifies this`authFailures
      ensures authFailures == A.AfterFailure(old(authFailures), ip, now)
      ensures blocked == A.Blocks(old(authFailures), ip, now)
      ensures forall k :: k in old(authFailures) && k != ip && k !in authFailures ==>
                !blocked && |old(authFailures).Keys + {ip}| > 1000 && LongGone(old(authFailures)[k], now)
    {
      hide A.EvictStale, LongGone;
      DroppedByFailure(authFailures, ip, now);
      var b := if ip in authFailures then authFailures[ip] else A.Bucket(0, now, None);
      if now - b.windowStart > A.WINDOW {
        b := b.(failures := 0, windowStart := now);
      }
      b := b.(failures := b.failures + 1);
      if b.failures >= A.MAX_FAILURES {
        b := b.(blockedUntil := Some(now + A.BLOCK));
        authFailures := authFailures[ip := b];
        return true;
      }
      authFailures := authFailures[ip := b];
      if |authFailures| > 1000 {
        EvictStaleAuth(now);
      }
      blocked := false;
    }

    method EvictStaleAuth(now: int)
      modifies this`authFailures
      ensures authFailures == A.EvictStale(old(authFailures), now)
      ensures forall k :: k in old(authFailures) ==> (k !in authFailures <==> LongGone(old(authFailures)[k], now))
    {
      var rest := authFailures.Keys;
      while rest != {}
        invariant rest <= old(authFailures).Keys && rest <= authFailures.Keys
        invariant forall k :: k in authFailures <==>
                    k in rest || (k in old(authFailures) && !A.Stale(old(authFailures)[k], now))
        invariant forall k :: k in authFailures ==> k in old(authFailures) && authFailures[k] == old(authFailures)[k]
        decreases rest
      {
        var k :| k in rest;
        var b := authFailures[k];
        if b.blockedUntil.Some? && now > b.blockedUntil.value {
          authFailures := authFailures - {k};
        } else if now - b.windowStart > A.EVICT {
          authFailures := authFailures - {k};
        }
        rest := rest - {k};
      }
    }

    method IsAuthBlocked(ip: string, now: int) returns (blocked: bool)
      modifies this`authFailures
      ensures blocked == A.IsBlocked(old(authFailures), ip, now)
      ensures authFailures == A.AfterAsk(old(authFailures), ip, now)
    {
      if ip !in authFailures {
        return false;
      }
      var b := authFailures[ip];
      if b.blockedUntil.Some? && now < b.blockedUntil.value {
        return true;
      }
      if b.blockedUntil.Some? {
        authFailures := authFailures - {ip};
      }
      blocked := false;
    }

    /** Ends any block of that address at once and starts its count anew; no other address is affected. */
    method AuthSuccess(ip: string, ghost now: int)
      modifies this`authFailures
      ensures authFailures == A.Step(old(authFailures), A.Success(ip, now))
      ensures forall t :: !A.IsBlocked(authFailures, ip, t) && !A.Blocks(authFailures, ip, t)
      ensures forall k, t :: k != ip ==> A.IsBlocked(authFailures, k, t) == A.IsBlocked(old(authFailures), k, t)
    {
      authFailures := authFailures - {ip};
    }
  }

  lemma EvictedOldest(before: map<string, Bucket>, sorted: seq<Age>, victims: seq<string>, after: map<string, Bucket>)
    requires Strings.SortedBy(sorted, Older) && Distinct(sorted) && |victims| <= |sorted|
    requires forall j :: 0 <= j < |victims| ==> victims[j] == sorted[j].key
    requires forall i :: 0 <= i < |sorted| ==>
               sorted[i].key in before && sorted[i].lastAccess == before[sorted[i].key].lastAccess
    requires forall k :: k in before ==> Age(k, before[k].lastAccess) in sorted
    requires after == before - (set k | k in victims)
    ensures Strings.Unique(victims) && (|victims| == |sorted| ==> after == map[])
    ensures forall i :: 0 <= i < |victims| ==> victims[i] in before
    ensures forall i, k :: 0 <= i < |victims| && k in after ==> before[victims[i]].lastAccess <= after[k].lastAccess
  {
    forall k | k in after ensures exists j :: |victims| <= j < |sorted| && sorted[j] == Age(k, before[k].lastAccess) {
      var j :| 0 <= j < |sorted| && sorted[j] == Age(k, before[k].lastAccess);
      assert k !in victims;
    }
    forall i, k | 0 <= i < |victims| && k in after ensures before[victims[i]].lastAccess <= after[k].lastAccess {
      var j :| |victims| <= j < |sorted| && sorted[j] == Age(k, before[k].lastAccess);
      assert !Older(sorted[j], sorted[i]);
    }
  }
}
