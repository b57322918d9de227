/** The token bucket of one client key in internal/auth/ratelimit.go. Times are seconds. */
module TokenBucket {
  import opened Wrappers

  datatype Config = Config(rate: real, burst: nat)

  ghost predicate Sensible(c: Config) {
    c.rate >= 0.0
  }

  /** last is both the last refill and the last access: the code always sets the two together. */
  datatype Bucket = Bucket(tokens: real, last: real)

  /** Tokens gained in d seconds. */
  function Gain(c: Config, d: real): real {
    d * c.rate
  }

  lemma GainSplit(c: Config, x: real, y: real)
    ensures Gain(c, x) + Gain(c, y) == Gain(c, x + y)
  {
  }

  lemma GainNever(c: Config)
    ensures Gain(c, 0.0) == 0.0
  {
  }

  lemma GainMore(c: Config, x: real, y: real)
    requires Sensible(c) && x <= y
    ensures Gain(c, x) <= Gain(c, y)
  {
  }

  lemma GainPositive(c: Config, x: real)
    requires Sensible(c) && x >= 0.0
    ensures Gain(c, x) >= 0.0
  {
  }

  function Refilled(b: Bucket, c: Config, now: real): real {
    var t := b.tokens + Gain(c, now - b.last);
    if t > c.burst as real then c.burst as real else t
  }

  predicate Allows(b: Bucket, c: Config, now: real) {
    Refilled(b, c, now) >= 1.0
  }

  function AfterTake(b: Bucket, c: Config, now: real): Bucket {
    Bucket(if Allows(b, c, now) then Refilled(b, c, now) - 1.0 else Refilled(b, c, now), now)
  }

  function New(c: Config, now: real): Bucket {
    Bucket(c.burst as real, now)
  }

  // ---- Requests against one bucket ----

  function Outcomes(b: Bucket, c: Config, times: seq<real>): (r: seq<bool>)
    ensures |r| == |times|
    decreases times
  {
    if times == [] then [] else [Allows(b, c, times[0])] + Outcomes(AfterTake(b, c, times[0]), c, times[1..])
  }

  function Final(b: Bucket, c: Config, times: seq<real>): Bucket
    decreases times
  {
    if times == [] then b else Final(AfterTake(b, c, times[0]), c, times[1..])
  }

  function Allowed(r: seq<bool>): nat {
    if r == [] then 0 else (if r[0] then 1 else 0) + Allowed(r[1..])
  }

  ghost predicate Ordered(times: seq<real>) {
    forall i, j :: 0 <= i < j < |times| ==> times[i] <= times[j]
  }

  /** A bucket that can occur: neither in debt nor over the burst, and not ahead of the requests. */
  ghost predicate Proper(b: Bucket, c: Config, times: seq<real>) {
    0.0 <= b.tokens <= c.burst as real && (times != [] ==> b.last <= times[0])
  }

  lemma TakeProper(b: Bucket, c: Config, times: seq<real>)
    requires Sensible(c) && Ordered(times) && Proper(b, c, times) && times != []
    ensures Proper(AfterTake(b, c, times[0]), c, times[1..]) && Ordered(times[1..])
    ensures AfterTake(b, c, times[0]).tokens + (if Allows(b, c, times[0]) then 1.0 else 0.0)
            <= b.tokens + Gain(c, times[0] - b.last)
  {
    hide Gain;
    GainPositive(c, times[0] - b.last);
    assert c.burst as real >= 0.0;
  }

  function EndOf(b: Bucket, times: seq<real>): real {
    if times == [] then b.last else times[|times| - 1]
  }

  /** Tokens spent and left come from tokens there were and tokens gained. */
  lemma {:induction false} Spent(b: Bucket, c: Config, times: seq<real>)
    requires Sensible(c) && Ordered(times) && Proper(b, c, times)
    ensures 0.0 <= Final(b, c, times).tokens <= c.burst as real
    ensures Final(b, c, times).last == EndOf(b, times)
    ensures Allowed(Outcomes(b, c, times)) as real + Final(b, c, times).tokens <=
            b.tokens + Gain(c, EndOf(b, times) - b.last)
    decreases times
  {
    hide Gain, Allows, AfterTake, Proper, Ordered;
    if times == [] {
      GainNever(c);
      ProperBounds(b, c, times);
    } else {
      var b' := AfterTake(b, c, times[0]);
      TakeProper(b, c, times);
      Spent(b', c, times[1..]);
      assert Outcomes(b, c, times)[1..] == Outcomes(b', c, times[1..]);
      assert b'.last == times[0] by { TakeTime(b, c, times[0]); }
      GainSplit(c, times[0] - b.last, EndOf(b, times) - times[0]);
    }
  }

  lemma ProperBounds(b: Bucket, c: Config, times: seq<real>)
    requires Proper(b, c, times)
    ensures 0.0 <= b.tokens <= c.burst as real
  {
  }

  lemma TakeTime(b: Bucket, c: Config, now: real)
    ensures AfterTake(b, c, now).last == now
  {
  }

  lemma {:induction false} OutcomesAppend(b: Bucket, c: Config, x: seq<real>, y: seq<real>)
    ensures Outcomes(b, c, x + y) == Outcomes(b, c, x) + Outcomes(Final(b, c, x), c, y)
    ensures Final(b, c, x + y) == Final(Final(b, c, x), c, y)
    decreases x
  {
    hide Allows, AfterTake;
    if x == [] {
      assert x + y == y;
    } else {
      assert (x + y)[1..] == x[1..] + y;
      OutcomesAppend(AfterTake(b, c, x[0]), c, x[1..], y);
    }
  }

  lemma OutcomesSlice(b: Bucket, c: Config, times: seq<real>, i: nat, j: nat)
    requires i <= j <= |times|
    ensures Outcomes(b, c, times)[i..j] == Outcomes(Final(b, c, times[..i]), c, times[i..j])
  {
    hide Outcomes, Final;
    assert times == times[..i] + times[i..] && times[i..] == times[i..j] + times[j..];
    OutcomesAppend(b, c, times[..i], times[i..]);
    OutcomesAppend(Final(b, c, times[..i]), c, times[i..j], times[j..]);
  }

  /** A bucket and the same bucket topped up to the first request give the same answers. */
  lemma ToppedUp(b: Bucket, c: Config, times: seq<real>)
    requires times != []
    ensures Outcomes(b, c, times) == Outcomes(Bucket(Refilled(b, c, times[0]), times[0]), c, times)
  {
    var b' := Bucket(Refilled(b, c, times[0]), times[0]);
    GainNever(c);
    assert Refilled(b', c, times[0]) == Refilled(b, c, times[0]);
    assert AfterTake(b', c, times[0]) == AfterTake(b, c, times[0]);
  }

  /** The first request of a window sees at most a full bucket. */
  lemma SpentFrom(b: Bucket, c: Config, times: seq<real>)
    requires Sensible(c) && Ordered(times) && times != [] && Proper(b, c, times)
    ensures Allowed(Outcomes(b, c, times)) as real <= c.burst as real + Gain(c, times[|times| - 1] - times[0])
  {
    hide Outcomes, Final, Allowed, Gain;
    ToppedUp(b, c, times);
    var b2 := Bucket(Refilled(b, c, times[0]), times[0]);
    GainPositive(c, times[0] - b.last);
    assert c.burst as real >= 0.0;
    Spent(b2, c, times);
  }

  /** Requests number i up to j, all within a window of length T, are allowed at most burst + rate * T times. */
  lemma WindowBound(b: Bucket, c: Config, times: seq<real>, i: nat, j: nat, T: real)
    requires Sensible(c) && Ordered(times) && Proper(b, c, times)
    requires i < j <= |times| && times[j - 1] - times[i] <= T
    ensures Allowed(Outcomes(b, c, times)[i..j]) as real <= c.burst as real + Gain(c, T)
  {
    hide Outcomes, Final, Allowed, Gain;
    var mid := times[i..j];
    Spent(b, c, times[..i]);
    OutcomesSlice(b, c, times, i, j);
    SpentFrom(Final(b, c, times[..i]), c, mid);
    GainMore(c, times[j - 1] - times[i], T);
  }

  // ---- Which requests are allowed ----

  lemma RateTimes(c: Config, d: real)
    ensures Gain(c, d) == c.rate * d
  {
  }

  /** What the window from request j leaves for request i. */
  ghost function Room(c: Config, ok: seq<bool>, times: seq<real>, j: nat, i: nat): real
    requires j <= i < |times| && |ok| == |times|
  {
    c.burst as real + Gain(c, times[i] - times[j]) - Allowed(ok[j..i]) as real
  }

  lemma RoomTail(c: Config, ok: seq<bool>, times: seq<real>, j: nat, i: nat)
    requires 1 <= j <= i < |times| && |ok| == |times|
    ensures Room(c, ok, times, j, i) == Room(c, ok[1..], times[1..], j - 1, i - 1)
  {
    hide Gain, Allowed;
    assert ok[j..i] == ok[1..][j - 1..i - 1];
  }

  lemma AllowedFirst(ok: seq<bool>, i: nat)
    requires 1 <= i <= |ok|
    ensures Allowed(ok[0..i]) == (if ok[0] then 1 else 0) + Allowed(ok[1..][0..i - 1])
  {
    assert ok[0..i][1..] == ok[1..][0..i - 1];
  }

  lemma {:induction false} ExactFrom(b: Bucket, c: Config, times: seq<real>, i: nat)
    requires i < |times|
    ensures var ok := Outcomes(b, c, times);
            ok[i] <==> && b.tokens + Gain(c, times[i] - b.last) - Allowed(ok[0..i]) as real >= 1.0
                       && forall j :: 0 <= j <= i ==> Room(c, ok, times, j, i) >= 1.0
    decreases i
  {
    hide Gain, Allowed;
    var ok := Outcomes(b, c, times);
    if i == 0 {
      NothingAllowed(ok);
      GainNever(c);
      assert times[0] - times[0] == 0.0;
    } else {
      var b', rest := AfterTake(b, c, times[0]), times[1..];
      ExactFrom(b', c, rest, i - 1);
      assert ok[1..] == Outcomes(b', c, rest) && rest[i - 1] == times[i];
      FirstTerm(b, c, times, i);
      TailRooms(c, ok, times, i, i - 1);
    }
  }

  lemma NothingAllowed(ok: seq<bool>)
    ensures Allowed(ok[0..0]) == 0
  {
    assert ok[0..0] == [];
  }

  /** The bucket after the first request stands for two bounds: from before it, and from it on. */
  lemma FirstTerm(b: Bucket, c: Config, times: seq<real>, i: nat)
    requires 1 <= i < |times|
    ensures var ok, b' := Outcomes(b, c, times), AfterTake(b, c, times[0]);
            b'.tokens + Gain(c, times[i] - b'.last) - Allowed(ok[1..][0..i - 1]) as real >= 1.0 <==>
              && b.tokens + Gain(c, times[i] - b.last) - Allowed(ok[0..i]) as real >= 1.0
              && Room(c, ok, times, 0, i) >= 1.0
  {
    hide Gain, Allowed;
    var ok := Outcomes(b, c, times);
    AllowedFirst(ok, i);
    GainSplit(c, times[0] - b.last, times[i] - times[0]);
    assert times[0] - b.last + (times[i] - times[0]) == times[i] - b.last;
  }

  lemma TailRooms(c: Config, ok: seq<bool>, times: seq<real>, i: nat, h: nat)
    requires h + 1 == i < |times| && |ok| == |times|
    ensures (forall j :: 0 <= j <= h ==> Room(c, ok[1..], times[1..], j, h) >= 1.0) <==>
              forall j :: 1 <= j <= i ==> Room(c, ok, times, j, i) >= 1.0
  {
    hide Room;
    forall j | 1 <= j <= i ensures Room(c, ok, times, j, i) == Room(c, ok[1..], times[1..], j - 1, h) {
      RoomTail(c, ok, times, j, i);
    }
    if forall j :: 1 <= j <= i ==> Room(c, ok, times, j, i) >= 1.0 {
      forall j | 0 <= j <= h ensures Room(c, ok[1..], times[1..], j, h) >= 1.0 {
        var k := j + 1;
        assert Room(c, ok, times, k, i) >= 1.0;
      }
    } else {
      var j :| 1 <= j <= i && Room(c, ok, times, j, i) < 1.0;
      var k := j - 1;
      assert Room(c, ok[1..], times[1..], k, h) < 1.0;
    }
  }

  /** A request is refused exactly when allowing it would take some window that ends with it over
      burst + rate * time. */
  lemma AllowedExactly(c: Config, start: real, times: seq<real>, i: nat)
    requires Sensible(c) && Ordered(times) && i < |times| && start <= times[0]
    ensures var ok := Outcomes(New(c, start), c, times);
            ok[i] <==> forall j :: 0 <= j <= i ==>
                         Allowed(ok[j..i]) as real + 1.0 <= c.burst as real + c.rate * (times[i] - times[j])
  {
    hide Outcomes, Gain, Allowed;
    var b, ok := New(c, start), Outcomes(New(c, start), c, times);
    ExactFrom(b, c, times, i);
    forall j | 0 <= j <= i ensures Gain(c, times[i] - times[j]) == c.rate * (times[i] - times[j]) {
      RateTimes(c, times[i] - times[j]);
    }
    GainMore(c, times[i] - times[0], times[i] - start);
    if forall j :: 0 <= j <= i ==> Room(c, ok, times, j, i) >= 1.0 {
      assert Room(c, ok, times, 0, i) >= 1.0;
    }
    RoomsAre(c, ok, times, i);
  }

  lemma RoomsAre(c: Config, ok: seq<bool>, times: seq<real>, i: nat)
    requires i < |times| && |ok| == |times|
    ensures (forall j :: 0 <= j <= i ==> Room(c, ok, times, j, i) >= 1.0) <==>
              forall j :: 0 <= j <= i ==>
                Allowed(ok[j..i]) as real + 1.0 <= c.burst as real + c.rate * (times[i] - times[j])
  {
    hide Gain, Allowed;
    forall j | 0 <= j <= i
      ensures Room(c, ok, times, j, i) >= 1.0 <==>
                Allowed(ok[j..i]) as real + 1.0 <= c.burst as real + c.rate * (times[i] - times[j])
    {
      RateTimes(c, times[i] - times[j]);
    }
  }

  // ---- Eviction of buckets not used for a while ----

  /** The refill reaches the burst. */
  ghost predicate Saturated(b: Bucket, c: Config, now: real) {
    b.tokens + Gain(c, now - b.last) >= c.burst as real
  }

  /** From now on the two buckets cannot be told apart. */
  ghost predicate Same(b: Bucket, v: Bucket, c: Config, now: real) {
    b == v || (Saturated(b, c, now) && Saturated(v, c, now))
  }

  lemma StaysSaturated(b: Bucket, c: Config, now: real, t: real)
    requires Sensible(c) && Saturated(b, c, now) && now <= t
    ensures Saturated(b, c, t) && Refilled(b, c, t) == c.burst as real
  {
    hide Gain;
    GainMore(c, now - b.last, t - b.last);
  }

  lemma SameTakes(b: Bucket, v: Bucket, c: Config, now: real, t: real)
    requires Sensible(c) && Same(b, v, c, now) && now <= t
    ensures Allows(b, c, t) == Allows(v, c, t) && AfterTake(b, c, t) == AfterTake(v, c, t)
    ensures Same(b, v, c, t)
  {
    hide Gain, Saturated;
    if b != v {
      StaysSaturated(b, c, now, t);
      StaysSaturated(v, c, now, t);
    }
  }

  lemma NewSaturated(c: Config, start: real, now: real)
    requires Sensible(c) && start <= now
    ensures Saturated(New(c, start), c, now)
  {
    hide Gain;
    GainPositive(c, now - start);
  }

  predicate Expired(b: Bucket, ttl: real, now: real) {
    b.last < now - ttl
  }

  /** When the time to live refills a bucket, an expired one is as good as new. */
  lemma ExpiredSaturated(b: Bucket, c: Config, ttl: real, now: real)
    requires Sensible(c) && b.tokens >= 0.0 && Expired(b, ttl, now) && Gain(c, ttl) >= c.burst as real
    ensures Saturated(b, c, now)
  {
    hide Gain;
    GainMore(c, ttl, now - b.last);
  }

  // ---- One request after the other ----

  datatype Event = Request(at: real) | Sweep(at: real)

  function Answers(b: Option<Bucket>, c: Config, ttl: real, es: seq<Event>): seq<bool>
    decreases es
  {
    if es == [] then [] else
      match es[0]
      case Request(t) =>
        var b' := if b.None? then New(c, t) else b.value;
        [Allows(b', c, t)] + Answers(Some(AfterTake(b', c, t)), c, ttl, es[1..])
      case Sweep(t) => Answers(Swept(b, ttl, t), c, ttl, es[1..])
  }

  function Swept(b: Option<Bucket>, ttl: real, now: real): Option<Bucket> {
    if b.Some? && Expired(b.value, ttl, now) then None else b
  }

  function Requests(es: seq<Event>): seq<real> {
    if es == [] then [] else (if es[0].Request? then [es[0].at] else []) + Requests(es[1..])
  }

  ghost predicate InOrder(now: real, es: seq<Event>)
    decreases es
  {
    es == [] || (now <= es[0].at && InOrder(es[0].at, es[1..]))
  }

  /** b, or the bucket that would be created, answers as v does. */
  ghost predicate StandsFor(b: Option<Bucket>, v: Bucket, c: Config, now: real) {
    && (if b.None? then Saturated(v, c, now)
        else Same(b.value, v, c, now) && 0.0 <= b.value.tokens <= c.burst as real && b.value.last <= now)
  }

  lemma TakeBounds(b: Bucket, c: Config, now: real)
    requires Sensible(c) && 0.0 <= b.tokens <= c.burst as real && b.last <= now
    ensures 0.0 <= AfterTake(b, c, now).tokens <= c.burst as real && AfterTake(b, c, now).last == now
  {
    hide Gain;
    GainPositive(c, now - b.last);
  }

  lemma SweptStands(b: Option<Bucket>, v: Bucket, c: Config, ttl: real, now: real, t: real)
    requires Sensible(c) && StandsFor(b, v, c, now) && now <= t && Gain(c, ttl) >= c.burst as real
    ensures StandsFor(Swept(b, ttl, t), v, c, t)
  {
    hide Gain, Saturated;
    if b.None? {
      StaysSaturated(v, c, now, t);
    } else {
      SameTakes(b.value, v, c, now, t);
      if Expired(b.value, ttl, t) {
        ExpiredSaturated(b.value, c, ttl, t);
      }
    }
  }

  lemma RequestStands(b: Option<Bucket>, v: Bucket, c: Config, now: real, t: real)
    requires Sensible(c) && StandsFor(b, v, c, now) && now <= t
    ensures var b' := if b.None? then New(c, t) else b.value;
            && Allows(b', c, t) == Allows(v, c, t)
            && AfterTake(b', c, t) == AfterTake(v, c, t)
            && StandsFor(Some(AfterTake(b', c, t)), AfterTake(v, c, t), c, t)
  {
    hide Gain, Saturated, Allows, AfterTake;
    var b' := if b.None? then New(c, t) else b.value;
    if b.None? {
      StaysSaturated(v, c, now, t);
      NewSaturated(c, t, t);
      SameTakes(b', v, c, t, t);
    } else {
      SameTakes(b', v, c, now, t);
    }
    assert c.burst as real >= 0.0;
    TakeBounds(b', c, t);
  }

  lemma {:induction false} SweepsUnseen(b: Option<Bucket>, v: Bucket, c: Config, ttl: real, now: real, es: seq<Event>)
    requires Sensible(c) && Gain(c, ttl) >= c.burst as real
    requires StandsFor(b, v, c, now) && InOrder(now, es)
    ensures Answers(b, c, ttl, es) == Outcomes(v, c, Requests(es))
    decreases es
  {
    hide Gain, Saturated, Allows, AfterTake, StandsFor;
    if es != [] {
      match es[0]
      case Request(t) =>
        RequestStands(b, v, c, now, t);
        var b' := if b.None? then New(c, t) else b.value;
        SweepsUnseen(Some(AfterTake(b', c, t)), AfterTake(v, c, t), c, ttl, t, es[1..]);
        assert Requests(es)[1..] == Requests(es[1..]);
      case Sweep(t) =>
        SweptStands(b, v, c, ttl, now, t);
        SweepsUnseen(Swept(b, ttl, t), v, c, ttl, t, es[1..]);
        assert [] + Requests(es[1..]) == Requests(es[1..]);
    }
  }

  ghost predicate Unobservable(c: Config, ttl: real) {
    forall start, es :: InOrder(start, es) ==> Answers(None, c, ttl, es) == Outcomes(New(c, start), c, Requests(es))
  }

  // ---- A shorter time to live can be seen ----

  function Repeat<T>(x: T, n: nat): (r: seq<T>)
    ensures |r| == n && forall i :: 0 <= i < n ==> r[i] == x
  {
    if n == 0 then [] else [x] + Repeat(x, n - 1)
  }

  lemma {:induction false} Drain(b: Bucket, c: Config, t: real, n: nat)
    requires b.last == t && n as real <= b.tokens <= c.burst as real
    ensures Outcomes(b, c, Repeat(t, n)) == Repeat(true, n)
    ensures Final(b, c, Repeat(t, n)) == Bucket(b.tokens - n as real, t)
    decreases n
  {
    if n > 0 {
      hide Gain;
      GainNever(c);
      var b' := AfterTake(b, c, t);
      assert b' == Bucket(b.tokens - 1.0, t);
      assert Repeat(t, n)[1..] == Repeat(t, n - 1) && Repeat(true, n)[1..] == Repeat(true, n - 1);
      assert (n - 1) as real == n as real - 1.0;
      Drain(b', c, t, n - 1);
    }
  }

  lemma {:induction false} OnlyRequests(b: Bucket, c: Config, ttl: real, t: real, n: nat, es: seq<Event>)
    ensures Answers(Some(b), c, ttl, Repeat(Request(t), n) + es) ==
            Outcomes(b, c, Repeat(t, n)) + Answers(Some(Final(b, c, Repeat(t, n))), c, ttl, es)
    decreases n
  {
    hide Allows, AfterTake;
    var all := Repeat(Request(t), n) + es;
    if n == 0 {
      assert all == es;
    } else {
      assert all[0] == Request(t) && all[1..] == Repeat(Request(t), n - 1) + es;
      assert Repeat(t, n)[1..] == Repeat(t, n - 1);
      OnlyRequests(AfterTake(b, c, t), c, ttl, t, n - 1, es);
    }
  }

  lemma FirstRequests(c: Config, ttl: real, t: real, n: nat, es: seq<Event>)
    requires n > 0
    ensures Answers(None, c, ttl, Repeat(Request(t), n) + es) ==
            Answers(Some(New(c, t)), c, ttl, Repeat(Request(t), n) + es)
  {
    assert (Repeat(Request(t), n) + es)[0] == Request(t);
  }

  lemma SmallStep(r: real, gap: real) returns (e: real)
    requires r >= 0.0 && gap > 0.0
    ensures e > 0.0 && e * r < gap
  {
    e := gap / (2.0 * (r + 1.0));
    assert e * (2.0 * (r + 1.0)) == gap;
    assert e > 0.0;
    assert e * r == gap / 2.0 - e;
  }

  lemma {:induction false} RequestsRepeat(t: real, n: nat, es: seq<Event>)
    ensures Requests(Repeat(Request(t), n) + es) == Repeat(t, n) + Requests(es)
    decreases n
  {
    var all := Repeat(Request(t), n) + es;
    if n == 0 {
      assert all == es;
    } else {
      assert all[0] == Request(t) && all[1..] == Repeat(Request(t), n - 1) + es;
      RequestsRepeat(t, n - 1, es);
    }
  }

  lemma {:induction false} RepeatInOrder(now: real, t: real, n: nat, es: seq<Event>)
    requires now <= t && InOrder(t, es)
    ensures InOrder(now, Repeat(Request(t), n) + es)
    decreases n
  {
    var all := Repeat(Request(t), n) + es;
    if n == 0 {
      assert all == es;
      if es != [] {
        assert now <= es[0].at;
      }
    } else {
      assert all[0] == Request(t) && all[1..] == Repeat(Request(t), n - 1) + es;
      RepeatInOrder(t, t, n - 1, es);
    }
  }

  lemma {:induction false} AllTrue(n: nat)
    ensures Allowed(Repeat(true, n)) == n
  {
    if n > 0 {
      assert Repeat(true, n)[1..] == Repeat(true, n - 1);
      AllTrue(n - 1);
    }
  }

  /** Draining a bucket, waiting just over a short time to live, and asking for the whole burst again. */
  ghost function Probe(n: nat, d: real): seq<Event> {
    Repeat(Request(0.0), n) + ([Sweep(d)] + (Repeat(Request(d), n) + []))
  }

  lemma ProbeAnswers(c: Config, ttl: real, d: real)
    requires c.burst > 0 && 0.0 < d - ttl
    ensures Answers(None, c, ttl, Probe(c.burst, d)) == Repeat(true, c.burst) + Repeat(true, c.burst)
  {
    hide Answers, Outcomes, Final;
    var n := c.burst;
    var tail := Repeat(Request(d), n) + [];
    var rest := [Sweep(d)] + tail;
    FirstRequests(c, ttl, 0.0, n, rest);
    OnlyRequests(New(c, 0.0), c, ttl, 0.0, n, rest);
    Drain(New(c, 0.0), c, 0.0, n);
    var empty := Bucket(0.0, 0.0);
    assert New(c, 0.0).tokens - n as real == 0.0;
    SweepStep(empty, c, ttl, d, tail);
    FirstRequests(c, ttl, d, n, []);
    OnlyRequests(New(c, d), c, ttl, d, n, []);
    Drain(New(c, d), c, d, n);
    NoAnswers(Some(Final(New(c, d), c, Repeat(d, n))), c, ttl);
    assert Repeat(true, n) + [] == Repeat(true, n);
  }

  lemma SweepStep(b: Bucket, c: Config, ttl: real, d: real, tail: seq<Event>)
    requires Expired(b, ttl, d)
    ensures Answers(Some(b), c, ttl, [Sweep(d)] + tail) == Answers(None, c, ttl, tail)
  {
    assert ([Sweep(d)] + tail)[1..] == tail;
  }

  lemma NoAnswers(b: Option<Bucket>, c: Config, ttl: real)
    ensures Answers(b, c, ttl, []) == []
  {
  }

  lemma ProbeRequests(n: nat, d: real)
    requires d >= 0.0
    ensures Requests(Probe(n, d)) == Repeat(0.0, n) + Repeat(d, n) && InOrder(0.0, Probe(n, d))
  {
    hide Repeat;
    var tail := Repeat(Request(d), n) + [];
    var rest := [Sweep(d)] + tail;
    RequestsRepeat(0.0, n, rest);
    RequestsRepeat(d, n, []);
    assert rest[1..] == tail;
    assert [] + Requests(tail) == Requests(tail);
    assert Requests([]) == [] && Repeat(d, n) + [] == Repeat(d, n);
    RepeatInOrder(d, d, n, []);
    RepeatInOrder(0.0, 0.0, n, rest);
  }

  lemma Delay(c: Config, ttl: real) returns (d: real)
    requires Sensible(c) && Gain(c, ttl) < c.burst as real
    ensures d > ttl && Gain(c, d) < c.burst as real
  {
    var e := SmallStep(c.rate, c.burst as real - Gain(c, ttl));
    d := ttl + e;
    GainSplit(c, ttl, e);
  }

  lemma Differs<T>(a: seq<T>, x: seq<T>, y: seq<T>)
    requires x != y
    ensures a + x != a + y
  {
    assert (a + x)[|a|..] == x && (a + y)[|a|..] == y;
  }

  lemma ShortTimeSeen(c: Config, ttl: real)
    requires Sensible(c) && ttl >= 0.0 && Gain(c, ttl) < c.burst as real
    ensures !Unobservable(c, ttl)
  {
    hide Outcomes, Final, Answers, Gain, Probe, InOrder, Repeat, Allowed;
    GainPositive(c, ttl);
    var n := c.burst;
    var d := Delay(c, ttl);
    ProbeAnswers(c, ttl, d);
    ProbeRequests(n, d);
    Drain(New(c, 0.0), c, 0.0, n);
    OutcomesAppend(New(c, 0.0), c, Repeat(0.0, n), Repeat(d, n));
    NotAll(Bucket(0.0, 0.0), c, d, n);
    Differs(Repeat(true, n), Repeat(true, n), Outcomes(Bucket(0.0, 0.0), c, Repeat(d, n)));
    var es := Probe(n, d);
    assert Answers(None, c, ttl, es) != Outcomes(New(c, 0.0), c, Requests(es));
  }

  lemma NotAll(b: Bucket, c: Config, d: real, n: nat)
    requires Sensible(c) && b == Bucket(0.0, 0.0) && d >= 0.0 && Gain(c, d) < n as real
    ensures Outcomes(b, c, Repeat(d, n)) != Repeat(true, n)
  {
    hide Outcomes, Final, Gain;
    AllTrue(n);
    GainPositive(c, d);
    assert c.burst as real >= 0.0;
    Spent(b, c, Repeat(d, n));
  }

  lemma {:induction false} AllowedAppend(x: seq<bool>, y: seq<bool>)
    ensures Allowed(x + y) == Allowed(x) + Allowed(y)
  {
    if x == [] {
      assert x + y == y;
    } else {
      assert (x + y)[1..] == x[1..] + y;
      AllowedAppend(x[1..], y);
    }
  }

  /** With a shorter time to live the window bound fails as well: twice the burst passes within d. */
  lemma ShortTimeExceedsBound(c: Config, ttl: real) returns (d: real, es: seq<Event>)
    requires Sensible(c) && ttl >= 0.0 && Gain(c, ttl) < c.burst as real
    ensures InOrder(0.0, es) && Requests(es) == Repeat(0.0, c.burst) + Repeat(d, c.burst)
    ensures Allowed(Answers(None, c, ttl, es)) as real > c.burst as real + Gain(c, d)
  {
    hide Answers, Gain, Probe, InOrder, Repeat, Allowed;
    GainPositive(c, ttl);
    d := Delay(c, ttl);
    es := Probe(c.burst, d);
    ProbeAnswers(c, ttl, d);
    ProbeRequests(c.burst, d);
    AllowedAppend(Repeat(true, c.burst), Repeat(true, c.burst));
    AllTrue(c.burst);
  }

  /** Sweeping out unused buckets cannot be noticed, if and only if the time to live is long enough to refill one. */
  lemma SweepingUnobservable(c: Config, ttl: real)
    requires Sensible(c) && ttl >= 0.0
    ensures Unobservable(c, ttl) <==> Gain(c, ttl) >= c.burst as real
  {
    hide Gain, Answers, Outcomes;
    if Gain(c, ttl) >= c.burst as real {
      forall start, es | InOrder(start, es)
        ensures Answers(None, c, ttl, es) == Outcomes(New(c, start), c, Requests(es))
      {
        NewSaturated(c, start, start);
        SweepsUnseen(None, New(c, start), c, ttl, start, es);
      }
    } else {
      ShortTimeSeen(c, ttl);
    }
  }

  // ---- Requests that overlap ----

  /** Buckets ever made for the key, the one in the map, and those that requests in progress have looked up. */
  datatype Machine = Machine(current: Option<nat>, pool: seq<Bucket>, held: map<nat, nat>)

  /** A request looks its bucket up, or makes one, in one critical section and takes a token in another. */
  datatype Act = Find(g: nat, at: real) | Take(g: nat, at: real) | Evict(at: real)

  /** A take: when, whether it was allowed, and whether its bucket was still the one in the map. */
  datatype Record = Record(at: real, ok: bool, live: bool)

  function Found(m: Machine, c: Config, g: nat, now: real): Machine {
    if m.current.Some? then m.(held := m.held[g := m.current.value])
    else Machine(Some(|m.pool|), m.pool + [New(c, now)], m.held[g := |m.pool|])
  }

  /** g has looked up a bucket. */
  predicate Holding(m: Machine, g: nat) {
    g in m.held && m.held[g] < |m.pool|
  }

  function Taken(m: Machine, c: Config, g: nat, now: real): Machine
    requires Holding(m, g)
  {
    m.(pool := m.pool[m.held[g] := AfterTake(m.pool[m.held[g]], c, now)], held := m.held - {g})
  }

  function Noted(m: Machine, c: Config, g: nat, now: real): Record
    requires Holding(m, g)
  {
    Record(now, Allows(m.pool[m.held[g]], c, now), m.current == Some(m.held[g]))
  }

  function Evicted(m: Machine, ttl: real, now: real): Machine {
    if m.current.Some? && m.current.value < |m.pool| && Expired(m.pool[m.current.value], ttl, now)
    then m.(current := None) else m
  }

  /** Acts that are not possible are passed over. */
  function Do(m: Machine, c: Config, ttl: real, a: Act): Machine {
    match a
    case Find(g, t) => Found(m, c, g, t)
    case Take(g, t) => if Holding(m, g) then Taken(m, c, g, t) else m
    case Evict(t) => Evicted(m, ttl, t)
  }

  function Note(m: Machine, c: Config, a: Act): seq<Record> {
    if a.Take? && Holding(m, a.g) then [Noted(m, c, a.g, a.at)] else []
  }

  function Records(m: Machine, c: Config, ttl: real, acts: seq<Act>): seq<Record>
    decreases acts
  {
    if acts == [] then [] else Note(m, c, acts[0]) + Records(Do(m, c, ttl, acts[0]), c, ttl, acts[1..])
  }

  /** Times never go back. */
  ghost predicate Timely(now: real, acts: seq<Act>)
    decreases acts
  {
    acts == [] || (now <= acts[0].at && Timely(acts[0].at, acts[1..]))
  }

  // ---- Lists of takes ----

  function Live(rs: seq<Record>): seq<Record> {
    if rs == [] then [] else (if rs[0].live then [rs[0]] else []) + Live(rs[1..])
  }

  function Times(rs: seq<Record>): (ts: seq<real>)
    ensures |ts| == |rs| && forall i :: 0 <= i < |rs| ==> ts[i] == rs[i].at
  {
    if rs == [] then [] else [rs[0].at] + Times(rs[1..])
  }

  function Oks(rs: seq<Record>): (bs: seq<bool>)
    ensures |bs| == |rs| && forall i :: 0 <= i < |rs| ==> bs[i] == rs[i].ok
  {
    if rs == [] then [] else [rs[0].ok] + Oks(rs[1..])
  }

  /** Takes on buckets that had been evicted. */
  function Stale(rs: seq<Record>): nat {
    if rs == [] then 0 else (if rs[0].live then 0 else 1) + Stale(rs[1..])
  }

  lemma {:induction false} LiveAppend(x: seq<Record>, y: seq<Record>)
    ensures Live(x + y) == Live(x) + Live(y)
  {
    if x == [] {
      assert x + y == y;
    } else {
      var head := if x[0].live then [x[0]] else [];
      assert (x + y)[1..] == x[1..] + y;
      LiveAppend(x[1..], y);
      assert head + (Live(x[1..]) + Live(y)) == head + Live(x[1..]) + Live(y);
    }
  }

  lemma {:induction false} AllowedSplit(rs: seq<Record>)
    ensures Allowed(Oks(rs)) <= Allowed(Oks(Live(rs))) + Stale(rs)
  {
    if rs != [] {
      AllowedSplit(rs[1..]);
      assert Oks(rs)[1..] == Oks(rs[1..]);
      if rs[0].live {
        assert Live(rs)[1..] == Live(rs[1..]);
        assert Oks(Live(rs))[1..] == Oks(Live(rs[1..]));
      } else {
        assert Live(rs) == Live(rs[1..]);
      }
    }
  }

  ghost predicate Between(rs: seq<Record>, lo: real, hi: real) {
    forall i :: 0 <= i < |rs| ==> lo <= rs[i].at <= hi
  }

  ghost predicate Since(rs: seq<Record>, lo: real) {
    forall i :: 0 <= i < |rs| ==> lo <= rs[i].at
  }

  ghost predicate InTime(rs: seq<Record>) {
    forall i, j :: 0 <= i < j < |rs| ==> rs[i].at <= rs[j].at
  }

  lemma {:induction false} LiveBetween(rs: seq<Record>, lo: real, hi: real)
    requires Between(rs, lo, hi)
    ensures Between(Live(rs), lo, hi)
  {
    if rs != [] {
      LiveBetween(rs[1..], lo, hi);
    }
  }

  lemma {:induction false} LiveSince(rs: seq<Record>, lo: real)
    requires Since(rs, lo)
    ensures Since(Live(rs), lo)
  {
    if rs != [] {
      LiveSince(rs[1..], lo);
    }
  }

  lemma {:induction false} LiveInTime(rs: seq<Record>)
    requires InTime(rs)
    ensures InTime(Live(rs))
  {
    if rs != [] {
      LiveInTime(rs[1..]);
      LiveSince(rs[1..], rs[0].at);
    }
  }

  lemma OrderedTimes(rs: seq<Record>)
    requires InTime(rs)
    ensures Ordered(Times(rs))
  {
  }

  // ---- Takes on the bucket in the map ----

  ghost predicate WellFormed(m: Machine) {
    && (m.current.Some? ==> m.current.value < |m.pool|)
    && forall g :: g in m.held ==> m.held[g] < |m.pool|
  }

  ghost function Current(m: Machine): Option<Bucket>
    requires WellFormed(m)
  {
    if m.current.Some? then Some(m.pool[m.current.value]) else None
  }

  /** The bucket in the map, or the one that would be made, answers as v does. */
  ghost predicate Linked(m: Machine, v: Bucket, c: Config, now: real) {
    WellFormed(m) && StandsFor(Current(m), v, c, now)
  }

  lemma FindLinked(m: Machine, v: Bucket, c: Config, now: real, g: nat, t: real)
    requires Sensible(c) && Linked(m, v, c, now) && now <= t
    ensures Linked(Found(m, c, g, t), v, c, t)
  {
    hide Gain, Saturated;
    if m.current.Some? {
      SameTakes(Current(m).value, v, c, now, t);
    } else {
      StaysSaturated(v, c, now, t);
      NewSaturated(c, t, t);
      assert c.burst as real >= 0.0;
    }
  }

  lemma LaterStands(b: Option<Bucket>, v: Bucket, c: Config, now: real, t: real)
    requires Sensible(c) && StandsFor(b, v, c, now) && now <= t
    ensures StandsFor(b, v, c, t)
  {
    hide Gain, Saturated;
    if b.None? {
      StaysSaturated(v, c, now, t);
    } else {
      SameTakes(b.value, v, c, now, t);
    }
  }

  lemma TakeLinked(m: Machine, v: Bucket, c: Config, now: real, g: nat, t: real)
    requires Sensible(c) && Linked(m, v, c, now) && now <= t && Holding(m, g)
    ensures Noted(m, c, g, t).live ==> Noted(m, c, g, t).ok == Allows(v, c, t)
    ensures Linked(Taken(m, c, g, t), if Noted(m, c, g, t).live then AfterTake(v, c, t) else v, c, t)
  {
    hide Gain, Saturated, Allows, AfterTake, StandsFor;
    RequestStands(Current(m), v, c, now, t);
    LaterStands(Current(m), v, c, now, t);
  }

  lemma EvictLinked(m: Machine, v: Bucket, c: Config, ttl: real, now: real, t: real)
    requires Sensible(c) && Linked(m, v, c, now) && now <= t && Gain(c, ttl) >= c.burst as real
    ensures Linked(Evicted(m, ttl, t), v, c, t)
  {
    hide Gain, Saturated, Same;
    SweptStands(Current(m), v, c, ttl, now, t);
  }

  /** However requests overlap and whenever buckets are evicted, the takes on the bucket in the map are answered as by
      one bucket that is never evicted. */
  lemma {:induction false} OverlapUnseen(m: Machine, v: Bucket, c: Config, ttl: real, now: real, acts: seq<Act>)
    requires Sensible(c) && Gain(c, ttl) >= c.burst as real && Linked(m, v, c, now) && Timely(now, acts)
    ensures var live := Live(Records(m, c, ttl, acts)); Oks(live) == Outcomes(v, c, Times(live))
    decreases acts
  {
    hide Gain, Allows, AfterTake, Linked, Found, Taken, Evicted, Noted, Times, Oks, Outcomes, Live;
    if acts == [] {
      NoRecords(v, c);
    } else {
      var a, t := acts[0], acts[0].at;
      var rest := Records(Do(m, c, ttl, a), c, ttl, acts[1..]);
      if a.Take? && Holding(m, a.g) {
        var r := Noted(m, c, a.g, t);
        TakeLinked(m, v, c, now, a.g, t);
        OverlapUnseen(Taken(m, c, a.g, t), if r.live then AfterTake(v, c, t) else v, c, ttl, t, acts[1..]);
        NotedAt(m, c, a.g, t);
        LiveCons(r, rest);
        ListCons(r, Live(rest));
        if r.live {
          OutcomesCons(v, c, t, Times(Live(rest)));
        }
      } else {
        StepLinked(m, v, c, ttl, now, a);
        OverlapUnseen(Do(m, c, ttl, a), v, c, ttl, t, acts[1..]);
        assert [] + rest == rest;
      }
    }
  }

  lemma NoRecords(v: Bucket, c: Config)
    ensures Live([]) == [] && Oks([]) == [] && Outcomes(v, c, Times([])) == []
  {
  }

  lemma LiveCons(r: Record, rest: seq<Record>)
    ensures Live([r] + rest) == (if r.live then [r] + Live(rest) else Live(rest))
  {
    assert ([r] + rest)[1..] == rest;
  }

  lemma ListCons(r: Record, rest: seq<Record>)
    ensures Times([r] + rest) == [r.at] + Times(rest) && Oks([r] + rest) == [r.ok] + Oks(rest)
  {
    hide Times, Oks;
  }

  lemma OutcomesCons(v: Bucket, c: Config, t: real, times: seq<real>)
    ensures Outcomes(v, c, [t] + times) == [Allows(v, c, t)] + Outcomes(AfterTake(v, c, t), c, times)
  {
    hide Allows, AfterTake;
    assert ([t] + times)[1..] == times;
  }

  lemma NotedAt(m: Machine, c: Config, g: nat, now: real)
    requires Holding(m, g)
    ensures Noted(m, c, g, now).at == now
  {
  }

  lemma StepLinked(m: Machine, v: Bucket, c: Config, ttl: real, now: real, a: Act)
    requires Sensible(c) && Gain(c, ttl) >= c.burst as real && Linked(m, v, c, now) && now <= a.at
    requires !(a.Take? && Holding(m, a.g))
    ensures Linked(Do(m, c, ttl, a), v, c, a.at)
  {
    hide Gain, StandsFor, Found, Evicted;
    match a
    case Find(g, t) => FindLinked(m, v, c, now, g, t);
    case Take(_, t) => LaterStands(Current(m), v, c, now, t);
    case Evict(t) => EvictLinked(m, v, c, ttl, now, t);
  }

  lemma {:induction false} RecordsInTime(m: Machine, c: Config, ttl: real, now: real, acts: seq<Act>)
    requires Timely(now, acts)
    ensures InTime(Records(m, c, ttl, acts)) && Since(Records(m, c, ttl, acts), now)
    decreases acts
  {
    hide Do, Noted;
    if acts != [] {
      RecordsInTime(Do(m, c, ttl, acts[0]), c, ttl, acts[0].at, acts[1..]);
      if acts[0].Take? && Holding(m, acts[0].g) {
        NotedAt(m, c, acts[0].g, acts[0].at);
      }
    }
  }

  ghost const IDLE := Machine(None, [], map[])

  /** In every run, requests allowed within a window of length T number at most burst + rate * T plus the takes in that
      window on buckets already evicted. */
  lemma OverlapBound(c: Config, ttl: real, start: real, acts: seq<Act>, i: nat, j: nat, T: real)
    requires Sensible(c) && Gain(c, ttl) >= c.burst as real && Timely(start, acts)
    requires var rs := Records(IDLE, c, ttl, acts); i < j <= |rs| && rs[j - 1].at - rs[i].at <= T
    ensures var rs := Records(IDLE, c, ttl, acts);
            Allowed(Oks(rs[i..j])) as real <= c.burst as real + Gain(c, T) + Stale(rs[i..j]) as real
  {
    hide Gain, Records, Outcomes, Timely, Allowed, Live, Stale;
    var rs := Records(IDLE, c, ttl, acts);
    NewSaturated(c, start, start);
    OverlapUnseen(IDLE, New(c, start), c, ttl, start, acts);
    RecordsInTime(IDLE, c, ttl, start, acts);
    AllowedSplit(rs[i..j]);
    assert c.burst as real >= 0.0;
    LiveWindow(rs, New(c, start), c, i, j, T);
  }

  lemma LiveWindow(rs: seq<Record>, v: Bucket, c: Config, i: nat, j: nat, T: real)
    requires Sensible(c) && i < j <= |rs| && rs[j - 1].at - rs[i].at <= T
    requires InTime(rs) && Since(rs, v.last) && 0.0 <= v.tokens <= c.burst as real
    requires Oks(Live(rs)) == Outcomes(v, c, Times(Live(rs)))
    ensures Allowed(Oks(Live(rs[i..j]))) as real <= c.burst as real + Gain(c, T)
  {
    hide Gain, Outcomes, Allowed, Live, Times, Oks;
    var y := rs[i..j];
    var all := Live(rs);
    var a, b := LiveSlice(rs, i, j);
    LiveInTime(rs);
    LiveSince(rs, v.last);
    LiveBetween(y, rs[i].at, rs[j - 1].at);
    OrderedTimes(all);
    if a < b {
      assert all[a] == Live(y)[0] && all[b - 1] == Live(y)[b - a - 1];
      OksSlice(all, a, b);
      WindowBound(v, c, Times(all), a, b, T);
    } else {
      NoneAllowed();
      assert rs[i].at <= rs[j - 1].at;
      GainPositive(c, T);
    }
  }

  /** The live takes of a stretch are a stretch of the live takes. */
  lemma LiveSlice(rs: seq<Record>, i: nat, j: nat) returns (a: nat, b: nat)
    requires i <= j <= |rs|
    ensures a <= b <= |Live(rs)| && Live(rs[i..j]) == Live(rs)[a..b]
  {
    hide Live;
    var x, y, z := rs[..i], rs[i..j], rs[j..];
    assert rs == x + (y + z);
    LiveAppend(x, y + z);
    LiveAppend(y, z);
    a, b := |Live(x)|, |Live(x)| + |Live(y)|;
  }

  lemma OksSlice(rs: seq<Record>, a: nat, b: nat)
    requires a <= b <= |rs|
    ensures Oks(rs[a..b]) == Oks(rs)[a..b]
  {
    hide Oks;
    forall k | 0 <= k < b - a ensures Oks(rs[a..b])[k] == Oks(rs)[a..b][k] {
      assert rs[a..b][k] == rs[a + k];
    }
  }

  lemma NoneAllowed()
    ensures Oks([]) == [] && Allowed([]) == 0
  {
  }

  /** Hence burst + rate * T, if no request in the window takes from a bucket that was evicted since its lookup. */
  lemma RunWindowBound(c: Config, ttl: real, start: real, acts: seq<Act>, i: nat, j: nat, T: real)
    requires Sensible(c) && Gain(c, ttl) >= c.burst as real && Timely(start, acts)
    requires var rs := Records(IDLE, c, ttl, acts);
             i < j <= |rs| && rs[j - 1].at - rs[i].at <= T && Stale(rs[i..j]) == 0
    ensures Allowed(Oks(Records(IDLE, c, ttl, acts)[i..j])) as real <= c.burst as real + Gain(c, T)
  {
    hide Gain, Records, Timely, Allowed, Stale;
    OverlapBound(c, ttl, start, acts, i, j, T);
  }

  // ---- The excess does occur ----

  lemma StepRecords(m: Machine, c: Config, ttl: real, a: Act, rest: seq<Act>)
    ensures Records(m, c, ttl, [a] + rest) == Note(m, c, a) + Records(Do(m, c, ttl, a), c, ttl, rest)
    ensures Timely(a.at, rest) ==> forall now :: now <= a.at ==> Timely(now, [a] + rest)
  {
    hide Note, Do;
    assert ([a] + rest)[1..] == rest;
  }

  /** Requests i to n - 1 look up a bucket each; every bucket is evicted before the next lookup. */
  ghost function Lookups(i: nat, n: nat, t: real, ttl: real, rest: seq<Act>): seq<Act>
    decreases n - i
  {
    if i >= n then rest
    else [Find(i, t)] + ([Evict(t + ttl + 1.0)] + Lookups(i + 1, n, t + ttl + 1.0, ttl, rest))
  }

  ghost function Later(i: nat, n: nat, t: real, ttl: real): real
    decreases n - i
  {
    if i >= n then t else Later(i + 1, n, t + ttl + 1.0, ttl)
  }

  /** Request g over and over: look up, take. */
  ghost function Rounds(g: nat, t: real, k: nat, rest: seq<Act>): seq<Act>
    decreases k
  {
    if k == 0 then rest else [Find(g, t)] + ([Take(g, t)] + Rounds(g, t, k - 1, rest))
  }

  /** Requests i to n - 1 take. */
  ghost function Takes(i: nat, n: nat, t: real): seq<Act>
    decreases n - i
  {
    if i >= n then [] else [Take(i, t)] + Takes(i + 1, n, t)
  }

  /** Requests i to n - 1 each hold a full bucket of their own that is not the one in the map. */
  ghost predicate Waiting(m: Machine, c: Config, i: nat, n: nat, t: real) {
    && n <= |m.pool| && (m.current.Some? ==> n <= m.current.value)
    && forall k :: i <= k < n ==>
         k in m.held && m.held[k] == k && m.pool[k].tokens == c.burst as real && m.pool[k].last <= t
  }

  /** The next lookup at t meets or makes the n-th bucket, with so many tokens left. */
  ghost predicate Ready(m: Machine, c: Config, n: nat, t: real, left: real) {
    && Waiting(m, c, 0, n, t)
    && if m.current.None? then |m.pool| == n && left == c.burst as real
       else m.current == Some(n) && |m.pool| == n + 1 && m.pool[n] == Bucket(left, t)
  }

  lemma LookupStep(m: Machine, c: Config, ttl: real, i: nat, t: real)
    requires Waiting(m, c, 0, i, t) && m.current.None? && |m.pool| == i && ttl >= 0.0
    ensures var m1 := Do(m, c, ttl, Find(i, t));
            var m2 := Do(m1, c, ttl, Evict(t + ttl + 1.0));
            && Note(m, c, Find(i, t)) == [] && Note(m1, c, Evict(t + ttl + 1.0)) == []
            && Waiting(m2, c, 0, i + 1, t + ttl + 1.0) && m2.current.None? && |m2.pool| == i + 1
  {
  }

  lemma {:induction false} LookupsRecords(m: Machine, c: Config, ttl: real, i: nat, n: nat, t: real, rest: seq<Act>)
    returns (m': Machine)
    requires i <= n && Waiting(m, c, 0, i, t) && m.current.None? && |m.pool| == i && ttl >= 0.0
    requires Timely(Later(i, n, t, ttl), rest)
    ensures Waiting(m', c, 0, n, Later(i, n, t, ttl)) && m'.current.None? && |m'.pool| == n
    ensures Records(m, c, ttl, Lookups(i, n, t, ttl, rest)) == Records(m', c, ttl, rest)
    ensures Timely(t, Lookups(i, n, t, ttl, rest))
    decreases n - i
  {
    hide Note, Do, Records, Timely, Waiting;
    if i == n {
      m' := m;
    } else {
      var d := t + ttl + 1.0;
      var more := Lookups(i + 1, n, d, ttl, rest);
      LookupStep(m, c, ttl, i, t);
      var m1 := Do(m, c, ttl, Find(i, t));
      var m2 := Do(m1, c, ttl, Evict(d));
      m' := LookupsRecords(m2, c, ttl, i + 1, n, d, rest);
      StepRecords(m, c, ttl, Find(i, t), [Evict(d)] + more);
      StepRecords(m1, c, ttl, Evict(d), more);
    }
  }

  lemma RoundStep(m: Machine, c: Config, ttl: real, n: nat, t: real, left: real)
    requires Ready(m, c, n, t, left) && 1.0 <= left <= c.burst as real
    ensures var m1 := Do(m, c, ttl, Find(n, t));
            var m2 := Do(m1, c, ttl, Take(n, t));
            && Note(m, c, Find(n, t)) == [] && Note(m1, c, Take(n, t)) == [Record(t, true, true)]
            && Ready(m2, c, n, t, left - 1.0) && m2.current.Some?
  {
    hide Gain;
    GainNever(c);
    var m1 := Do(m, c, ttl, Find(n, t));
    assert m1.current == Some(n) && |m1.pool| == n + 1 && m1.pool[n] == Bucket(left, t) && m1.held[n] == n;
  }

  lemma {:induction false} RoundsRecords(m: Machine, c: Config, ttl: real, n: nat, t: real, k: nat, rest: seq<Act>)
    returns (m': Machine)
    requires Ready(m, c, n, t, k as real) && k <= c.burst && (k == 0 ==> m.current.Some?)
    ensures Ready(m', c, n, t, 0.0) && m'.current.Some?
    ensures Records(m, c, ttl, Rounds(n, t, k, rest)) ==
            Repeat(Record(t, true, true), k) + Records(m', c, ttl, rest)
    decreases k
  {
    hide Note, Do, Records, Ready;
    var r := Record(t, true, true);
    if k == 0 {
      m' := m;
      assert Repeat(r, 0) + Records(m, c, ttl, rest) == Records(m, c, ttl, rest);
    } else {
      var more := Rounds(n, t, k - 1, rest);
      assert k as real <= c.burst as real && (k - 1) as real == k as real - 1.0;
      RoundStep(m, c, ttl, n, t, k as real);
      var m1 := Do(m, c, ttl, Find(n, t));
      var m2 := Do(m1, c, ttl, Take(n, t));
      m' := RoundsRecords(m2, c, ttl, n, t, k - 1, rest);
      StepRecords(m, c, ttl, Find(n, t), [Take(n, t)] + more);
      StepRecords(m1, c, ttl, Take(n, t), more);
      assert [] + ([r] + (Repeat(r, k - 1) + Records(m', c, ttl, rest))) ==
             [r] + Repeat(r, k - 1) + Records(m', c, ttl, rest);
    }
  }

  lemma StaleTake(m: Machine, c: Config, ttl: real, i: nat, n: nat, t: real)
    requires Sensible(c) && c.burst >= 1 && i < n && Waiting(m, c, i, n, t) && m.current.Some?
    ensures Note(m, c, Take(i, t)) == [Record(t, true, false)]
    ensures Waiting(Do(m, c, ttl, Take(i, t)), c, i + 1, n, t) && Do(m, c, ttl, Take(i, t)).current.Some?
  {
    hide Gain;
    GainPositive(c, t - m.pool[i].last);
    assert c.burst as real >= 1.0;
  }

  lemma {:induction false} TakesRecords(m: Machine, c: Config, ttl: real, i: nat, n: nat, t: real)
    requires Sensible(c) && c.burst >= 1 && i <= n && Waiting(m, c, i, n, t) && m.current.Some?
    ensures Records(m, c, ttl, Takes(i, n, t)) == Repeat(Record(t, true, false), n - i)
    decreases n - i
  {
    hide Note, Do, Waiting;
    if i < n {
      StaleTake(m, c, ttl, i, n, t);
      TakesRecords(Do(m, c, ttl, Take(i, t)), c, ttl, i + 1, n, t);
      StepRecords(m, c, ttl, Take(i, t), Takes(i + 1, n, t));
    }
  }

  lemma {:induction false} TakesTimely(i: nat, n: nat, t: real)
    ensures Timely(t, Takes(i, n, t))
    decreases n - i
  {
    if i < n {
      TakesTimely(i + 1, n, t);
      assert Takes(i, n, t)[1..] == Takes(i + 1, n, t);
    }
  }

  lemma {:induction false} CountRun(x: Record, k: nat, rs: seq<Record>)
    requires x.ok
    ensures Allowed(Oks(Repeat(x, k) + rs)) == k + Allowed(Oks(rs))
    ensures Stale(Repeat(x, k) + rs) == (if x.live then 0 else k) + Stale(rs)
    decreases k
  {
    var all := Repeat(x, k) + rs;
    if k == 0 {
      assert all == rs;
    } else {
      assert all[0] == x && all[1..] == Repeat(x, k - 1) + rs;
      assert Oks(all)[1..] == Oks(all[1..]);
      CountRun(x, k - 1, rs);
    }
  }

  /** The excess does occur, for every configuration and to any extent: n requests whose buckets are evicted between
      lookup and take pass at the same instant as a whole burst. */
  lemma EvictionRaceExceedsBurst(c: Config, ttl: real, n: nat) returns (acts: seq<Act>, d: real)
    requires Sensible(c) && c.burst >= 1 && ttl >= 0.0
    ensures Timely(0.0, acts)
    ensures var rs := Records(IDLE, c, ttl, acts);
            && |rs| == c.burst + n && Between(rs, d, d)
            && Stale(rs) == n && Allowed(Oks(rs)) == c.burst + n
  {
    hide Note, Do, Records, Timely, Oks, Stale, Allowed;
    d := Later(0, n, 0.0, ttl);
    acts := Lookups(0, n, 0.0, ttl, Rounds(n, d, c.burst, Takes(0, n, d)));
    RaceRecords(c, ttl, n, d);
    var r, x := Record(d, true, true), Record(d, true, false);
    CountRun(r, c.burst, Repeat(x, n));
    CountRun(x, n, []);
    assert Repeat(x, n) + [] == Repeat(x, n);
    NoneAllowed();
    NoneStale();
  }

  lemma RaceRecords(c: Config, ttl: real, n: nat, d: real)
    requires Sensible(c) && c.burst >= 1 && ttl >= 0.0 && d == Later(0, n, 0.0, ttl)
    ensures var acts := Lookups(0, n, 0.0, ttl, Rounds(n, d, c.burst, Takes(0, n, d)));
            && Records(IDLE, c, ttl, acts) == Repeat(Record(d, true, true), c.burst) + Repeat(Record(d, true, false), n)
            && Timely(0.0, acts)
  {
    hide Note, Do, Records, Timely, Lookups, Rounds, Takes, Later;
    var takes := Takes(0, n, d);
    var rounds := Rounds(n, d, c.burst, takes);
    TakesTimely(0, n, d);
    RoundsTimely(n, d, c.burst, takes);
    var m1 := LookupsRecords(IDLE, c, ttl, 0, n, 0.0, rounds);
    var m2 := RoundsRecords(m1, c, ttl, n, d, c.burst, takes);
    TakesRecords(m2, c, ttl, 0, n, d);
  }

  lemma {:induction false} RoundsTimely(g: nat, t: real, k: nat, rest: seq<Act>)
    requires Timely(t, rest)
    ensures Timely(t, Rounds(g, t, k, rest))
    decreases k
  {
    if k > 0 {
      RoundsTimely(g, t, k - 1, rest);
      var more := Rounds(g, t, k - 1, rest);
      assert ([Take(g, t)] + more)[1..] == more && Timely(t, [Take(g, t)] + more);
      assert Rounds(g, t, k, rest)[1..] == [Take(g, t)] + more;
    }
  }

  lemma NoneStale()
    ensures Stale([]) == 0
  {
  }
}
