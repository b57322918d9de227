/** Blocking of addresses after failed authentications: internal/auth/ratelimit.go. Times are nanoseconds. */
module AuthBlocks {
  import opened Wrappers

  const SECOND := 1_000_000_000
  const MAX_FAILURES := 10
  const WINDOW := 60 * SECOND
  const BLOCK := 300 * SECOND
  const EVICT := 600 * SECOND

  /** blockedUntil None is the zero time. */
  datatype Bucket = Bucket(failures: nat, windowStart: int, blockedUntil: Option<int>)

  type Failures = map<string, Bucket>

  // ---- The operations ----

  predicate Live(b: Bucket, now: int) {
    b.blockedUntil.Some? && now < b.blockedUntil.value
  }

  /** Bucket after one more failure. */
  function Counted(b: Bucket, now: int): Bucket {
    var w := if now - b.windowStart > WINDOW then b.(failures := 0, windowStart := now) else b;
    var c := w.(failures := w.failures + 1);
    if c.failures >= MAX_FAILURES then c.(blockedUntil := Some(now + BLOCK)) else c
  }

  predicate Stale(b: Bucket, now: int) {
    (b.blockedUntil.Some? && now > b.blockedUntil.value) || now - b.windowStart > EVICT
  }

  function EvictStale(m: Failures, now: int): Failures {
    map ip | ip in m && !Stale(m[ip], now) :: m[ip]
  }

  function BucketFor(m: Failures, ip: string, now: int): Bucket {
    if ip in m then m[ip] else Bucket(0, now, None)
  }

  /** Whether the address is now blocked. */
  predicate Blocks(m: Failures, ip: string, now: int) {
    Counted(BucketFor(m, ip, now), now).failures >= MAX_FAILURES
  }

  function AfterFailure(m: Failures, ip: string, now: int): Failures {
    var m' := m[ip := Counted(BucketFor(m, ip, now), now)];
    if !Blocks(m, ip, now) && |m'| > 1000 then EvictStale(m', now) else m'
  }

  predicate IsBlocked(m: Failures, ip: string, now: int) {
    ip in m && Live(m[ip], now)
  }

  /** Asking removes a block that has expired. */
  function AfterAsk(m: Failures, ip: string, now: int): Failures {
    if ip in m && !Live(m[ip], now) && m[ip].blockedUntil.Some? then m - {ip} else m
  }

  datatype Event = Failure(ip: string, at: int) | Success(ip: string, at: int) | Ask(ip: string, at: int)

  function Step(m: Failures, e: Event): Failures {
    match e
    case Failure(ip, now) => AfterFailure(m, ip, now)
    case Success(ip, _) => m - {ip}
    case Ask(ip, now) => AfterAsk(m, ip, now)
  }

  function Run(m: Failures, es: seq<Event>): Failures {
    if es == [] then m else Step(Run(m, es[..|es| - 1]), es[|es| - 1])
  }

  /** The clock never goes back. */
  ghost predicate Ordered(es: seq<Event>) {
    forall i, j :: 0 <= i < j < |es| ==> es[i].at <= es[j].at
  }

  // ---- A block lasts five minutes ----

  /** No block outlives its window by more than the window and the block together. */
  ghost predicate Short(m: Failures) {
    forall ip :: ip in m && m[ip].blockedUntil.Some? ==>
      m[ip].blockedUntil.value <= m[ip].windowStart + 360_000_000_000
  }

  lemma StepShort(m: Failures, e: Event)
    requires Short(m)
    ensures Short(Step(m, e))
  {
  }

  lemma {:induction false} RunShort(es: seq<Event>)
    ensures Short(Run(map[], es))
  {
    hide Step, Short;
    if es == [] {
      NothingShort();
    } else {
      RunShort(es[..|es| - 1]);
      StepShort(Run(map[], es[..|es| - 1]), es[|es| - 1]);
    }
  }

  lemma NothingShort()
    ensures Short(map[])
  {
  }

  /** The address is blocked at least until t. */
  ghost predicate HeldUntil(m: Failures, ip: string, t: int) {
    ip in m && m[ip].blockedUntil.Some? && m[ip].blockedUntil.value >= t
  }

  /** No other event ends a block early: stale eviction never drops one that is live. */
  lemma StepHolds(m: Failures, e: Event, ip: string, t: int)
    requires Short(m) && HeldUntil(m, ip, t) && t - BLOCK <= e.at < t && e != Success(ip, e.at)
    ensures HeldUntil(Step(m, e), ip, t)
  {
    match e
    case Failure(other, now) =>
      var m' := m[other := Counted(BucketFor(m, other, now), now)];
      assert HeldUntil(m', ip, t);
      assert m'[ip].blockedUntil.value <= m'[ip].windowStart + 360_000_000_000;
      assert !Stale(m'[ip], now);
    case Success(_, _) =>
    case Ask(_, _) =>
  }

  lemma {:induction false} RunHolds(m: Failures, es: seq<Event>, ip: string, t: int)
    requires Short(m) && HeldUntil(m, ip, t)
    requires forall i :: 0 <= i < |es| ==> t - BLOCK <= es[i].at < t && es[i] != Success(ip, es[i].at)
    ensures Short(Run(m, es)) && HeldUntil(Run(m, es), ip, t)
  {
    hide Step, Short, HeldUntil;
    if es != [] {
      var n := |es| - 1;
      RunHolds(m, es[..n], ip, t);
      StepShort(Run(m, es[..n]), es[n]);
      StepHolds(Run(m, es[..n]), es[n], ip, t);
    }
  }

  /** Once a failure at time t has blocked an address, every check in the next five minutes finds it blocked,
      whatever happens in between except a success from that address. */
  lemma BlockLasts(before: seq<Event>, ip: string, t: int, between: seq<Event>, now: int)
    requires Blocks(Run(map[], before), ip, t) && now < t + 300_000_000_000
    requires forall i :: 0 <= i < |between| ==>
               t <= between[i].at < t + 300_000_000_000 && between[i] != Success(ip, between[i].at)
    ensures IsBlocked(Run(AfterFailure(Run(map[], before), ip, t), between), ip, now)
  {
    hide Run;
    var m := Run(map[], before);
    RunShort(before);
    StepShort(m, Failure(ip, t));
    assert HeldUntil(AfterFailure(m, ip, t), ip, t + BLOCK);
    RunHolds(AfterFailure(m, ip, t), between, ip, t + BLOCK);
  }

  /** The j-th event is the failure of ip that blocked it last. */
  ghost predicate BlockedBy(es: seq<Event>, ip: string, j: int, until: int) {
    && 0 <= j < |es| && es[j].Failure? && es[j].ip == ip && until == es[j].at + 300_000_000_000
    && Blocks(Run(map[], es[..j]), ip, es[j].at)
    && forall k :: j < k < |es| ==> es[k] != Success(ip, es[k].at)
  }

  lemma BlockedBySnoc(es: seq<Event>, e: Event, ip: string, j: int, until: int)
    requires BlockedBy(es, ip, j, until) && e != Success(ip, e.at)
    ensures BlockedBy(es + [e], ip, j, until)
  {
    hide Run, Blocks;
    assert (es + [e])[..j] == es[..j];
  }

  ghost predicate BlocksExplained(m: Failures, es: seq<Event>) {
    forall ip :: ip in m && m[ip].blockedUntil.Some? ==> exists j :: BlockedBy(es, ip, j, m[ip].blockedUntil.value)
  }

  lemma StepExplained(es: seq<Event>, e: Event)
    requires BlocksExplained(Run(map[], es), es)
    ensures BlocksExplained(Step(Run(map[], es), e), es + [e])
  {
    hide Run, BlockedBy;
    var m := Run(map[], es);
    var m' := Step(m, e);
    forall ip | ip in m' && m'[ip].blockedUntil.Some?
      ensures exists j :: BlockedBy(es + [e], ip, j, m'[ip].blockedUntil.value)
    {
      if e.Failure? && e.ip == ip && Blocks(m, ip, e.at) {
        BlockedNow(es, e);
      } else {
        var j :| BlockedBy(es, ip, j, m[ip].blockedUntil.value);
        BlockedBySnoc(es, e, ip, j, m[ip].blockedUntil.value);
      }
    }
  }

  lemma BlockedNow(es: seq<Event>, e: Event)
    requires e.Failure? && Blocks(Run(map[], es), e.ip, e.at)
    ensures BlockedBy(es + [e], e.ip, |es|, e.at + 300_000_000_000)
  {
    hide Run, Blocks;
    assert (es + [e])[..|es|] == es;
  }

  lemma {:induction false} RunExplained(es: seq<Event>)
    ensures BlocksExplained(Run(map[], es), es)
  {
    hide Step, BlockedBy;
    if es != [] {
      var n := |es| - 1;
      RunExplained(es[..n]);
      StepExplained(es[..n], es[n]);
      assert es[..n] + [es[n]] == es;
    }
  }

  /** A check finds an address blocked only within five minutes of a failure of it that blocked it, with no success of
      it since. */
  lemma BlockedOnlyThen(es: seq<Event>, ip: string, now: int) returns (j: int)
    requires IsBlocked(Run(map[], es), ip, now)
    ensures 0 <= j < |es| && es[j].Failure? && es[j].ip == ip && now < es[j].at + 300_000_000_000
    ensures Blocks(Run(map[], es[..j]), ip, es[j].at)
    ensures forall k :: j < k < |es| ==> es[k] != Success(ip, es[k].at)
  {
    RunExplained(es);
    j :| BlockedBy(es, ip, j, Run(map[], es)[ip].blockedUntil.value);
  }

  // ---- A block needs ten failures within a minute ----

  /** Failures of the address at or after a time. */
  ghost function CountSince(es: seq<Event>, ip: string, from: int): nat {
    if es == [] then 0 else
      var e := es[|es| - 1];
      CountSince(es[..|es| - 1], ip, from) + if e.Failure? && e.ip == ip && e.at >= from then 1 else 0
  }

  /** Every failure on the books happened since the window started. */
  ghost predicate Accounted(m: Failures, es: seq<Event>, now: int) {
    forall ip :: ip in m ==> m[ip].windowStart <= now && m[ip].failures <= CountSince(es, ip, m[ip].windowStart)
  }

  lemma {:induction false} RunAccounted(es: seq<Event>, now: int)
    requires Ordered(es) && forall i :: 0 <= i < |es| ==> es[i].at <= now
    ensures Accounted(Run(map[], es), es, now)
  {
    hide Step;
    if es != [] {
      var n := |es| - 1;
      RunAccounted(es[..n], es[n].at);
      StepAccounted(Run(map[], es[..n]), es[..n], es[n]);
      assert es == es[..n] + [es[n]];
    }
  }

  lemma StepAccounted(m: Failures, es: seq<Event>, e: Event)
    requires Accounted(m, es, e.at)
    ensures Accounted(Step(m, e), es + [e], e.at)
  {
    hide CountSince, EvictStale;
    var m' := Step(m, e);
    forall ip | ip in m'
      ensures m'[ip].windowStart <= e.at && m'[ip].failures <= CountSince(es + [e], ip, m'[ip].windowStart)
    {
      CountGrows(es, e, ip, m'[ip].windowStart);
      if e.Failure? {
        FailureBucket(m, e.ip, e.at, ip);
      }
    }
  }

  lemma CountGrows(es: seq<Event>, e: Event, ip: string, from: int)
    ensures CountSince(es + [e], ip, from) ==
            CountSince(es, ip, from) + if e.Failure? && e.ip == ip && e.at >= from then 1 else 0
  {
    assert (es + [e])[..|es|] == es;
  }

  lemma FailureBucket(m: Failures, failed: string, now: int, ip: string)
    requires ip in AfterFailure(m, failed, now)
    ensures AfterFailure(m, failed, now)[ip] == if ip == failed then Counted(BucketFor(m, ip, now), now) else m[ip]
    ensures ip == failed || ip in m
  {
  }

  /** Every block follows at least ten failures of that address within one minute. */
  lemma BlockIsEarned(before: seq<Event>, ip: string, t: int)
    requires Ordered(before + [Failure(ip, t)]) && Blocks(Run(map[], before), ip, t)
    ensures exists from ::
              t - 60_000_000_000 <= from <= t && CountSince(before + [Failure(ip, t)], ip, from) >= 10
  {
    hide CountSince, Run;
    var m, all := Run(map[], before), before + [Failure(ip, t)];
    assert forall i :: 0 <= i < |before| ==> before[i] == all[i] && before[i].at <= all[|before|].at;
    RunAccounted(before, t);
    var b := Counted(BucketFor(m, ip, t), t);
    CountGrows(before, Failure(ip, t), ip, b.windowStart);
    assert t - WINDOW <= b.windowStart <= t;
  }

  // ---- Ten failures within a minute do block ----

  ghost function Fails(es: seq<Event>, ip: string): nat {
    if es == [] then 0 else
      Fails(es[..|es| - 1], ip) + if es[|es| - 1].Failure? && es[|es| - 1].ip == ip then 1 else 0
  }

  /** The entry of ip counts n failures since start, and is blocked for five minutes once there are ten. */
  ghost predicate Counting(m: Failures, ip: string, start: int, n: nat) {
    && ip in m && m[ip].windowStart == start && m[ip].failures == n
    && (n < 10 ==> m[ip].blockedUntil == None)
    && (n >= 10 ==> m[ip].blockedUntil.Some? && m[ip].blockedUntil.value >= start + 300_000_000_000)
  }

  lemma StepCounting(m: Failures, e: Event, ip: string, start: int, n: nat)
    requires Counting(m, ip, start, n) && start <= e.at <= start + 60_000_000_000 && e != Success(ip, e.at)
    ensures Counting(Step(m, e), ip, start, if e.Failure? && e.ip == ip then n + 1 else n)
  {
    match e
    case Failure(other, now) =>
      var m' := m[other := Counted(BucketFor(m, other, now), now)];
      assert !Stale(m'[ip], now);
    case Success(_, _) =>
    case Ask(_, _) =>
  }

  lemma {:induction false} RunCounting(m: Failures, es: seq<Event>, ip: string, start: int, n: nat)
    requires Counting(m, ip, start, n)
    requires forall i :: 0 <= i < |es| ==>
               start <= es[i].at <= start + 60_000_000_000 && es[i] != Success(ip, es[i].at)
    ensures Counting(Run(m, es), ip, start, n + Fails(es, ip))
  {
    hide Step, Counting;
    if es != [] {
      var k := |es| - 1;
      RunCounting(m, es[..k], ip, start, n);
      StepCounting(Run(m, es[..k]), es[k], ip, start, n + Fails(es[..k], ip));
    }
  }

  /** From a failure at t0 of an address that has no entry, a failure within the next minute returns true exactly when
      it is at least the tenth, whatever other addresses, checks and evictions do, unless the address succeeds. */
  lemma TenthFailureBlocks(m: Failures, ip: string, t0: int, between: seq<Event>, t: int)
    requires ip !in m && t0 <= t <= t0 + 60_000_000_000
    requires forall i :: 0 <= i < |between| ==> t0 <= between[i].at <= t && between[i] != Success(ip, between[i].at)
    ensures Blocks(Run(AfterFailure(m, ip, t0), between), ip, t) <==> 1 + Fails(between, ip) + 1 >= 10
  {
    hide Run;
    var b := Counted(BucketFor(m, ip, t0), t0);
    assert !Stale(b, t0);
    assert Counting(AfterFailure(m, ip, t0), ip, t0, 1);
    RunCounting(AfterFailure(m, ip, t0), between, ip, t0, 1);
  }

  // ---- When an address is checked before it may fail ----

  /** The failure of ip that opened its current window, -1 if none did. */
  ghost function Opened(es: seq<Event>, ip: string): (i: int)
    ensures -1 <= i < |es| && (i >= 0 ==> es[i].Failure? && es[i].ip == ip)
  {
    if es == [] then -1 else
      var n := |es| - 1;
      var i := Opened(es[..n], ip);
      if es[n].ip != ip || es[n].Ask? then i
      else if es[n].Success? then -1
      else if i < 0 || es[n].at - es[i].at > 60_000_000_000 then n
      else i
  }

  /** The last thing that ip did was to be checked and let pass. */
  ghost predicate JustPassed(es: seq<Event>, ip: string) {
    es != [] &&
    var n := |es| - 1;
    if es[n].ip == ip then es[n].Ask? && !IsBlocked(Run(map[], es[..n]), ip, es[n].at) else JustPassed(es[..n], ip)
  }

  /** Every failure of ip follows a check that let it pass, as in the middleware. */
  ghost predicate Checked(es: seq<Event>, ip: string) {
    es == [] ||
    (var n := |es| - 1;
     Checked(es[..n], ip) && (es[n].Failure? && es[n].ip == ip ==> JustPassed(es[..n], ip)))
  }

  /** The entry of ip tells its current window, and is missing only when that is over. */
  ghost predicate Tells(m: Failures, es: seq<Event>, ip: string, now: int) {
    var i := Opened(es, ip);
    if ip in m then
      && i >= 0 && m[ip].windowStart == es[i].at <= now && m[ip].failures == Fails(es[i..], ip)
      && (m[ip].blockedUntil.Some? ==> m[ip].blockedUntil.value >= es[i].at + 300_000_000_000)
      && (JustPassed(es, ip) ==> m[ip].blockedUntil == None)
    else i < 0 || now - es[i].at > 60_000_000_000
  }

  lemma FailsSnoc(es: seq<Event>, e: Event, ip: string, i: nat)
    requires i <= |es|
    ensures Fails((es + [e])[i..], ip) == Fails(es[i..], ip) + if e.Failure? && e.ip == ip then 1 else 0
    ensures i == |es| ==> Fails(es[i..], ip) == 0
  {
    assert (es + [e])[i..] == es[i..] + [e];
    assert (es[i..] + [e])[..|es[i..]|] == es[i..];
  }

  lemma OpenedSnoc(es: seq<Event>, e: Event, ip: string)
    ensures var i := Opened(es, ip);
            Opened(es + [e], ip) ==
            if e.ip != ip || e.Ask? then i
            else if e.Success? then -1
            else if i < 0 || e.at - es[i].at > 60_000_000_000 then |es|
            else i
    ensures Opened(es, ip) >= 0 ==> (es + [e])[Opened(es, ip)] == es[Opened(es, ip)]
  {
    assert (es + [e])[..|es|] == es;
  }

  lemma PassedSnoc(es: seq<Event>, e: Event, ip: string)
    ensures JustPassed(es + [e], ip) <==>
              if e.ip == ip then e.Ask? && !IsBlocked(Run(map[], es), ip, e.at) else JustPassed(es, ip)
  {
    hide Run;
    assert (es + [e])[..|es|] == es;
  }

  /** The other addresses can only evict an entry whose window is over. */
  lemma OthersTell(m: Failures, es: seq<Event>, e: Event, ip: string, now: int)
    requires Tells(m, es, ip, now) && e.at >= now && e.ip != ip
    ensures Tells(Step(m, e), es + [e], ip, e.at)
  {
    hide Opened, JustPassed, Fails;
    OpenedSnoc(es, e, ip);
    PassedSnoc(es, e, ip);
    var i := Opened(es, ip);
    if i >= 0 {
      FailsSnoc(es, e, ip, i);
    }
  }

  lemma FailureTells(m: Failures, es: seq<Event>, ip: string, t: int, now: int)
    requires Tells(m, es, ip, now) && t >= now && JustPassed(es, ip)
    ensures Tells(AfterFailure(m, ip, t), es + [Failure(ip, t)], ip, t)
    ensures Blocks(m, ip, t) <==>
              var all := es + [Failure(ip, t)]; Opened(all, ip) >= 0 && Fails(all[Opened(all, ip)..], ip) >= 10
  {
    hide Opened, JustPassed, Fails;
    var e := Failure(ip, t);
    OpenedSnoc(es, e, ip);
    PassedSnoc(es, e, ip);
    FailsSnoc(es, e, ip, |es|);
    var i := Opened(es, ip);
    if i >= 0 {
      FailsSnoc(es, e, ip, i);
    }
    var b := Counted(BucketFor(m, ip, t), t);
    assert b.windowStart == (es + [e])[Opened(es + [e], ip)].at;
    assert b.blockedUntil.None? ==> !Stale(b, t);
  }

  lemma OwnTell(m: Failures, es: seq<Event>, e: Event, ip: string, now: int)
    requires m == Run(map[], es) && Tells(m, es, ip, now) && e.at >= now && e.ip == ip && !e.Failure?
    ensures Tells(Step(m, e), es + [e], ip, e.at)
  {
    hide Opened, JustPassed, Fails, Run;
    OpenedSnoc(es, e, ip);
    PassedSnoc(es, e, ip);
    var i := Opened(es, ip);
    if i >= 0 {
      FailsSnoc(es, e, ip, i);
    }
  }

  lemma {:induction false} RunTells(es: seq<Event>, ip: string, now: int)
    requires Ordered(es) && Checked(es, ip) && forall i :: 0 <= i < |es| ==> es[i].at <= now
    ensures Tells(Run(map[], es), es, ip, now)
  {
    hide Step, Tells, JustPassed;
    if es == [] {
      NothingTells(ip, now);
    } else {
      var n := |es| - 1;
      var m, e := Run(map[], es[..n]), es[n];
      RunTells(es[..n], ip, e.at);
      if e.ip != ip {
        OthersTell(m, es[..n], e, ip, e.at);
      } else if e.Failure? {
        FailureTells(m, es[..n], ip, e.at, e.at);
        StepOfFailure(m, e);
      } else {
        OwnTell(m, es[..n], e, ip, e.at);
      }
      assert es[..n] + [e] == es;
      TellsLater(Run(map[], es), es, ip, e.at, now);
    }
  }

  lemma NothingTells(ip: string, now: int)
    ensures Tells(map[], [], ip, now)
  {
  }

  lemma StepOfFailure(m: Failures, e: Event)
    requires e.Failure?
    ensures Step(m, e) == AfterFailure(m, e.ip, e.at)
  {
  }

  lemma TellsLater(m: Failures, es: seq<Event>, ip: string, now: int, later: int)
    requires Tells(m, es, ip, now) && now <= later
    ensures Tells(m, es, ip, later)
  {
  }

  /** In every run that checks an address before letting it fail, a failure blocks exactly when it is at least the tenth
      since the failure that opened the address's current window. */
  lemma BlocksExactly(before: seq<Event>, ip: string, t: int)
    requires Ordered(before + [Failure(ip, t)]) && Checked(before + [Failure(ip, t)], ip)
    ensures var all := before + [Failure(ip, t)];
            Blocks(Run(map[], before), ip, t) <==>
              Opened(all, ip) >= 0 && Fails(all[Opened(all, ip)..], ip) >= 10
  {
    hide Run, Blocks, JustPassed, Tells, Opened, Fails;
    var all := before + [Failure(ip, t)];
    assert all[..|all| - 1] == before;
    assert forall i :: 0 <= i < |before| ==> before[i] == all[i] && before[i].at <= all[|before|].at;
    RunTells(before, ip, t);
    FailureTells(Run(map[], before), before, ip, t, t);
  }

  /** Without the check it does not: a failure after a block has run out starts a new window but keeps the old block
      in its entry, and the next check drops the entry with the count. */
  lemma UncheckedFailureIsForgotten(m: Failures, ip: string, t: int, t': int)
    requires ip in m && m[ip].blockedUntil.Some? && m[ip].blockedUntil.value <= t <= t'
    requires t - m[ip].windowStart > 60_000_000_000
    ensures !Blocks(m, ip, t) && ip !in Run(m, [Failure(ip, t), Ask(ip, t')])
  {
    var es := [Failure(ip, t), Ask(ip, t')];
    assert es[..1] == [Failure(ip, t)] && [Failure(ip, t)][..0] == [];
    assert Run(m, [Failure(ip, t)]) == Step(m, Failure(ip, t));
  }
}
