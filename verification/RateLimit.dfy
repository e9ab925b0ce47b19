/** The token bucket (rate_limiter.py) and the stage that throttles a stream with it (rate_limiter_stage.py). */
module RateLimit {
  import opened Bytes

  // ---------- the bucket

  datatype Bucket = Bucket(tokens: int, lastUpdate: real)

  /** `int(x)`: towards zero. */
  function Truncate(x: real): int {
    if x >= 0.0 then x.Floor else -((-x).Floor)
  }

  /** What the limit allows for in some time. */
  function Earned(limit: nat, lapse: real): real {
    lapse * limit as real
  }

  /** _replenish_bucket. */
  function Replenish(limit: nat, b: Bucket, now: real): Bucket {
    Bucket(Min(limit, b.tokens + Truncate(Earned(limit, now - b.lastUpdate))), now)
  }

  /** What there should be after some time: the limit, or what was there and what time has brought, in whole tokens. */
  function There(limit: nat, tokens: int, lapse: real): int {
    Min(limit, (tokens as real + lapse * limit as real).Floor)
  }

  lemma ReplenishExact(limit: nat, b: Bucket, now: real)
    ensures limit > 0 && 0 <= b.tokens <= limit && now >= b.lastUpdate ==>
              Replenish(limit, b, now) == Bucket(There(limit, b.tokens, now - b.lastUpdate), now)
  {
    if now >= b.lastUpdate {
      EarnedNonNegative(limit, now - b.lastUpdate);
      FloorOfSum(b.tokens, Earned(limit, now - b.lastUpdate));
    }
  }

  lemma FloorOfSum(n: int, x: real)
    ensures (n as real + x).Floor == n + x.Floor
  {
  }

  lemma EarnedNonNegative(limit: nat, lapse: real)
    requires lapse >= 0.0
    ensures Earned(limit, lapse) >= 0.0
  {
    var rate := limit as real;
    assert rate >= 0.0;
  }

  datatype Request = Extract(now: real, desired: nat) | Grant(now: real, needed: nat)

  /** What a request gets: as much as there is, or all or nothing. */
  function Given(limit: nat, b: Bucket, r: Request): int {
    var available := Replenish(limit, b, r.now).tokens;
    match r
    case Extract(_, desired) => if limit == 0 then desired else Min(desired, available)
    case Grant(_, needed) => if limit == 0 || available >= needed then needed else 0
  }

  function After(limit: nat, b: Bucket, r: Request): Bucket {
    if limit == 0 then b
    else
      var full := Replenish(limit, b, r.now);
      full.(tokens := full.tokens - Given(limit, b, r))
  }

  function Fresh(limit: nat, now: real): Bucket {
    Bucket(limit, now)
  }

  class RateLimiter {
    const limitPerSec: nat
    var bucketTokens: int
    var bucketLastUpdate: real

    function Contents(): Bucket
      reads this
    {
      Bucket(bucketTokens, bucketLastUpdate)
    }

    constructor (limitPerSec: nat, now: real)
      ensures this.limitPerSec == limitPerSec && Contents() == Fresh(limitPerSec, now)
    {
      this.limitPerSec := limitPerSec;
      bucketTokens, bucketLastUpdate := limitPerSec, now;
    }

    method ReplenishBucket(now: real)
      modifies this
      ensures Contents() == Replenish(limitPerSec, old(Contents()), now)
    {
      var lapse := now - bucketLastUpdate;
      bucketTokens := Min(limitPerSec, bucketTokens + Truncate(Earned(limitPerSec, lapse)));
      bucketLastUpdate := now;
    }

    method ExtractTokens(desiredQuantity: nat, now: real) returns (extracted: int)
      modifies this
      ensures extracted == Given(limitPerSec, old(Contents()), Extract(now, desiredQuantity))
      ensures Contents() == After(limitPerSec, old(Contents()), Extract(now, desiredQuantity))
      ensures limitPerSec == 0 ==> extracted == desiredQuantity && Contents() == old(Contents())
      // as much as is wanted of what there should be
      ensures limitPerSec > 0 && 0 <= old(bucketTokens) <= limitPerSec && now >= old(bucketLastUpdate) ==>
                var there := There(limitPerSec, old(bucketTokens), now - old(bucketLastUpdate));
                extracted == Min(desiredQuantity, there) && Contents() == Bucket(there - extracted, now)
    {
      if limitPerSec == 0 {
        return desiredQuantity;
      }
      ReplenishBucket(now);
      extracted := Min(desiredQuantity, bucketTokens);
      bucketTokens := bucketTokens - extracted;
      ReplenishExact(limitPerSec, old(Contents()), now);
    }

    method GrantTokens(tokens: nat, now: real) returns (granted: bool)
      modifies this
      ensures Given(limitPerSec, old(Contents()), Grant(now, tokens)) == if granted then tokens else 0
      ensures Contents() == After(limitPerSec, old(Contents()), Grant(now, tokens))
      ensures limitPerSec == 0 ==> granted && Contents() == old(Contents())
      ensures limitPerSec > 0 && 0 <= old(bucketTokens) <= limitPerSec && now >= old(bucketLastUpdate) ==>
                var there := There(limitPerSec, old(bucketTokens), now - old(bucketLastUpdate));
                && (granted <==> tokens <= there)
                && Contents() == Bucket(if granted then there - tokens else there, now)
    {
      if limitPerSec == 0 {
        return true;
      }
      ReplenishExact(limitPerSec, Contents(), now);
      ReplenishBucket(now);
      if bucketTokens >= tokens {
        bucketTokens := bucketTokens - tokens;
        return true;
      }
      return false;
    }
  }

  // ---------- the bound

  /** The clock never goes back. */
  predicate Ascending(since: real, requests: seq<Request>)
    decreases |requests|
  {
    requests == [] || (requests[0].now >= since && Ascending(requests[0].now, requests[1..]))
  }

  function Total(limit: nat, b: Bucket, requests: seq<Request>): int
    decreases |requests|
  {
    if requests == [] then 0
    else Given(limit, b, requests[0]) + Total(limit, After(limit, b, requests[0]), requests[1..])
  }

  function Finally(limit: nat, b: Bucket, requests: seq<Request>): Bucket
    decreases |requests|
  {
    if requests == [] then b else Finally(limit, After(limit, b, requests[0]), requests[1..])
  }

  predicate InRange(limit: nat, b: Bucket) {
    0 <= b.tokens <= limit
  }

  lemma AfterInRange(limit: nat, b: Bucket, r: Request)
    requires limit > 0 && InRange(limit, b) && r.now >= b.lastUpdate
    ensures InRange(limit, After(limit, b, r)) && After(limit, b, r).lastUpdate == r.now
    ensures (After(limit, b, r).tokens + Given(limit, b, r)) as real <= b.tokens as real + Earned(limit,
            r.now - b.lastUpdate)
  {
    EarnedNonNegative(limit, r.now - b.lastUpdate);
    assert Truncate(Earned(limit, r.now - b.lastUpdate)) as real <= Earned(limit, r.now - b.lastUpdate);
  }

  lemma EarnedAdds(limit: nat, a: real, b: real)
    ensures Earned(limit, a + b) == Earned(limit, a) + Earned(limit, b)
  {
  }

  /** What is handed out, together with what is left, never exceeds what was there and what time has brought. */
  lemma {:induction false} TokensConserved(limit: nat, b: Bucket, requests: seq<Request>)
    requires limit > 0 && InRange(limit, b) && Ascending(b.lastUpdate, requests)
    ensures var end := Finally(limit, b, requests);
            && InRange(limit, end) && end.lastUpdate >= b.lastUpdate
            && (Total(limit, b, requests) + end.tokens) as real
               <= b.tokens as real + Earned(limit, end.lastUpdate - b.lastUpdate)
    decreases |requests|
  {
    if requests != [] {
      var next, end := After(limit, b, requests[0]), Finally(limit, b, requests);
      AfterInRange(limit, b, requests[0]);
      TokensConserved(limit, next, requests[1..]);
      EarnedAdds(limit, next.lastUpdate - b.lastUpdate, end.lastUpdate - next.lastUpdate);
    }
  }

  lemma {:induction false} LastUpdateIsLast(limit: nat, b: Bucket, requests: seq<Request>)
    requires limit > 0 && requests != []
    ensures Finally(limit, b, requests).lastUpdate == requests[|requests| - 1].now
    decreases |requests|
  {
    if |requests| > 1 {
      LastUpdateIsLast(limit, After(limit, b, requests[0]), requests[1..]);
    }
  }

  /**
   * Over every window of requests, whatever was asked for, the limiter hands out at most limit * (1 + elapsed), where
   * elapsed is the time between the first and the last of them, and the bucket stays between nothing and the limit.
   */
  lemma WindowBound(limit: nat, b: Bucket, requests: seq<Request>)
    requires limit > 0 && InRange(limit, b) && requests != [] && Ascending(b.lastUpdate, requests)
    ensures Total(limit, b, requests) as real
         <= Earned(limit, 1.0 + (requests[|requests| - 1].now - requests[0].now))
    ensures InRange(limit, Finally(limit, b, requests))
  {
    AfterInRange(limit, b, requests[0]);
    TokensConserved(limit, After(limit, b, requests[0]), requests[1..]);
    LastUpdateIsLast(limit, b, requests);
    EarnedAdds(limit, 1.0, requests[|requests| - 1].now - requests[0].now);
  }

  // ---------- what is handed out at least

  /** What a request gets and leaves, in terms of the limit and the time since the last one only. */
  lemma GivenExact(limit: nat, b: Bucket, r: Request)
    requires limit > 0 && InRange(limit, b) && r.now >= b.lastUpdate
    ensures var there := There(limit, b.tokens, r.now - b.lastUpdate);
            && Given(limit, b, r) == (match r
                                      case Extract(_, desired) => Min(desired, there)
                                      case Grant(_, needed) => if needed <= there then needed else 0)
            && After(limit, b, r) == Bucket(there - Given(limit, b, r), r.now)
  {
    ReplenishExact(limit, b, r.now);
  }

  /**
   * The limiter does not hold back more than it must: less than one token of what there was and what time has brought,
   * so what is wanted is given as soon as that much is there, and a second's pause makes up for any burst.
   */
  lemma GivesEnough(limit: nat, b: Bucket, now: real, desired: nat)
    requires limit > 0 && InRange(limit, b) && now >= b.lastUpdate
    ensures var given := Given(limit, b, Extract(now, desired));
            var earned := b.tokens as real + (now - b.lastUpdate) * limit as real;
            && (given == Min(desired, limit) || given as real > earned - 1.0)
            && (desired <= limit && desired as real <= earned - 1.0 ==> given == desired)
            && (now - b.lastUpdate >= 1.0 ==> given == Min(desired, limit))
  {
    GivenExact(limit, b, Extract(now, desired));
    if now - b.lastUpdate >= 1.0 {
      EarnedAdds(limit, 1.0, now - b.lastUpdate - 1.0);
      EarnedNonNegative(limit, now - b.lastUpdate - 1.0);
      assert Earned(limit, now - b.lastUpdate) >= limit as real;
    }
  }

  // ---------- the stage

  /** The stage in its loop: what is still to be passed, and what has been. */
  datatype Passing = Passing(value: ByteString, bucket: Bucket, passed: seq<ByteString>)

  /** One turn of the loop, at the given reading of the clock. */
  function Turn(limit: nat, p: Passing, now: real): Passing
    requires InRange(limit, p.bucket) && now >= p.bucket.lastUpdate
  {
    if p.value == [] then p
    else
      var r := Extract(now, |p.value|);
      GivenFits(limit, p.bucket, r);
      var n := Given(limit, p.bucket, r);
      Passing(p.value[n..], After(limit, p.bucket, r), p.passed + [p.value[..n]])
  }

  lemma GivenFits(limit: nat, b: Bucket, r: Request)
    requires InRange(limit, b) && r.now >= b.lastUpdate && r.Extract?
    ensures 0 <= Given(limit, b, r) <= r.desired && InRange(limit, After(limit, b, r))
  {
    if limit > 0 {
      AfterInRange(limit, b, r);
      EarnedNonNegative(limit, r.now - b.lastUpdate);
    }
  }

  /** Readings of the clock with a sleep of `retry` between them. */
  ghost predicate Paced(clock: nat -> real, retry: real) {
    forall n: nat :: clock(n + 1) >= clock(n) + retry
  }

  ghost predicate Ready(limit: nat, retry: real, p: Passing, clock: nat -> real) {
    retry >= 0.0 && Paced(clock, retry) && InRange(limit, p.bucket) && clock(0) >= p.bucket.lastUpdate
  }

  /** The stage after `n` turns. Nothing is lost and the order stays, however little is passed at a time. */
  ghost function RunTurns(limit: nat, retry: real, p: Passing, clock: nat -> real, n: nat): (q: Passing)
    requires Ready(limit, retry, p, clock)
    ensures InRange(limit, q.bucket) && q.bucket.lastUpdate <= clock(n)
    ensures Concat(q.passed) + q.value == Concat(p.passed) + p.value
  {
    if n == 0 then p
    else
      var before := RunTurns(limit, retry, p, clock, n - 1);
      TurnKeepsStream(limit, before, clock(n - 1));
      Turn(limit, before, clock(n - 1))
  }

  lemma TurnKeepsStream(limit: nat, p: Passing, now: real)
    requires InRange(limit, p.bucket) && now >= p.bucket.lastUpdate
    ensures var q := Turn(limit, p, now);
            && InRange(limit, q.bucket) && q.bucket.lastUpdate <= now
            && Concat(q.passed) + q.value == Concat(p.passed) + p.value
  {
    if p.value != [] {
      var r := Extract(now, |p.value|);
      GivenFits(limit, p.bucket, r);
      var n := Given(limit, p.bucket, r);
      ConcatSnoc(p.passed, p.value[..n]);
      assert p.value[..n] + p.value[n..] == p.value;
    }
  }

  /** A turn passes all that the limiter gives, from the front. */
  lemma TurnPassesGiven(limit: nat, p: Passing, now: real)
    requires limit > 0 && InRange(limit, p.bucket) && now >= p.bucket.lastUpdate && p.value != []
    ensures var there := There(limit, p.bucket.tokens, now - p.bucket.lastUpdate);
            var n := Min(|p.value|, there);
            && 0 <= n
            && Turn(limit, p, now) == Passing(p.value[n..], Bucket(there - n, now), p.passed + [p.value[..n]])
  {
    var r := Extract(now, |p.value|);
    GivenExact(limit, p.bucket, r);
    GivenFits(limit, p.bucket, r);
    TurnIs(limit, p, now, Given(limit, p.bucket, r), After(limit, p.bucket, r));
  }

  lemma TurnIs(limit: nat, p: Passing, now: real, n: int, after: Bucket)
    requires InRange(limit, p.bucket) && now >= p.bucket.lastUpdate && p.value != []
    requires n == Given(limit, p.bucket, Extract(now, |p.value|))
    requires after == After(limit, p.bucket, Extract(now, |p.value|)) && 0 <= n <= |p.value|
    ensures Turn(limit, p, now) == Passing(p.value[n..], after, p.passed + [p.value[..n]])
  {
  }

  /** After a sleep that earns a token, a turn passes something. */
  lemma TurnPasses(limit: nat, retry: real, p: Passing, now: real)
    requires InRange(limit, p.bucket) && now >= p.bucket.lastUpdate + retry && retry >= 0.0 && p.value != []
    requires limit == 0 || Earned(limit, retry) >= 1.0
    ensures |Turn(limit, p, now).value| < |p.value|
  {
    if limit > 0 {
      var lapse := now - p.bucket.lastUpdate;
      EarnedAdds(limit, retry, lapse - retry);
      EarnedNonNegative(limit, lapse - retry);
      assert Truncate(Earned(limit, lapse)) >= 1;
    }
  }

  lemma {:induction false} TurnsPass(limit: nat, retry: real, p: Passing, clock: nat -> real, n: nat)
    requires Ready(limit, retry, p, clock) && n > 0
    requires limit == 0 || Earned(limit, retry) >= 1.0
    ensures var q := RunTurns(limit, retry, p, clock, n); q.value == [] || |q.value| + n - 1 <= |p.value|
  {
    var q := RunTurns(limit, retry, p, clock, n - 1);
    if n == 1 {
      TurnShrinks(limit, p, clock(0));
    } else {
      TurnsPass(limit, retry, p, clock, n - 1);
      if q.value != [] {
        NextReading(limit, retry, p, clock, n - 1);
        TurnPasses(limit, retry, q, clock(n - 1));
      }
    }
  }

  lemma TurnShrinks(limit: nat, p: Passing, now: real)
    requires InRange(limit, p.bucket) && now >= p.bucket.lastUpdate
    ensures |Turn(limit, p, now).value| <= |p.value|
  {
    GivenFits(limit, p.bucket, Extract(now, |p.value|));
  }

  lemma LastReading(limit: nat, retry: real, p: Passing, clock: nat -> real, turns: nat)
    requires Ready(limit, retry, p, clock) && turns > 0
    ensures RunTurns(limit, retry, p, clock, turns).bucket.lastUpdate <= clock(turns - 1)
  {
    TurnKeepsStream(limit, RunTurns(limit, retry, p, clock, turns - 1), clock(turns - 1));
  }

  /** Between two turns the stage sleeps. */
  lemma NextReading(limit: nat, retry: real, p: Passing, clock: nat -> real, n: nat)
    requires Ready(limit, retry, p, clock) && n > 0
    ensures clock(n) >= RunTurns(limit, retry, p, clock, n).bucket.lastUpdate + retry
  {
    LastReading(limit, retry, p, clock, n);
    assert clock(n - 1 + 1) >= clock(n - 1) + retry;
  }

  // ---------- when the stage ends

  /** The time that `n` sleeps take. */
  function Slept(retry: real, n: nat): real {
    if n == 0 then 0.0 else Slept(retry, n - 1) + retry
  }

  /** A clock that moves on by the sleeping time and nothing else. */
  function SleepsOnly(retry: real): nat -> real {
    (n: nat) => Slept(retry, n)
  }

  lemma SleepsOnlyPaced(retry: real)
    ensures Paced(SleepsOnly(retry), retry) && SleepsOnly(retry)(0) == 0.0
  {
    forall n: nat
      ensures SleepsOnly(retry)(n + 1) == SleepsOnly(retry)(n) + retry
    {
    }
  }

  /**
   * A sleep that earns less than a whole token earns nothing, since the fraction is dropped and the time of the last
   * update moves on all the same: once the bucket is empty, nothing passes ever again.
   */
  lemma {:induction false} Starves(limit: nat, retry: real, value: ByteString, n: nat)
    requires limit > 0 && retry >= 0.0 && Earned(limit, retry) < 1.0 && |value| == limit + 1 && n > 0
    requires Ready(limit, retry, Passing(value, Fresh(limit, 0.0), []), SleepsOnly(retry))
    ensures var q := RunTurns(limit, retry, Passing(value, Fresh(limit, 0.0), []), SleepsOnly(retry), n);
            |q.value| == 1 && q.bucket == Bucket(0, SleepsOnly(retry)(n - 1))
  {
    var p, clock := Passing(value, Fresh(limit, 0.0), []), SleepsOnly(retry);
    var q := RunTurns(limit, retry, p, clock, n - 1);
    if n == 1 {
      assert q == p;
      assert Earned(limit, 0.0) == 0.0;
    } else {
      Starves(limit, retry, value, n - 1);
      assert clock(n - 1) - clock(n - 2) == retry;
      EarnedNonNegative(limit, retry);
      assert Truncate(Earned(limit, retry)) == 0;
    }
  }

  ghost predicate Ends(limit: nat, retry: real, p: Passing, clock: nat -> real)
    requires Ready(limit, retry, p, clock)
  {
    exists n: nat :: RunTurns(limit, retry, p, clock, n).value == []
  }

  /**
   * Every value passes in the end, whatever the bucket and the clock, exactly if the limit is off or one sleep earns
   * a whole token: limit * retry_interval >= 1.
   */
  lemma EndsIff(limit: nat, retry: real)
    requires retry >= 0.0
    ensures (forall p, clock | Ready(limit, retry, p, clock) :: Ends(limit, retry, p, clock))
       <==> limit == 0 || Earned(limit, retry) >= 1.0
  {
    if limit == 0 || Earned(limit, retry) >= 1.0 {
      forall p, clock | Ready(limit, retry, p, clock)
        ensures Ends(limit, retry, p, clock)
      {
        TurnsPass(limit, retry, p, clock, |p.value| + 2);
        assert RunTurns(limit, retry, p, clock, |p.value| + 2).value == [];
      }
    } else {
      var p, clock := Passing(Zeros(limit + 1), Fresh(limit, 0.0), []), SleepsOnly(retry);
      SleepsOnlyPaced(retry);
      assert Ready(limit, retry, p, clock);
      forall n: nat
        ensures RunTurns(limit, retry, p, clock, n).value != []
      {
        if n > 0 {
          Starves(limit, retry, Zeros(limit + 1), n);
        }
      }
      assert !Ends(limit, retry, p, clock);
    }
  }

  // ---------- the stage in a pipeline

  /** RateLimiterStage for one value, under the condition of EndsIff; the limiter reads `clock(n)` in turn `n`. */
  method PassValue(limiter: RateLimiter, value: ByteString, clock: nat -> real, ghost retry: real)
    returns (pieces: seq<ByteString>, turns: nat)
    requires Ready(limiter.limitPerSec, retry, Passing(value, limiter.Contents(), []), clock)
    requires limiter.limitPerSec == 0 || Earned(limiter.limitPerSec, retry) >= 1.0
    modifies limiter
    ensures Concat(pieces) == value
    ensures RunTurns(limiter.limitPerSec, retry, Passing(value, old(limiter.Contents()), []), clock, turns)
            == Passing([], limiter.Contents(), pieces)
  {
    ghost var start := Passing(value, limiter.Contents(), []);
    var rest := value;
    turns := 0;
    pieces := [];
    while |rest| > 0
      invariant Ready(limiter.limitPerSec, retry, start, clock)
      invariant RunTurns(limiter.limitPerSec, retry, start, clock, turns) == Passing(rest, limiter.Contents(), pieces)
      decreases |value| + 2 - turns
    {
      if turns > 0 {
        TurnsPass(limiter.limitPerSec, retry, start, clock, turns);
      }
      ghost var now := Passing(rest, limiter.Contents(), pieces);
      GivenFits(limiter.limitPerSec, limiter.Contents(), Extract(clock(turns), |rest|));
      var available := limiter.ExtractTokens(|rest|, clock(turns));
      var n := Min(available, |rest|);
      pieces := pieces + [rest[..n]];
      rest := rest[n..];
      turns := turns + 1;
      assert Turn(limiter.limitPerSec, now, clock(turns - 1)) == Passing(rest, limiter.Contents(), pieces);
    }
    assert Concat(pieces) + rest == Concat([]) + value;
    assert Concat(pieces) + [] == Concat(pieces) && Concat([]) + value == value;
  }

  ghost predicate Steady(elapsed: nat -> real) {
    forall n: nat :: elapsed(n) <= elapsed(n + 1)
  }

  /** The clock from some reading on: time spent elsewhere, sleeps in the past, and one sleep between readings. */
  function ClockFrom(elapsed: nat -> real, retry: real, readings: nat, slept: real): nat -> real {
    (n: nat) => elapsed(readings + n) + slept + Slept(retry, n)
  }

  lemma ClockFromPaced(elapsed: nat -> real, retry: real, readings: nat, slept: real)
    requires Steady(elapsed)
    ensures Paced(ClockFrom(elapsed, retry, readings, slept), retry)
  {
    var clock := ClockFrom(elapsed, retry, readings, slept);
    forall n: nat
      ensures clock(n + 1) >= clock(n) + retry
    {
      assert elapsed(readings + n) <= elapsed(readings + n + 1);
    }
  }

  /** The first reading for the next value comes after the last one for this value. */
  lemma ClockGoesOn(elapsed: nat -> real, retry: real, readings: nat, slept: real, turns: nat)
    requires Steady(elapsed) && turns > 0
    ensures ClockFrom(elapsed, retry, readings + turns, slept + Slept(retry, turns - 1))(0)
         >= ClockFrom(elapsed, retry, readings, slept)(turns - 1)
  {
    assert elapsed(readings + turns - 1) <= elapsed(readings + turns - 1 + 1);
  }

  /** The stage over all values of a pipeline: it cuts the stream up and delays it, and nothing else. */
  method PassAll(limiter: RateLimiter, values: seq<ByteString>, elapsed: nat -> real, retry: real)
    returns (pieces: seq<ByteString>)
    requires InRange(limiter.limitPerSec, limiter.Contents()) && elapsed(0) >= limiter.Contents().lastUpdate
    requires retry >= 0.0 && Steady(elapsed)
    requires limiter.limitPerSec == 0 || Earned(limiter.limitPerSec, retry) >= 1.0
    modifies limiter
    ensures Concat(pieces) == Concat(values)
    ensures InRange(limiter.limitPerSec, limiter.Contents())
  {
    pieces := [];
    var readings, slept := 0, 0.0;
    for i := 0 to |values|
      invariant Concat(pieces) == Concat(values[..i])
      invariant InRange(limiter.limitPerSec, limiter.Contents())
      invariant ClockFrom(elapsed, retry, readings, slept)(0) >= limiter.Contents().lastUpdate
    {
      var clock := ClockFrom(elapsed, retry, readings, slept);
      ClockFromPaced(elapsed, retry, readings, slept);
      ghost var start := Passing(values[i], limiter.Contents(), []);
      var passed, turns := PassValue(limiter, values[i], clock, retry);
      if turns > 0 {
        LastReading(limiter.limitPerSec, retry, start, clock, turns);
        ClockGoesOn(elapsed, retry, readings, slept, turns);
        readings, slept := readings + turns, slept + Slept(retry, turns - 1);
      }
      PieceJoins(values, i, pieces, passed);
      pieces := pieces + passed;
    }
    assert values[..|values|] == values;
  }

  lemma PieceJoins(values: seq<ByteString>, i: nat, pieces: seq<ByteString>, passed: seq<ByteString>)
    requires i < |values| && Concat(pieces) == Concat(values[..i]) && Concat(passed) == values[i]
    ensures Concat(pieces + passed) == Concat(values[..i + 1])
  {
    ConcatAppend(pieces, passed);
    assert values[..i + 1] == values[..i] + [values[i]];
    ConcatSnoc(values[..i], values[i]);
  }
}
