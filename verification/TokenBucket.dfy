/** The token bucket limiter: no interval lets through more than the burst plus the refill. */
module TokenBucket {
  import opened RateLimiter

  datatype Bucket = Bucket(tokens: real, lastTime: int)

  type Buckets = map<nat, Bucket>

  /** Tokens refilled in a span of milliseconds. */
  function Refill(rate: real, ms: int): (r: real) {
    ms as real / 1000.0 * rate
  }

  /** No more than the burst. */
  function Capped(burst: int, tokens: real): (r: real) {
    if burst as real <= tokens then burst as real else tokens
  }

  /** Tokens in the key's bucket when a call arrives; a new bucket is full. */
  function Level(b: Buckets, rate: real, burst: int, c: Call): (r: real) {
    if c.key in b then Capped(burst, b[c.key].tokens + Refill(rate, c.now - b[c.key].lastTime)) else burst as real
  }

  /** allow: whether the call is let through; the first call of a key always is. */
  predicate Passes(b: Buckets, rate: real, burst: int, c: Call) {
    c.key !in b || Level(b, rate, burst, c) >= 1.0
  }

  /** allow: the new buckets. */
  function Take(b: Buckets, rate: real, burst: int, c: Call): (r: Buckets) {
    var level := Level(b, rate, burst, c);
    b[c.key := Bucket(if Passes(b, rate, burst, c) then level - 1.0 else level, c.now)]
  }

  function TakeAll(rate: real, burst: int, calls: seq<Call>): (r: Buckets) {
    if calls == [] then map[] else Take(TakeAll(rate, burst, calls[..|calls| - 1]), rate, burst, calls[|calls| - 1])
  }

  /** How many calls of the key at positions a and on were let through. */
  function PassedFrom(rate: real, burst: int, calls: seq<Call>, key: nat, a: nat): (r: nat) {
    if |calls| <= a then 0
    else
      var init, c := calls[..|calls| - 1], calls[|calls| - 1];
      PassedFrom(rate, burst, init, key, a) +
      if c.key == key && Passes(TakeAll(rate, burst, init), rate, burst, c) then 1 else 0
  }

  // ------------------------------------------------------------------ the bound

  lemma {:induction false} RefillAdds(rate: real, a: int, b: int)
    ensures Refill(rate, a + b) == Refill(rate, a) + Refill(rate, b)
  {
    assert (a + b) as real / 1000.0 == a as real / 1000.0 + b as real / 1000.0;
  }

  lemma {:induction false} RefillGrows(rate: real, ms: int)
    requires rate >= 0.0 && ms >= 0
    ensures Refill(rate, ms) >= 0.0
  {
  }

  /** Buckets are never overdrawn, and never touched in the future. */
  ghost predicate Sane(b: Buckets, now: int) {
    forall k | k in b :: b[k].tokens >= 0.0 && b[k].lastTime <= now
  }

  lemma {:induction false} TakeSane(b: Buckets, rate: real, burst: int, c: Call, earlier: int)
    requires rate >= 0.0 && burst >= 1 && Sane(b, earlier) && earlier <= c.now
    ensures Sane(Take(b, rate, burst, c), c.now)
  {
    if c.key in b {
      RefillGrows(rate, c.now - b[c.key].lastTime);
    }
  }

  lemma {:induction false} AllSane(rate: real, burst: int, calls: seq<Call>)
    requires rate >= 0.0 && burst >= 1 && Ordered(calls) && calls != []
    ensures Sane(TakeAll(rate, burst, calls), calls[|calls| - 1].now)
    decreases |calls|
  {
    var init, c := calls[..|calls| - 1], calls[|calls| - 1];
    OrderedPrefix(calls, |init|);
    if init == [] {
      TakeSane(map[], rate, burst, c, c.now);
    } else {
      AllSane(rate, burst, init);
      TakeSane(TakeAll(rate, burst, init), rate, burst, c, init[|init| - 1].now);
    }
  }

  /**
   The account of a key from a moment on: either the key was not called since, and nothing passed, or what passed and
   what is left in the bucket are together at most the burst and the refill since that moment.
   */
  predicate Account(b: Buckets, rate: real, burst: int, key: nat, passed: nat, since: int) {
    || (passed == 0 && (key in b ==> b[key].lastTime <= since))
    || (key in b && b[key].lastTime >= since &&
        passed as real + b[key].tokens <= burst as real + Refill(rate, b[key].lastTime - since))
  }

  lemma {:induction false} TakeAccount(b: Buckets, rate: real, burst: int, c: Call, passed: nat, since: int)
    requires rate >= 0.0 && burst >= 1 && since <= c.now
    requires c.key in b ==> b[c.key].lastTime <= c.now
    requires Account(b, rate, burst, c.key, passed, since)
    ensures Account(Take(b, rate, burst, c), rate, burst, c.key,
                    passed + if Passes(b, rate, burst, c) then 1 else 0, since)
  {
    RefillGrows(rate, c.now - since);
    if c.key in b {
      RefillAdds(rate, b[c.key].lastTime - since, c.now - b[c.key].lastTime);
    }
  }

  lemma {:induction false} AccountKept(rate: real, burst: int, calls: seq<Call>, key: nat, a: nat)
    requires rate >= 0.0 && burst >= 1 && Ordered(calls) && a < |calls|
    ensures Account(TakeAll(rate, burst, calls), rate, burst, key, PassedFrom(rate, burst, calls, key, a), calls[a].now)
    decreases |calls|
  {
    var init, c := calls[..|calls| - 1], calls[|calls| - 1];
    var b := TakeAll(rate, burst, init);
    OrderedPrefix(calls, |init|);
    if init != [] {
      AllSane(rate, burst, init);
    }
    if a < |init| {
      AccountKept(rate, burst, init, key, a);
    }
    if c.key == key {
      TakeAccount(b, rate, burst, c, PassedFrom(rate, burst, init, key, a), calls[a].now);
    }
  }

  /** What passes in positions a to the end is within the burst and the refill of the time between. */
  ghost predicate Within(rate: real, burst: int, calls: seq<Call>, key: nat, a: nat)
    requires a < |calls|
  {
    PassedFrom(rate, burst, calls, key, a) as real <=
      burst as real + Refill(rate, calls[|calls| - 1].now - calls[a].now)
  }

  lemma {:induction false} BucketBound(rate: real, burst: int, calls: seq<Call>, key: nat, a: nat)
    requires rate >= 0.0 && burst >= 1 && Ordered(calls) && a < |calls|
    ensures Within(rate, burst, calls, key, a)
  {
    var b, end := TakeAll(rate, burst, calls), calls[|calls| - 1].now;
    AccountKept(rate, burst, calls, key, a);
    AllSane(rate, burst, calls);
    RefillGrows(rate, end - calls[a].now);
    if key in b && b[key].lastTime >= calls[a].now {
      RefillAdds(rate, b[key].lastTime - calls[a].now, end - b[key].lastTime);
      RefillGrows(rate, end - b[key].lastTime);
    }
  }

  /** Every interval of every history is within bounds. */
  ghost predicate Limits(rate: real, burst: int) {
    forall calls, key, a: nat | Ordered(calls) && a < |calls| :: Within(rate, burst, calls, key, a)
  }

  /**
   One call alone passes, so the burst must allow it; a later refused call must not owe tokens, so the rate must not
   be negative.
   */
  lemma {:induction false} FirstCallPasses(rate: real, burst: int)
    ensures PassedFrom(rate, burst, [Call(0, 0)], 0, 0) == 1
  {
    assert [Call(0, 0)][..0] == [];
  }

  lemma {:induction false} TwoCallsPass(rate: real, burst: int, later: int)
    ensures PassedFrom(rate, burst, [Call(0, 0), Call(1, later)], 0, 0) == 1
  {
    assert [Call(0, 0), Call(1, later)][..1] == [Call(0, 0)];
    FirstCallPasses(rate, burst);
  }

  /** The bound holds for every history exactly when the burst is at least one and the rate is not negative. */
  lemma {:induction false} LimitsIff(rate: real, burst: int)
    ensures Limits(rate, burst) <==> burst >= 1 && rate >= 0.0
  {
    if burst >= 1 && rate >= 0.0 {
      forall calls, key, a: nat | Ordered(calls) && a < |calls| ensures Within(rate, burst, calls, key, a) {
        BucketBound(rate, burst, calls, key, a);
      }
    } else if burst < 1 {
      var calls := [Call(0, 0)];
      FirstCallPasses(rate, burst);
      assert !Within(rate, burst, calls, 0, 0);
    } else {
      NegativeRateFails(rate, burst);
    }
  }

  lemma {:induction false} NegativeRateFails(rate: real, burst: int)
    requires rate < 0.0 && burst >= 1
    ensures !Limits(rate, burst)
  {
    var later := DrainTime(rate, burst);
    var calls := [Call(0, 0), Call(1, later)];
    TwoCallsPass(rate, burst, later);
    assert !Within(rate, burst, calls, 0, 0);
  }

  lemma {:induction false} PastQuotient(n: real, b: real, r: real)
    requires r > 0.0 && n > b / r
    ensures n * r > b
  {
    var q := b / r;
    assert q * r == b;
    assert (n - q) * r > 0.0;
    assert n * r == q * r + (n - q) * r;
  }

  /** How long a negative rate takes to use up the burst. */
  lemma {:induction false} DrainTime(rate: real, burst: int) returns (ms: nat)
    requires rate < 0.0 && burst >= 1
    ensures burst as real + Refill(rate, ms) < 1.0
  {
    var n := (burst as real / -rate).Floor + 1;
    PastQuotient(n as real, burst as real, -rate);
    ms := n * 1000;
    assert ms as real / 1000.0 == n as real;
    assert n as real * rate == -(n as real * -rate);
  }

  // ------------------------------------------------------------------ exact admission

  /** Counting from call a of the key, at least x tokens of the burst and of the refill since then are left at now. */
  ghost predicate LeftSince(rate: real, burst: int, calls: seq<Call>, key: nat, now: int, x: real, a: nat)
    requires a < |calls|
  {
    PassedFrom(rate, burst, calls, key, a) as real + x <= burst as real + Refill(rate, now - calls[a].now)
  }

  ghost predicate LeftSinceAll(rate: real, burst: int, calls: seq<Call>, key: nat, now: int, x: real) {
    forall a: nat | a < |calls| && calls[a].key == key :: LeftSince(rate, burst, calls, key, now, x, a)
  }

  lemma {:induction false} CalledHasBucket(rate: real, burst: int, calls: seq<Call>, key: nat)
    ensures key in TakeAll(rate, burst, calls) <==> Called(calls, key)
  {
    if calls != [] {
      var init, c := calls[..|calls| - 1], calls[|calls| - 1];
      CalledHasBucket(rate, burst, init, key);
      assert calls == init + [c];
    }
  }

  /** One more call of the key, which used p tokens. */
  lemma {:induction false} LeftSinceSnoc(rate: real, burst: int, calls: seq<Call>, key: nat, now: int, x: real, p: real)
    requires calls != [] && calls[|calls| - 1].key == key
    requires p == PassedFrom(rate, burst, calls, key, |calls| - 1) as real
    ensures var (init, last) := (calls[..|calls| - 1], calls[|calls| - 1]);
            LeftSinceAll(rate, burst, calls, key, now, x) <==>
            && burst as real >= x + p - Refill(rate, now - last.now)
            && LeftSinceAll(rate, burst, init, key, last.now, x + p - Refill(rate, now - last.now))
  {
    var init, last := calls[..|calls| - 1], calls[|calls| - 1];
    var y := x + p - Refill(rate, now - last.now);
    forall a: nat | a < |init|
      ensures init[a] == calls[a]
      ensures LeftSince(rate, burst, calls, key, now, x, a) <==> LeftSince(rate, burst, init, key, last.now, y, a)
    {
      RefillAdds(rate, last.now - calls[a].now, now - last.now);
    }
    assert LeftSince(rate, burst, calls, key, now, x, |init|) <==> burst as real >= y;
  }

  lemma {:induction false} LeftSinceOther(rate: real, burst: int, calls: seq<Call>, key: nat, now: int, x: real)
    requires calls != [] && calls[|calls| - 1].key != key
    ensures LeftSinceAll(rate, burst, calls, key, now, x) <==>
            LeftSinceAll(rate, burst, calls[..|calls| - 1], key, now, x)
  {
    var init := calls[..|calls| - 1];
    forall a: nat | a < |init|
      ensures init[a] == calls[a]
      ensures LeftSince(rate, burst, calls, key, now, x, a) <==> LeftSince(rate, burst, init, key, now, x, a)
    {
    }
  }

  /** There are x tokens exactly when the burst allows it and every earlier call of the key leaves them. */
  lemma {:induction false} LevelIff(rate: real, burst: int, calls: seq<Call>, c: Call, x: real)
    ensures Level(TakeAll(rate, burst, calls), rate, burst, c) >= x <==>
            burst as real >= x && LeftSinceAll(rate, burst, calls, c.key, c.now, x)
    decreases |calls|
  {
    if calls != [] {
      var init, last := calls[..|calls| - 1], calls[|calls| - 1];
      if last.key == c.key {
        var p: real := if Passes(TakeAll(rate, burst, init), rate, burst, last) then 1.0 else 0.0;
        LastPassed(rate, burst, calls);
        LeftSinceSnoc(rate, burst, calls, c.key, c.now, x, p);
        LevelIff(rate, burst, init, last, x + p - Refill(rate, c.now - last.now));
      } else {
        LeftSinceOther(rate, burst, calls, c.key, c.now, x);
        LevelIff(rate, burst, init, c, x);
      }
    }
  }

  lemma {:induction false} LastPassed(rate: real, burst: int, calls: seq<Call>)
    requires calls != []
    ensures var (init, last) := (calls[..|calls| - 1], calls[|calls| - 1]);
            PassedFrom(rate, burst, calls, last.key, |init|) ==
            if Passes(TakeAll(rate, burst, init), rate, burst, last) then 1 else 0
  {
  }

  /**
   Exactly when a call is let through, for every rate, burst and history: it is the first of its key, or the burst is at
   least one and, counting from each earlier call of the key, one more is within the burst and the refill since then.
   */
  lemma {:induction false} PassesIff(rate: real, burst: int, calls: seq<Call>, c: Call)
    ensures Passes(TakeAll(rate, burst, calls), rate, burst, c) <==>
            !Called(calls, c.key) ||
            (burst >= 1 && forall a: nat | a < |calls| && calls[a].key == c.key ::
               PassedFrom(rate, burst, calls, c.key, a) as real + 1.0 <=
               burst as real + (c.now - calls[a].now) as real * rate / 1000.0)
  {
    CalledHasBucket(rate, burst, calls, c.key);
    LevelIff(rate, burst, calls, c, 1.0);
    forall a: nat | a < |calls| && calls[a].key == c.key
      ensures Refill(rate, c.now - calls[a].now) == (c.now - calls[a].now) as real * rate / 1000.0
    {
      RefillIs(rate, c.now - calls[a].now);
    }
    assert LeftSinceAll(rate, burst, calls, c.key, c.now, 1.0) <==>
           forall a: nat | a < |calls| && calls[a].key == c.key ::
             PassedFrom(rate, burst, calls, c.key, a) as real + 1.0 <=
             burst as real + (c.now - calls[a].now) as real * rate / 1000.0;
  }

  lemma {:induction false} RefillIs(rate: real, ms: int)
    ensures Refill(rate, ms) == ms as real * rate / 1000.0
  {
  }

  // ------------------------------------------------------------------ the code

  class TokenBucketLimiter {
    const rate: real
    const burst: int
    var buckets: Buckets

    constructor (rate: real, burst: int)
      ensures this.rate == rate && this.burst == burst && buckets == map[]
    {
      this.rate, this.burst, buckets := rate, burst, map[];
    }

    method Allow(key: nat, now: int) returns (ok: bool)
      modifies this
      ensures buckets == Take(old(buckets), rate, burst, Call(key, now))
      ensures ok == Passes(old(buckets), rate, burst, Call(key, now))
    {
      if key !in buckets {
        buckets := buckets[key := Bucket(burst as real - 1.0, now)];
        return true;
      }
      var elapsed := (now - buckets[key].lastTime) as real / 1000.0;
      assert elapsed * rate == Refill(rate, now - buckets[key].lastTime);
      var tokens := Capped(burst, buckets[key].tokens + elapsed * rate);
      assert tokens == Level(buckets, rate, burst, Call(key, now));
      ok := tokens >= 1.0;
      if ok {
        tokens := tokens - 1.0;
      }
      buckets := buckets[key := Bucket(tokens, now)];
    }
  }
}
