/**
 The token-bucket rate limiter: one bucket of messages and one of bytes, refilled from a
 clock and consumed together. Time is a real number given by the caller of each method.
 */
module RateLimiter {

  /** Per-second limits; a limit that is not positive is not enforced. */
  datatype Limits = Limits(mps: int, bps: int)

  datatype Buckets = Buckets(messages: real, bytes: real, lastRefill: real)

  function Min(a: real, b: real): real {
    if a <= b then a else b
  }

  function Max(a: real, b: real): real {
    if a >= b then a else b
  }

  predicate Unlimited(l: Limits) {
    l.mps == 0 && l.bps == 0
  }

  function Full(l: Limits, now: real): Buckets {
    Buckets(l.mps as real, l.bps as real, now)
  }

  /** One bucket after `elapsed` seconds: it gains `rate` tokens a second and holds `rate` at most. */
  function Earn(tokens: real, elapsed: real, rate: int): real {
    Min(tokens + elapsed * rate as real, rate as real)
  }

  function Refill(l: Limits, b: Buckets, now: real): Buckets {
    var elapsed := now - b.lastRefill;
    Buckets(
      if l.mps > 0 then Earn(b.messages, elapsed, l.mps) else b.messages,
      if l.bps > 0 then Earn(b.bytes, elapsed, l.bps) else b.bytes,
      now)
  }

  predicate Affords(l: Limits, b: Buckets, n: nat) {
    (l.mps > 0 ==> b.messages >= 1.0) && (l.bps > 0 ==> b.bytes >= n as real)
  }

  function Consume(l: Limits, b: Buckets, n: nat): Buckets {
    b.(messages := if l.mps > 0 then b.messages - 1.0 else b.messages,
       bytes := if l.bps > 0 then b.bytes - n as real else b.bytes)
  }

  function Acquire(l: Limits, b: Buckets, now: real, n: nat): (Buckets, bool) {
    if Unlimited(l) then (b, true) else
      var r := Refill(l, b, now);
      if Affords(l, r, n) then (Consume(l, r, n), true) else (r, false)
  }

  function WaitOf(l: Limits, b: Buckets, n: nat): real {
    var forMessage := if l.mps > 0 && b.messages < 1.0 then (1.0 - b.messages) / l.mps as real else 0.0;
    if l.bps > 0 && b.bytes < n as real then Max(forMessage, (n as real - b.bytes) / l.bps as real) else forMessage
  }

  function Wait(l: Limits, b: Buckets, now: real, n: nat): (Buckets, real) {
    if Unlimited(l) then (b, 0.0) else
      var r := Refill(l, b, now);
      (r, Max(0.0, WaitOf(l, r, n)))
  }

  class RateLimiter {
    const limits: Limits
    var messageTokens: real
    var byteTokens: real
    var lastRefill: real

    ghost function Contents(): Buckets
      reads this
    {
      Buckets(messageTokens, byteTokens, lastRefill)
    }

    constructor (limits: Limits, now: real)
      ensures this.limits == limits && Contents() == Full(limits, now)
    {
      this.limits := limits;
      messageTokens, byteTokens, lastRefill := limits.mps as real, limits.bps as real, now;
    }

    method RefillTokens(now: real)
      modifies this
      ensures Contents() == Refill(limits, old(Contents()), now)
    {
      var elapsed := now - lastRefill;
      lastRefill := now;
      if limits.mps > 0 {
        messageTokens := Min(messageTokens + elapsed * limits.mps as real, limits.mps as real);
      }
      if limits.bps > 0 {
        byteTokens := Min(byteTokens + elapsed * limits.bps as real, limits.bps as real);
      }
    }

    method TryAcquire(now: real, n: nat) returns (allowed: bool)
      modifies this
      ensures (Contents(), allowed) == Acquire(limits, old(Contents()), now, n)
    {
      if limits.mps == 0 && limits.bps == 0 { return true; }
      RefillTokens(now);
      if limits.mps > 0 && messageTokens < 1.0 { return false; }
      if limits.bps > 0 && byteTokens < n as real { return false; }
      if limits.mps > 0 { messageTokens := messageTokens - 1.0; }
      if limits.bps > 0 { byteTokens := byteTokens - n as real; }
      return true;
    }

    method TimeUntilAllowed(now: real, n: nat) returns (wait: real)
      modifies this
      ensures (Contents(), wait) == Wait(limits, old(Contents()), now, n)
    {
      if limits.mps == 0 && limits.bps == 0 { return 0.0; }
      RefillTokens(now);
      wait := 0.0;
      if limits.mps > 0 && messageTokens < 1.0 {
        var needed := 1.0 - messageTokens;
        wait := Max(wait, needed / limits.mps as real);
      }
      if limits.bps > 0 && byteTokens < n as real {
        var needed := n as real - byteTokens;
        wait := Max(wait, needed / limits.bps as real);
      }
    }
  }

  // ----- Refilling -----

  ghost predicate WithinCaps(l: Limits, b: Buckets) {
    && (l.mps > 0 ==> 0.0 <= b.messages <= l.mps as real)
    && (l.bps > 0 ==> 0.0 <= b.bytes <= l.bps as real)
  }

  lemma ScaleMono(a: real, b: real, rate: real)
    requires rate > 0.0
    ensures a <= b <==> a * rate <= b * rate
  {
    assert (b - a) * rate == b * rate - a * rate;
  }

  lemma EarnBounds(tokens: real, elapsed: real, rate: int)
    requires rate > 0 && elapsed >= 0.0 && tokens <= rate as real
    ensures tokens <= Earn(tokens, elapsed, rate) <= rate as real
  {
    assert elapsed * rate as real >= 0.0;
  }

  lemma EarnComposes(tokens: real, x: real, y: real, rate: int)
    requires rate > 0 && x >= 0.0 && y >= 0.0
    ensures Earn(Earn(tokens, x, rate), y, rate) == Earn(tokens, x + y, rate)
  {
    var r := rate as real;
    assert (x + y) * r == x * r + y * r;
    assert y * r >= 0.0;
  }

  /** A bucket short of `need` tokens has them after exactly (need - tokens) / rate seconds. */
  lemma EarnReaches(tokens: real, d: real, rate: int, need: real)
    requires rate > 0 && d >= 0.0 && need <= rate as real
    ensures Earn(tokens, d, rate) >= need <==> (tokens < need ==> d >= (need - tokens) / rate as real)
  {
    var r := rate as real;
    var w := (need - tokens) / r;
    assert w * r == need - tokens;
    ScaleMono(w, d, r);
    assert d * r >= 0.0;
  }

  lemma RefillKeepsCaps(l: Limits, b: Buckets, now: real)
    requires WithinCaps(l, b) && b.lastRefill <= now
    ensures WithinCaps(l, Refill(l, b, now))
  {
    if l.mps > 0 { EarnBounds(b.messages, now - b.lastRefill, l.mps); }
    if l.bps > 0 { EarnBounds(b.bytes, now - b.lastRefill, l.bps); }
  }

  /** Splitting a refill at any moment in between changes nothing. */
  lemma RefillComposes(l: Limits, b: Buckets, mid: real, now: real)
    requires b.lastRefill <= mid <= now
    ensures Refill(l, Refill(l, b, mid), now) == Refill(l, b, now)
  {
    if l.mps > 0 { EarnComposes(b.messages, mid - b.lastRefill, now - mid, l.mps); }
    if l.bps > 0 { EarnComposes(b.bytes, mid - b.lastRefill, now - mid, l.bps); }
  }

  // ----- Waiting -----

  /** The message is small enough for the byte bucket ever to hold its tokens. */
  predicate Fits(l: Limits, n: nat) {
    l.bps > 0 ==> n <= l.bps
  }

  /** After asking for the wait at `now`, an acquire `d` seconds later is allowed. */
  predicate AllowedAfter(l: Limits, b: Buckets, now: real, n: nat, d: real) {
    Acquire(l, Wait(l, b, now, n).0, now + d, n).1
  }

  lemma AcquireAfterWait(l: Limits, b: Buckets, now: real, n: nat, d: real)
    requires WithinCaps(l, b) && b.lastRefill <= now && d >= 0.0
    ensures AllowedAfter(l, b, now, n, d) <==> Fits(l, n) && d >= Wait(l, b, now, n).1
    ensures Wait(l, b, now, n).1 >= 0.0
  {
    if !Unlimited(l) {
      var r := Refill(l, b, now);
      if l.mps > 0 { EarnReaches(r.messages, d, l.mps, 1.0); }
      if l.bps > 0 && Fits(l, n) { EarnReaches(r.bytes, d, l.bps, n as real); }
    }
  }

  /**
   The wait reported is exact: an acquire d later succeeds if and only if d is at least the
   wait. This holds precisely for messages that fit the byte bucket; a larger one never
   succeeds although a finite wait is reported.
   */
  lemma WaitIsExact(l: Limits, b: Buckets, now: real, n: nat)
    requires WithinCaps(l, b) && b.lastRefill <= now
    ensures (forall d :: d >= 0.0 ==> (AllowedAfter(l, b, now, n, d) <==> d >= Wait(l, b, now, n).1)) <==> Fits(l, n)
    ensures !Fits(l, n) ==> forall d :: d >= 0.0 ==> !AllowedAfter(l, b, now, n, d)
    ensures Wait(l, b, now, n).1 >= 0.0
  {
    forall d | d >= 0.0
      ensures AllowedAfter(l, b, now, n, d) <==> Fits(l, n) && d >= Wait(l, b, now, n).1
    {
      AcquireAfterWait(l, b, now, n, d);
    }
    AcquireAfterWait(l, b, now, n, Wait(l, b, now, n).1);
  }
}
