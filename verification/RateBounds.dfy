/**
 The rate limiter over unbounded runs with a clock that never goes backwards: what any time
 window can admit, which traffic is admitted in full, and that refused attempts and polls
 leave no trace.
 */
module RateBounds {
  import opened RateLimiter

  datatype Call = TryAcquire(at: real, n: nat) | AskWait(at: real, n: nat)

  ghost predicate Ordered(calls: seq<Call>, from: real)
    decreases calls
  {
    calls == [] || (from <= calls[0].at && Ordered(calls[1..], calls[0].at))
  }

  function Serve(l: Limits, b: Buckets, c: Call): (Buckets, bool) {
    match c
    case TryAcquire(at, n) => Acquire(l, b, at, n)
    case AskWait(at, n) => (Wait(l, b, at, n).0, false)
  }

  /** The calls that were admitted, in order. */
  function Admitted(l: Limits, b: Buckets, calls: seq<Call>): seq<Call>
    decreases calls
  {
    if calls == [] then [] else
      var (next, ok) := Serve(l, b, calls[0]);
      var rest := Admitted(l, next, calls[1..]);
      if ok then [calls[0]] + rest else rest
  }

  /** The calls made between two moments, both included. */
  function Within(calls: seq<Call>, lo: real, hi: real): seq<Call> {
    if calls == [] then [] else
      var rest := Within(calls[1..], lo, hi);
      if lo <= calls[0].at <= hi then [calls[0]] + rest else rest
  }

  /** The two things metered: messages and bytes. */
  datatype Meter = Messages | Bytes

  function Rate(l: Limits, m: Meter): int {
    if m.Messages? then l.mps else l.bps
  }

  function Tokens(b: Buckets, m: Meter): real {
    if m.Messages? then b.messages else b.bytes
  }

  function Cost(c: Call, m: Meter): nat {
    if m.Messages? then 1 else c.n
  }

  function Total(calls: seq<Call>, m: Meter): nat {
    if calls == [] then 0 else Cost(calls[0], m) + Total(calls[1..], m)
  }

  lemma ServeKeepsCaps(l: Limits, b: Buckets, c: Call)
    requires WithinCaps(l, b) && b.lastRefill <= c.at
    ensures WithinCaps(l, Serve(l, b, c).0)
    ensures b.lastRefill <= Serve(l, b, c).0.lastRefill <= c.at
  {
    RefillKeepsCaps(l, b, c.at);
  }

  lemma ServeMeters(l: Limits, b: Buckets, c: Call, m: Meter)
    requires Rate(l, m) > 0
    ensures var (next, ok) := Serve(l, b, c);
      next.lastRefill == c.at &&
      Tokens(next, m) == Earn(Tokens(b, m), c.at - b.lastRefill, Rate(l, m)) - (if ok then Cost(c, m) as real else 0.0)
  {}

  // ----- The sliding-window bound -----

  /** What a bucket may still admit in a window that ends at `hi`. */
  ghost function Allowance(tokens: real, last: real, rate: int, lo: real, hi: real): real {
    if last < lo then rate as real + (hi - lo) * rate as real
    else if last <= hi then tokens + (hi - last) * rate as real
    else 0.0
  }

  lemma {:induction false} PastWindow(l: Limits, b: Buckets, calls: seq<Call>, lo: real, hi: real, from: real)
    requires Ordered(calls, from) && from > hi
    ensures Within(Admitted(l, b, calls), lo, hi) == []
    decreases calls
  {
    if calls == [] {
    } else {
      PastWindow(l, Serve(l, b, calls[0]).0, calls[1..], lo, hi, calls[0].at);
      var rest := Admitted(l, Serve(l, b, calls[0]).0, calls[1..]);
      assert ([calls[0]] + rest)[1..] == rest;
    }
  }

  lemma SplitSpan(from: real, mid: real, to: real, rate: real)
    requires rate > 0.0 && from <= mid <= to
    ensures (to - from) * rate == (mid - from) * rate + (to - mid) * rate
    ensures (mid - from) * rate >= 0.0 && (to - mid) * rate >= 0.0
  {}

  lemma AllowanceCovers(tokens: real, last: real, t: real, rate: int, cost: nat, lo: real, hi: real)
    requires rate > 0 && last <= t <= hi && lo <= hi
    ensures Allowance(Earn(tokens, t - last, rate) - cost as real, t, rate, lo, hi)
          + (if lo <= t then cost as real else 0.0)
         <= Allowance(tokens, last, rate, lo, hi)
  {
    if last < lo <= t {
      SplitSpan(lo, t, hi, rate as real);
    } else if lo <= t {
      SplitSpan(last, t, hi, rate as real);
    }
  }

  lemma NonNegativeProduct(a: real, b: real)
    requires a >= 0.0 && b >= 0.0
    ensures a * b >= 0.0
  {}

  lemma AllowanceNonNegative(tokens: real, last: real, rate: int, lo: real, hi: real)
    requires rate > 0 && tokens >= 0.0 && lo <= hi
    ensures Allowance(tokens, last, rate, lo, hi) >= 0.0
  {
    if last < lo {
      NonNegativeProduct(hi - lo, rate as real);
      assert (hi - lo) * rate as real >= 0.0;
    } else if last <= hi {
      NonNegativeProduct(hi - last, rate as real);
      assert (hi - last) * rate as real >= 0.0;
    }
  }

  lemma {:induction false} WindowBudget(l: Limits, b: Buckets, calls: seq<Call>, m: Meter, lo: real, hi: real)
    requires WithinCaps(l, b) && Ordered(calls, b.lastRefill) && Rate(l, m) > 0 && lo <= hi
    ensures Total(Within(Admitted(l, b, calls), lo, hi), m) as real
         <= Allowance(Tokens(b, m), b.lastRefill, Rate(l, m), lo, hi)
    decreases calls
  {
    if calls == [] {
      AllowanceNonNegative(Tokens(b, m), b.lastRefill, Rate(l, m), lo, hi);
    } else if calls[0].at > hi {
      PastWindow(l, Serve(l, b, calls[0]).0, calls[1..], lo, hi, calls[0].at);
      AdmittedCons(l, b, calls, m, lo, hi);
      AllowanceNonNegative(Tokens(b, m), b.lastRefill, Rate(l, m), lo, hi);
    } else {
      var c := calls[0];
      var (next, ok) := Serve(l, b, c);
      ServeKeepsCaps(l, b, c);
      ServeMeters(l, b, c, m);
      AllowanceCovers(Tokens(b, m), b.lastRefill, c.at, Rate(l, m), if ok then Cost(c, m) else 0, lo, hi);
      WindowBudget(l, next, calls[1..], m, lo, hi);
      AdmittedCons(l, b, calls, m, lo, hi);
    }
  }

  lemma AdmittedCons(l: Limits, b: Buckets, calls: seq<Call>, m: Meter, lo: real, hi: real)
    requires calls != []
    ensures var (next, ok) := Serve(l, b, calls[0]);
      Total(Within(Admitted(l, b, calls), lo, hi), m) ==
      (if ok && lo <= calls[0].at <= hi then Cost(calls[0], m) else 0) +
      Total(Within(Admitted(l, next, calls[1..]), lo, hi), m)
  {
    var rest := Admitted(l, Serve(l, b, calls[0]).0, calls[1..]);
    assert ([calls[0]] + rest)[1..] == rest;
    assert ([calls[0]] + Within(rest, lo, hi))[1..] == Within(rest, lo, hi);
  }

  /** The calls in the window [lo, hi] cost at most its length times the rate, plus one full bucket. */
  ghost predicate WindowBounded(l: Limits, calls: seq<Call>, m: Meter, lo: real, hi: real) {
    Total(Within(calls, lo, hi), m) as real <= (hi - lo) * Rate(l, m) as real + Rate(l, m) as real
  }

  /**
   In any run from a full limiter and any window [lo, hi], the admitted messages are at most
   mps * (hi - lo) + mps, and the admitted bytes at most bps * (hi - lo) + bps.
   */
  lemma SlidingWindow(l: Limits, start: real, calls: seq<Call>, m: Meter, lo: real, hi: real)
    requires Ordered(calls, start) && Rate(l, m) > 0 && lo <= hi
    ensures WindowBounded(l, Admitted(l, Full(l, start), calls), m, lo, hi)
  {
    FullAllowance(start, Rate(l, m), lo, hi);
    assert Tokens(Full(l, start), m) == Rate(l, m) as real;
    WindowBudget(l, Full(l, start), calls, m, lo, hi);
  }

  lemma FullAllowance(start: real, rate: int, lo: real, hi: real)
    requires rate > 0 && lo <= hi
    ensures Allowance(rate as real, start, rate, lo, hi) <= (hi - lo) * rate as real + rate as real
  {
    SplitSpan(lo, lo, hi, rate as real);
    if lo <= start <= hi { SplitSpan(lo, start, hi, rate as real); }
  }

  /** In any run both buckets stay between empty and full. */
  lemma {:induction false} BucketsStayWithinCaps(l: Limits, b: Buckets, calls: seq<Call>)
    requires WithinCaps(l, b) && Ordered(calls, b.lastRefill)
    ensures WithinCaps(l, After(l, b, calls))
    decreases calls
  {
    if calls == [] {
    } else {
      ServeKeepsCaps(l, b, calls[0]);
      OrderedFromEarlier(calls[1..], calls[0].at, Serve(l, b, calls[0]).0.lastRefill);
      BucketsStayWithinCaps(l, Serve(l, b, calls[0]).0, calls[1..]);
    }
  }

  function After(l: Limits, b: Buckets, calls: seq<Call>): Buckets
    decreases calls
  {
    if calls == [] then b else After(l, Serve(l, b, calls[0]).0, calls[1..])
  }

  lemma OrderedFromEarlier(calls: seq<Call>, from: real, earlier: real)
    requires Ordered(calls, from) && earlier <= from
    ensures Ordered(calls, earlier)
  {}

  // ----- Which traffic is admitted in full -----

  ghost predicate WindowOk(l: Limits, m: Meter, calls: seq<Call>, i: nat, j: nat)
    requires i <= j < |calls|
  {
    Rate(l, m) > 0 ==>
      Total(calls[i..j + 1], m) as real <= (calls[j].at - calls[i].at) * Rate(l, m) as real + Rate(l, m) as real
  }

  /** No run of consecutive calls exceeds the rates over the time it spans. */
  ghost predicate Conforms(l: Limits, calls: seq<Call>) {
    forall m, i, j :: 0 <= i <= j < |calls| ==> WindowOk(l, m, calls, i, j)
  }

  ghost predicate OnlyAttempts(calls: seq<Call>) {
    forall i :: 0 <= i < |calls| ==> calls[i].TryAcquire?
  }

  lemma {:induction false} TotalConcat(a: seq<Call>, b: seq<Call>, m: Meter)
    ensures Total(a + b, m) == Total(a, m) + Total(b, m)
  {
    if a == [] {
      assert a + b == b;
    } else {
      assert (a + b)[1..] == a[1..] + b;
      TotalConcat(a[1..], b, m);
    }
  }

  lemma {:induction false} WithinConcat(a: seq<Call>, b: seq<Call>, lo: real, hi: real)
    ensures Within(a + b, lo, hi) == Within(a, lo, hi) + Within(b, lo, hi)
  {
    if a == [] {
      assert a + b == b;
    } else {
      assert (a + b)[1..] == a[1..] + b;
      WithinConcat(a[1..], b, lo, hi);
    }
  }

  lemma {:induction false} WithinAll(calls: seq<Call>, lo: real, hi: real)
    requires forall i :: 0 <= i < |calls| ==> lo <= calls[i].at <= hi
    ensures Within(calls, lo, hi) == calls
  {
    if calls == [] {
    } else {
      WithinAll(calls[1..], lo, hi);
    }
  }

  lemma {:induction false} OrderedTimes(calls: seq<Call>, from: real)
    requires Ordered(calls, from)
    ensures forall i :: 0 <= i < |calls| ==> from <= calls[i].at
    ensures forall i, j :: 0 <= i <= j < |calls| ==> calls[i].at <= calls[j].at
    decreases calls
  {
    if calls == [] {
    } else {
      OrderedTimes(calls[1..], calls[0].at);
      assert forall i :: 0 < i < |calls| ==> calls[i] == calls[1..][i - 1];
    }
  }

  lemma WithinMiddle(a: seq<Call>, mid: seq<Call>, z: seq<Call>, lo: real, hi: real, m: Meter)
    requires forall i :: 0 <= i < |mid| ==> lo <= mid[i].at <= hi
    ensures Total(mid, m) <= Total(Within(a + (mid + z), lo, hi), m)
  {
    WithinConcat(a, mid + z, lo, hi);
    WithinConcat(mid, z, lo, hi);
    WithinAll(mid, lo, hi);
    TotalConcat(Within(a, lo, hi), mid + Within(z, lo, hi), m);
    TotalConcat(mid, Within(z, lo, hi), m);
  }

  lemma StretchConforms(l: Limits, start: real, calls: seq<Call>, m: Meter, i: nat, j: nat)
    requires Ordered(calls, start) && i <= j < |calls|
    requires WindowBounded(l, calls, m, calls[i].at, calls[j].at)
    ensures WindowOk(l, m, calls, i, j)
  {
    OrderedTimes(calls, start);
    assert calls == calls[..i] + (calls[i..j + 1] + calls[j + 1..]);
    WithinMiddle(calls[..i], calls[i..j + 1], calls[j + 1..], calls[i].at, calls[j].at, m);
  }

  lemma AdmittedConforms(l: Limits, start: real, calls: seq<Call>)
    requires Ordered(calls, start) && Admitted(l, Full(l, start), calls) == calls
    ensures Conforms(l, calls)
  {
    forall m, i, j | 0 <= i <= j < |calls| ensures WindowOk(l, m, calls, i, j) {
      if Rate(l, m) > 0 {
        OrderedTimes(calls, start);
        SlidingWindow(l, start, calls, m, calls[i].at, calls[j].at);
        StretchConforms(l, start, calls, m, i, j);
      }
    }
  }

  /** What is left of a bucket that was full just before call i, if calls i to k-1 were all admitted. */
  ghost function LeftSince(calls: seq<Call>, m: Meter, rate: int, i: nat, k: nat, now: real): real
    requires i <= k <= |calls| && i < |calls|
  {
    rate as real + (now - calls[i].at) * rate as real - Total(calls[i..k], m) as real
  }

  /** After k admitted calls each bucket is as full as its tightest window leaves it. */
  ghost predicate Tracks(l: Limits, m: Meter, calls: seq<Call>, k: nat, b: Buckets)
    requires k <= |calls|
  {
    if k == 0 then Tokens(b, m) == Rate(l, m) as real else
      b.lastRefill == calls[k - 1].at &&
      exists i :: 0 <= i < k && Tokens(b, m) == LeftSince(calls, m, Rate(l, m), i, k, b.lastRefill)
  }

  lemma TotalSnoc(calls: seq<Call>, m: Meter, i: nat, k: nat)
    requires i <= k < |calls|
    ensures Total(calls[i..k + 1], m) == Total(calls[i..k], m) + Cost(calls[k], m)
  {
    assert calls[i..k + 1] == calls[i..k] + [calls[k]];
    TotalConcat(calls[i..k], [calls[k]], m);
  }

  lemma LeftEarns(calls: seq<Call>, m: Meter, rate: int, i: nat, k: nat, last: real, now: real)
    requires i <= k <= |calls| && i < |calls|
    ensures Earn(LeftSince(calls, m, rate, i, k, last), now - last, rate)
         == Min(LeftSince(calls, m, rate, i, k, now), rate as real)
  {}

  lemma WindowLeavesCost(l: Limits, m: Meter, calls: seq<Call>, i: nat, k: nat)
    requires i <= k < |calls| && WindowOk(l, m, calls, i, k) && Rate(l, m) > 0
    ensures LeftSince(calls, m, Rate(l, m), i, k, calls[k].at) >= Cost(calls[k], m) as real
    ensures LeftSince(calls, m, Rate(l, m), i, k, calls[k].at) - Cost(calls[k], m) as real
         == LeftSince(calls, m, Rate(l, m), i, k + 1, calls[k].at)
  {
    TotalSnoc(calls, m, i, k);
  }

  lemma LeftNow(calls: seq<Call>, m: Meter, rate: int, k: nat)
    requires k < |calls|
    ensures LeftSince(calls, m, rate, k, k, calls[k].at) == rate as real
  {}

  /** A conforming call finds its tokens, and leaves its bucket tracking again. */
  lemma ConformingFindsTokens(l: Limits, m: Meter, calls: seq<Call>, k: nat, b: Buckets) returns (i: nat)
    requires k < |calls| && Conforms(l, calls) && Tracks(l, m, calls, k, b) && Rate(l, m) > 0
    requires b.lastRefill <= calls[k].at
    ensures i <= k
    ensures Earn(Tokens(b, m), calls[k].at - b.lastRefill, Rate(l, m)) >= Cost(calls[k], m) as real
    ensures Earn(Tokens(b, m), calls[k].at - b.lastRefill, Rate(l, m)) - Cost(calls[k], m) as real
         == LeftSince(calls, m, Rate(l, m), i, k + 1, calls[k].at)
  {
    var rate, t := Rate(l, m), calls[k].at;
    assert WindowOk(l, m, calls, k, k);
    WindowLeavesCost(l, m, calls, k, k);
    LeftNow(calls, m, rate, k);
    i := k;
    if k > 0 {
      var j :| 0 <= j < k && Tokens(b, m) == LeftSince(calls, m, rate, j, k, b.lastRefill);
      assert WindowOk(l, m, calls, j, k);
      WindowLeavesCost(l, m, calls, j, k);
      LeftEarns(calls, m, rate, j, k, b.lastRefill, t);
      if LeftSince(calls, m, rate, j, k, t) <= rate as real { i := j; }
    } else {
      EarnBounds(rate as real, t - b.lastRefill, rate);
    }
  }

  lemma ConformingStep(l: Limits, calls: seq<Call>, k: nat, b: Buckets)
    requires k < |calls| && Conforms(l, calls) && OnlyAttempts(calls)
    requires forall m {:trigger Rate(l, m)} :: Rate(l, m) > 0 ==> Tracks(l, m, calls, k, b)
    requires b.lastRefill <= calls[k].at
    ensures Serve(l, b, calls[k]).1
    ensures forall m {:trigger Rate(l, m)} :: Rate(l, m) > 0 ==> Tracks(l, m, calls, k + 1, Serve(l, b, calls[k]).0)
  {
    var c := calls[k];
    if Rate(l, Messages) > 0 { var _ := ConformingFindsTokens(l, Messages, calls, k, b); }
    if Rate(l, Bytes) > 0 { var _ := ConformingFindsTokens(l, Bytes, calls, k, b); }
    forall m | Rate(l, m) > 0 ensures Tracks(l, m, calls, k + 1, Serve(l, b, c).0) {
      ServeMeters(l, b, c, m);
      var i := ConformingFindsTokens(l, m, calls, k, b);
    }
  }

  lemma {:induction false} ConformingIsAdmitted(l: Limits, calls: seq<Call>, k: nat, b: Buckets)
    requires k <= |calls| && Conforms(l, calls) && OnlyAttempts(calls)
    requires forall m {:trigger Rate(l, m)} :: Rate(l, m) > 0 ==> Tracks(l, m, calls, k, b)
    requires Ordered(calls[k..], b.lastRefill)
    ensures Admitted(l, b, calls[k..]) == calls[k..]
    decreases |calls| - k
  {
    if k == |calls| {
    } else {
      var next := Serve(l, b, calls[k]).0;
      assert calls[k..] == [calls[k]] + calls[k + 1..] && calls[k..][1..] == calls[k + 1..];
      ConformingStep(l, calls, k, b);
      ServeTime(l, b, calls[k]);
      OrderedFromEarlier(calls[k + 1..], calls[k].at, next.lastRefill);
      ConformingIsAdmitted(l, calls, k + 1, next);
    }
  }

  lemma ServeTime(l: Limits, b: Buckets, c: Call)
    requires b.lastRefill <= c.at
    ensures b.lastRefill <= Serve(l, b, c).0.lastRefill <= c.at
  {}

  /** A run of attempts is admitted in full exactly when every stretch of it keeps to the rates. */
  lemma AdmittedExactly(l: Limits, start: real, calls: seq<Call>)
    requires Ordered(calls, start) && OnlyAttempts(calls)
    ensures Admitted(l, Full(l, start), calls) == calls <==> Conforms(l, calls)
  {
    if Conforms(l, calls) {
      assert calls[0..] == calls;
      ConformingIsAdmitted(l, calls, 0, Full(l, start));
    }
    if Admitted(l, Full(l, start), calls) == calls {
      AdmittedConforms(l, start, calls);
    }
  }

  // ----- Refused attempts and polls leave no trace -----

  function Outcomes(l: Limits, b: Buckets, calls: seq<Call>): (r: seq<bool>)
    ensures |r| == |calls|
    decreases calls
  {
    if calls == [] then [] else
      [Serve(l, b, calls[0]).1] + Outcomes(l, Serve(l, b, calls[0]).0, calls[1..])
  }

  function Keep<T>(s: seq<T>, mask: seq<bool>): seq<T>
    requires |mask| == |s|
  {
    if s == [] then [] else
      if mask[0] then [s[0]] + Keep(s[1..], mask[1..]) else Keep(s[1..], mask[1..])
  }

  /** Two states that no call from `now` on can tell apart. */
  ghost predicate Alike(l: Limits, a: Buckets, b: Buckets, now: real) {
    && a.lastRefill <= now && b.lastRefill <= now
    && (Unlimited(l) || Refill(l, a, now) == Refill(l, b, now))
  }

  lemma AlikeLater(l: Limits, a: Buckets, b: Buckets, now: real, later: real)
    requires Alike(l, a, b, now) && now <= later
    ensures Alike(l, a, b, later)
  {
    RefillComposes(l, a, now, later);
    RefillComposes(l, b, now, later);
  }

  lemma {:induction false} AlikeOutcomes(
      l: Limits, a: Buckets, b: Buckets, now: real, calls: seq<Call>, mask: seq<bool>)
    requires Alike(l, a, b, now) && Ordered(calls, now) && |mask| == |calls|
    requires forall i :: 0 <= i < |calls| && Outcomes(l, a, calls)[i] ==> mask[i]
    ensures Outcomes(l, b, Keep(calls, mask)) == Keep(Outcomes(l, a, calls), mask)
    decreases calls
  {
    if calls == [] {
    } else {
      var c := calls[0];
      AlikeLater(l, a, b, now, c.at);
      var (next, ok) := Serve(l, a, c);
      var outs := Outcomes(l, a, calls);
      assert outs[1..] == Outcomes(l, next, calls[1..]);
      if mask[0] {
        assert Serve(l, b, c).1 == ok;
        assert Keep(calls, mask)[1..] == Keep(calls[1..], mask[1..]);
        AlikeOutcomes(l, next, Serve(l, b, c).0, c.at, calls[1..], mask[1..]);
      } else {
        assert !outs[0];
        if !Unlimited(l) { RefillComposes(l, a, c.at, c.at); }
        AlikeOutcomes(l, next, b, c.at, calls[1..], mask[1..]);
      }
    }
  }

  /**
   Leaving out any refused attempts and any wait-time polls changes the outcome of no other
   call: the remaining calls are admitted or refused as before.
   */
  lemma PollingIsNeutral(l: Limits, start: real, calls: seq<Call>, mask: seq<bool>)
    requires Ordered(calls, start) && |mask| == |calls|
    requires forall i :: 0 <= i < |calls| && Outcomes(l, Full(l, start), calls)[i] ==> mask[i]
    ensures Outcomes(l, Full(l, start), Keep(calls, mask)) == Keep(Outcomes(l, Full(l, start), calls), mask)
  {
    AlikeOutcomes(l, Full(l, start), Full(l, start), start, calls, mask);
  }
}
