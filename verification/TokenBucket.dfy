/**
 Token bucket arithmetic (ratelimit.go) on values: the life of one bucket, and its exact meaning as
 a bound on every window of calls. Times are integer nanoseconds and token counts are reals.
 */
module TokenBucket {

  datatype Bucket = Bucket(tokens: real, last: int)

  datatype Limits = Limits(rate: real, burst: real)

  /** What a duration earns. Negative for a duration that runs backwards. */
  function Earned(d: int, l: Limits): real {
    d as real / 1_000_000_000.0 * l.rate
  }

  lemma EarnedAdds(d: int, e: int, l: Limits)
    ensures Earned(d + e, l) == Earned(d, l) + Earned(e, l)
  {
    var x, y := d as real / 1_000_000_000.0, e as real / 1_000_000_000.0;
    assert (d + e) as real / 1_000_000_000.0 == x + y;
    assert (x + y) * l.rate == x * l.rate + y * l.rate;
  }

  /** A new bucket has already paid for the call that created it. */
  function Fresh(now: int, l: Limits): Bucket {
    Bucket(l.burst - 1.0, now)
  }

  function Refilled(b: Bucket, now: int, l: Limits): real {
    var t := b.tokens + Earned(now - b.last, l);
    if t > l.burst then l.burst else t
  }

  /** A call on an existing bucket: refill, then take a token if there is a whole one. */
  function Take(b: Bucket, now: int, l: Limits): (Bucket, bool) {
    var t := Refilled(b, now, l);
    if t < 1.0 then (Bucket(t, now), false) else (Bucket(t - 1.0, now), true)
  }

  // ---------- the life of one bucket ----------

  /** The bucket after calls at the given times, the first of which created it. Times may run backwards. */
  function After(times: seq<int>, l: Limits): Bucket
    requires times != []
  {
    var k := |times| - 1;
    if k == 0 then Fresh(times[0], l) else Take(After(times[..k], l), times[k], l).0
  }

  /** The tokens on hand when call n is decided. */
  function Tokens(times: seq<int>, n: nat, l: Limits): real
    requires n < |times|
  {
    if n == 0 then l.burst else Refilled(After(times[..n], l), times[n], l)
  }

  /** Whether call n is allowed. */
  predicate Allows(times: seq<int>, n: nat, l: Limits)
    requires n < |times|
  {
    n == 0 || Take(After(times[..n], l), times[n], l).1
  }

  /** How many of the calls i, ..., j - 1 are allowed. */
  function Allowed(times: seq<int>, i: nat, j: nat, l: Limits): nat
    requires i <= j <= |times|
    decreases j - i
  {
    if i == j then 0 else Allowed(times, i, j - 1, l) + (if Allows(times, j - 1, l) then 1 else 0)
  }

  /** What the window from call j leaves at call n. */
  function Window(times: seq<int>, j: nat, n: nat, l: Limits): real
    requires j <= n < |times|
  {
    l.burst + Earned(times[n] - times[j], l) - Allowed(times, j, n, l) as real
  }

  /** From call n to call n + 1: what was taken is gone, what the gap earned is added, the cap applies. */
  lemma TokensStep(times: seq<int>, n: nat, l: Limits)
    requires l.burst >= 1.0 && n + 1 < |times|
    ensures var taken := if Allows(times, n, l) then 1.0 else 0.0;
            var t := Tokens(times, n, l) - taken + Earned(times[n + 1] - times[n], l);
            Tokens(times, n + 1, l) == if t > l.burst then l.burst else t
  {
    assert times[..n + 1][..n] == times[..n];
    assert times[..n + 1][n] == times[n];
  }

  lemma WindowStep(times: seq<int>, j: nat, n: nat, l: Limits)
    requires j <= n && n + 1 < |times|
    ensures Window(times, j, n + 1, l)
         == Window(times, j, n, l) - (if Allows(times, n, l) then 1.0 else 0.0) + Earned(times[n + 1] - times[n], l)
  {
    EarnedAdds(times[n] - times[j], times[n + 1] - times[n], l);
  }

  lemma WindowCarriesOver(times: seq<int>, j: nat, n: nat, l: Limits)
    requires l.burst >= 1.0 && j <= n && n + 1 < |times|
    requires Tokens(times, n, l) <= Window(times, j, n, l)
    ensures Tokens(times, n + 1, l) <= Window(times, j, n + 1, l)
    ensures Tokens(times, n, l) == Window(times, j, n, l) && Tokens(times, n + 1, l) < l.burst
            ==> Tokens(times, n + 1, l) == Window(times, j, n + 1, l)
  {
    TokensStep(times, n, l);
    WindowStep(times, j, n, l);
  }

  lemma OwnWindow(times: seq<int>, n: nat, l: Limits)
    requires n < |times|
    ensures Window(times, n, n, l) == l.burst && Tokens(times, n, l) <= l.burst
  {
    assert Earned(0, l) == 0.0;
  }

  /** The tokens are the least of what the windows leave; `least` is one that attains it. */
  lemma {:induction false} TokensAreTheLeastWindow(times: seq<int>, n: nat, l: Limits) returns (least: nat)
    requires l.burst >= 1.0 && n < |times|
    ensures forall j :: 0 <= j <= n ==> Tokens(times, n, l) <= Window(times, j, n, l)
    ensures least <= n && Tokens(times, n, l) == Window(times, least, n, l)
  {
    OwnWindow(times, n, l);
    if n == 0 {
      return 0;
    }
    var before := TokensAreTheLeastWindow(times, n - 1, l);
    forall j | 0 <= j < n ensures Tokens(times, n, l) <= Window(times, j, n, l) {
      WindowCarriesOver(times, j, n - 1, l);
    }
    WindowCarriesOver(times, before, n - 1, l);
    least := if Tokens(times, n, l) == l.burst then n else before;
  }

  /** With one more call at n, the window from call j holds no more than the burst and what it has earned. */
  predicate WithinShare(times: seq<int>, j: nat, n: nat, l: Limits)
    requires j <= n < |times|
  {
    Allowed(times, j, n, l) as real + 1.0 <= l.burst + Earned(times[n] - times[j], l)
  }

  lemma AllowsIffWithinShares(times: seq<int>, n: nat, l: Limits)
    requires l.burst >= 1.0 && n < |times|
    ensures Allows(times, n, l) <==> forall j :: 0 <= j <= n ==> WithinShare(times, j, n, l)
  {
    var least := TokensAreTheLeastWindow(times, n, l);
    assert Allows(times, n, l) <==> Tokens(times, n, l) >= 1.0;
    forall j | 0 <= j <= n ensures WithinShare(times, j, n, l) <==> Window(times, j, n, l) >= 1.0 {
    }
    assert WithinShare(times, least, n, l) <==> Tokens(times, n, l) >= 1.0;
  }

  lemma BoundWrittenOut(times: seq<int>, j: nat, n: nat, l: Limits, count: real)
    requires j <= n < |times|
    ensures count <= l.burst + Earned(times[n] - times[j], l) <==>
            count <= l.burst + (times[n] - times[j]) as real / 1_000_000_000.0 * l.rate
  {
  }

  lemma ShareWrittenOut(times: seq<int>, j: nat, n: nat, l: Limits)
    requires j <= n < |times|
    ensures WithinShare(times, j, n, l) <==>
            Allowed(times, j, n, l) as real + 1.0
            <= l.burst + (times[n] - times[j]) as real / 1_000_000_000.0 * l.rate
  {
    BoundWrittenOut(times, j, n, l, Allowed(times, j, n, l) as real + 1.0);
  }

  lemma SharesWrittenOut(times: seq<int>, n: nat, l: Limits)
    requires n < |times|
    ensures (forall j :: 0 <= j <= n ==> WithinShare(times, j, n, l)) <==>
            forall j :: 0 <= j <= n ==>
              Allowed(times, j, n, l) as real + 1.0
              <= l.burst + (times[n] - times[j]) as real / 1_000_000_000.0 * l.rate
  {
    forall j | 0 <= j <= n
      ensures WithinShare(times, j, n, l) <==>
              Allowed(times, j, n, l) as real + 1.0
              <= l.burst + (times[n] - times[j]) as real / 1_000_000_000.0 * l.rate
    {
      ShareWrittenOut(times, j, n, l);
    }
  }

  /**
   A call is allowed exactly when, with it, no window that ends at it holds more calls than the burst plus the
   rate times the seconds the window lasts.
   */
  lemma AllowsIffNoWindowExceeded(times: seq<int>, n: nat, l: Limits)
    requires l.burst >= 1.0 && n < |times|
    ensures Allows(times, n, l) <==>
            forall j :: 0 <= j <= n ==>
              Allowed(times, j, n, l) as real + 1.0
              <= l.burst + (times[n] - times[j]) as real / 1_000_000_000.0 * l.rate
  {
    AllowsIffWithinShares(times, n, l);
    SharesWrittenOut(times, n, l);
  }

  /** The rate limit: up to any allowed call, no window holds more calls than the burst plus what it earned. */
  lemma WindowsAreBounded(times: seq<int>, i: nat, n: nat, l: Limits)
    requires l.burst >= 1.0 && i <= n < |times| && Allows(times, n, l)
    ensures Allowed(times, i, n + 1, l) as real
            <= l.burst + (times[n] - times[i]) as real / 1_000_000_000.0 * l.rate
  {
    AllowsIffNoWindowExceeded(times, n, l);
    assert Allowed(times, i, n + 1, l) == Allowed(times, i, n, l) + 1;
  }
}
