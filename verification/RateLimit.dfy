/** The per-key token bucket and its Retry-After header.

Instants and durations are whole nanoseconds, as the clock delivers them; token counts are exact reals.
A returned wait is truncated to nanoseconds, which is the one place where rounding decides an outcome.
 */
module RateLimit {
  import opened Wrappers

  const SECOND := 1_000_000_000

  datatype Config = Config(capacity: int, rate: real)
  datatype Bucket = Bucket(tokens: real, lastRefill: int)
  datatype Outcome = Outcome(allowed: bool, wait: int)

  ghost predicate ValidConfig(cfg: Config) {
    cfg.rate > 0.0
  }

  function Full(cfg: Config, now: int): Bucket {
    Bucket(cfg.capacity as real, now)
  }

  /** Tokens earned in `ns` nanoseconds. */
  function Earned(cfg: Config, ns: int): real {
    ns as real / 1_000_000_000.0 * cfg.rate
  }

  function Refilled(cfg: Config, b: Bucket, now: int): real {
    var t := b.tokens + Earned(cfg, now - b.lastRefill);
    if t > cfg.capacity as real then cfg.capacity as real else t
  }

  /** The exact time until a bucket holding `tokens` holds one. */
  function ExactWait(cfg: Config, tokens: real): real
    requires cfg.rate > 0.0
  {
    1_000_000_000.0 * (1.0 - tokens) / cfg.rate
  }

  function Allow(cfg: Config, b: Bucket, now: int): (Bucket, Outcome)
    requires cfg.rate > 0.0
  {
    var t := Refilled(cfg, b, now);
    if t >= 1.0 then (Bucket(t - 1.0, now), Outcome(true, 0))
    else (Bucket(t, now), Outcome(false, ExactWait(cfg, t).Floor))
  }

  /** A new bucket is full whenever it is first read, so one instant serves for both. */
  lemma NewBucketIsFull(cfg: Config, created: int, now: int)
    requires ValidConfig(cfg) && created <= now
    ensures Allow(cfg, Full(cfg, created), now) == Allow(cfg, Full(cfg, now), now)
  {
    EarnedIsMonotone(cfg, now - created);
    EarnedIsMonotone(cfg, 0);
  }

  // ---------- the admission bound ----------

  ghost predicate NonDecreasing(times: seq<int>) {
    forall i, j :: 0 <= i < j < |times| ==> times[i] <= times[j]
  }

  function After(cfg: Config, b: Bucket, times: seq<int>): Bucket
    requires cfg.rate > 0.0
  {
    if times == [] then b else Allow(cfg, After(cfg, b, times[..|times| - 1]), times[|times| - 1]).0
  }

  function Outcomes(cfg: Config, b: Bucket, times: seq<int>): (os: seq<Outcome>)
    requires cfg.rate > 0.0
    ensures |os| == |times|
  {
    if times == [] then []
    else
      var n := |times| - 1;
      Outcomes(cfg, b, times[..n]) + [Allow(cfg, After(cfg, b, times[..n]), times[n]).1]
  }

  function Admitted(os: seq<Outcome>): nat {
    if os == [] then 0 else Admitted(os[..|os| - 1]) + if os[|os| - 1].allowed then 1 else 0
  }

  /** No more admissions than a full bucket and what `elapsed` nanoseconds earn. */
  predicate WithinBound(cfg: Config, os: seq<Outcome>, elapsed: int) {
    Admitted(os) as real <= cfg.capacity as real + Earned(cfg, elapsed)
  }

  lemma EarnedAdds(cfg: Config, x: int, y: int)
    ensures Earned(cfg, x + y) == Earned(cfg, x) + Earned(cfg, y)
  {
    assert (x + y) as real == x as real + y as real;
  }

  lemma EarnedIsMonotone(cfg: Config, x: int)
    requires cfg.rate > 0.0
    ensures x >= 0 ==> Earned(cfg, x) >= 0.0
  {
    if x >= 0 {
      var share := x as real / 1_000_000_000.0;
      assert share >= 0.0;
    }
  }

  /** Tokens held, less what the clock has handed out since the epoch: refilling never raises it
      and an admission lowers it by one. */
  function Credit(cfg: Config, b: Bucket): real {
    b.tokens - Earned(cfg, b.lastRefill)
  }

  lemma CreditPays(cfg: Config, b: Bucket, now: int)
    requires ValidConfig(cfg) && cfg.capacity >= 0 && b.tokens >= 0.0 && b.lastRefill <= now
    ensures var (e, o) := Allow(cfg, b, now);
      && e.tokens >= 0.0 && e.lastRefill == now
      && Credit(cfg, e) + (if o.allowed then 1.0 else 0.0) <= Credit(cfg, b)
  {
    RefilledIsBounded(cfg, b, now);
    EarnedAdds(cfg, b.lastRefill, now - b.lastRefill);
    assert b.lastRefill + (now - b.lastRefill) == now;
    assert Refilled(cfg, b, now) <= b.tokens + Earned(cfg, now - b.lastRefill);
  }

  /** Over any run of requests, every admission is paid for. */
  lemma {:induction false} SpendingIsEarned(cfg: Config, b: Bucket, times: seq<int>)
    requires ValidConfig(cfg) && cfg.capacity >= 0 && b.tokens >= 0.0
    requires NonDecreasing(times) && (times != [] ==> b.lastRefill <= times[0])
    ensures var e := After(cfg, b, times);
      && e.tokens >= 0.0
      && e.lastRefill == (if times == [] then b.lastRefill else times[|times| - 1])
      && Credit(cfg, e) + Admitted(Outcomes(cfg, b, times)) as real <= Credit(cfg, b)
  {
    if times != [] {
      var n := |times| - 1;
      SpendingIsEarned(cfg, b, times[..n]);
      assert n > 0 ==> times[n - 1] <= times[n];
      CreditPays(cfg, After(cfg, b, times[..n]), times[n]);
      assert Outcomes(cfg, b, times)[..n] == Outcomes(cfg, b, times[..n]);
    }
  }

  /** Between any two requests of one key, inclusive, at most capacity + rate * elapsed are admitted. */
  lemma AdmissionBound(cfg: Config, b: Bucket, times: seq<int>)
    requires ValidConfig(cfg) && cfg.capacity >= 0 && b.tokens >= 0.0
    requires NonDecreasing(times) && times != [] && b.lastRefill <= times[0]
    ensures WithinBound(cfg, Outcomes(cfg, b, times), times[|times| - 1] - times[0])
  {
    var b0 := Bucket(Refilled(cfg, b, times[0]), times[0]);
    RefilledIsBounded(cfg, b, times[0]);
    SameFromRefilled(cfg, b, times);
    BoundFromRefilled(cfg, b0, times);
  }

  lemma BoundFromRefilled(cfg: Config, b: Bucket, times: seq<int>)
    requires ValidConfig(cfg) && cfg.capacity >= 0 && 0.0 <= b.tokens <= cfg.capacity as real
    requires NonDecreasing(times) && times != [] && b.lastRefill == times[0]
    ensures WithinBound(cfg, Outcomes(cfg, b, times), times[|times| - 1] - times[0])
  {
    SpendingIsEarned(cfg, b, times);
    var spent := Admitted(Outcomes(cfg, b, times));
    CreditSpent(cfg, b, After(cfg, b, times), spent, times[0], times[|times| - 1]);
  }

  lemma CreditSpent(cfg: Config, b: Bucket, e: Bucket, spent: nat, first: int, last: int)
    requires b.tokens <= cfg.capacity as real && e.tokens >= 0.0 && b.lastRefill == first && e.lastRefill == last
    requires Credit(cfg, e) + spent as real <= Credit(cfg, b)
    ensures spent as real <= cfg.capacity as real + Earned(cfg, last - first)
  {
    EarnedAdds(cfg, first, last - first);
    assert first + (last - first) == last;
  }

  lemma RefilledIsBounded(cfg: Config, b: Bucket, now: int)
    requires ValidConfig(cfg) && cfg.capacity >= 0 && b.tokens >= 0.0 && b.lastRefill <= now
    ensures 0.0 <= Refilled(cfg, b, now) <= cfg.capacity as real
  {
    EarnedIsMonotone(cfg, now - b.lastRefill);
  }

  /** Refilling first at the instant of the first request changes nothing. */
  lemma {:induction false} SameFromRefilled(cfg: Config, b: Bucket, times: seq<int>)
    requires cfg.rate > 0.0 && times != []
    ensures var b0 := Bucket(Refilled(cfg, b, times[0]), times[0]);
      After(cfg, b, times) == After(cfg, b0, times) && Outcomes(cfg, b, times) == Outcomes(cfg, b0, times)
  {
    var b0 := Bucket(Refilled(cfg, b, times[0]), times[0]);
    var n := |times| - 1;
    if n == 0 {
      assert times[..0] == [];
      assert Earned(cfg, 0) == 0.0;
    } else {
      SameFromRefilled(cfg, b, times[..n]);
    }
  }

  /** The bound holds on every window of a longer history. */
  lemma WindowBound(cfg: Config, b: Bucket, times: seq<int>, i: nat, j: nat)
    requires ValidConfig(cfg) && cfg.capacity >= 0 && b.tokens >= 0.0
    requires NonDecreasing(times) && times != [] && b.lastRefill <= times[0]
    requires i <= j < |times|
    ensures WithinBound(cfg, Outcomes(cfg, b, times)[i..j + 1], times[j] - times[i])
  {
    StartOfWindow(cfg, b, times, i);
    WindowOutcomes(cfg, b, times, i, j + 1);
    WindowIsOrdered(times, i, j);
    AdmissionBound(cfg, After(cfg, b, times[..i]), times[i..j + 1]);
  }

  lemma WindowIsOrdered(times: seq<int>, i: nat, j: nat)
    requires NonDecreasing(times) && i <= j < |times|
    ensures var window := times[i..j + 1];
      NonDecreasing(window) && window != [] && window[0] == times[i] && window[|window| - 1] == times[j]
  {
  }

  lemma StartOfWindow(cfg: Config, b: Bucket, times: seq<int>, i: nat)
    requires ValidConfig(cfg) && cfg.capacity >= 0 && b.tokens >= 0.0
    requires NonDecreasing(times) && times != [] && b.lastRefill <= times[0] && i < |times|
    ensures After(cfg, b, times[..i]).tokens >= 0.0 && After(cfg, b, times[..i]).lastRefill <= times[i]
  {
    SpendingIsEarned(cfg, b, times[..i]);
    if i > 0 {
      assert times[..i][i - 1] == times[i - 1] <= times[i];
    }
  }

  lemma WindowOutcomes(cfg: Config, b: Bucket, times: seq<int>, i: nat, k: nat)
    requires cfg.rate > 0.0 && i <= k <= |times|
    ensures Outcomes(cfg, b, times)[i..k] == Outcomes(cfg, After(cfg, b, times[..i]), times[i..k])
  {
    OutcomesPrefix(cfg, b, times, k);
    OutcomesSplit(cfg, b, times[..k], i);
    assert times[..k][..i] == times[..i] && times[..k][i..] == times[i..k];
    assert Outcomes(cfg, b, times)[i..k] == Outcomes(cfg, b, times)[..k][i..];
  }

  lemma {:induction false} OutcomesPrefix(cfg: Config, b: Bucket, times: seq<int>, k: nat)
    requires cfg.rate > 0.0 && k <= |times|
    ensures Outcomes(cfg, b, times)[..k] == Outcomes(cfg, b, times[..k])
  {
    if k == |times| {
      assert times[..k] == times;
    } else {
      var n := |times| - 1;
      OutcomesPrefix(cfg, b, times[..n], k);
      assert times[..n][..k] == times[..k];
      assert Outcomes(cfg, b, times)[..k] == Outcomes(cfg, b, times[..n])[..k];
    }
  }

  lemma {:induction false} OutcomesSplit(cfg: Config, b: Bucket, times: seq<int>, i: nat)
    requires cfg.rate > 0.0 && i <= |times|
    ensures Outcomes(cfg, b, times)[i..] == Outcomes(cfg, After(cfg, b, times[..i]), times[i..])
    ensures After(cfg, b, times) == After(cfg, After(cfg, b, times[..i]), times[i..])
  {
    if i == |times| {
      assert times[..i] == times && times[i..] == [];
    } else {
      var n := |times| - 1;
      OutcomesSplit(cfg, b, times[..n], i);
      assert times[..n][..i] == times[..i];
      assert times[i..][..n - i] == times[..n][i..];
      assert times[i..][n - i] == times[n];
      assert Outcomes(cfg, b, times)[i..] == Outcomes(cfg, b, times[..n])[i..] + [Outcomes(cfg, b, times)[n]];
    }
  }

  // ---------- exactly which requests are admitted ----------

  /** How many more requests fit at request `j` into the window that starts with request `i`. */
  ghost function Room(cfg: Config, os: seq<Outcome>, times: seq<int>, i: nat, j: nat): real
    requires i <= j < |times| && |os| == |times|
  {
    cfg.capacity as real + Earned(cfg, times[j] - times[i]) - Admitted(os[i..j]) as real
  }

  lemma RoomStep(cfg: Config, os: seq<Outcome>, times: seq<int>, i: nat, j: nat)
    requires i < j < |times| && |os| == |times|
    ensures Room(cfg, os, times, i, j) ==
      Room(cfg, os, times, i, j - 1) + Earned(cfg, times[j] - times[j - 1]) - if os[j - 1].allowed then 1.0 else 0.0
  {
    EarnedAdds(cfg, times[j - 1] - times[i], times[j] - times[j - 1]);
    assert (times[j - 1] - times[i]) + (times[j] - times[j - 1]) == times[j] - times[i];
    assert os[i..j][..j - 1 - i] == os[i..j - 1] && os[i..j][j - 1 - i] == os[j - 1];
  }

  lemma NoWindow(cfg: Config, os: seq<Outcome>, times: seq<int>, j: nat)
    requires j < |times| && |os| == |times|
    ensures Room(cfg, os, times, j, j) == cfg.capacity as real
  {
    assert os[j..j] == [];
    assert times[j] - times[j] == 0 && Earned(cfg, 0) == 0.0;
  }

  /** What a bucket holds once it is refilled for request `j`. */
  ghost function HeldAt(cfg: Config, b: Bucket, times: seq<int>, j: nat): real
    requires cfg.rate > 0.0 && j < |times|
  {
    Refilled(cfg, After(cfg, b, times[..j]), times[j])
  }

  lemma HeldStep(cfg: Config, b: Bucket, times: seq<int>, j: nat)
    requires cfg.rate > 0.0 && 0 < j < |times|
    ensures var held := HeldAt(cfg, b, times, j - 1) - if Outcomes(cfg, b, times)[j - 1].allowed then 1.0 else 0.0;
      var t := held + Earned(cfg, times[j] - times[j - 1]);
      HeldAt(cfg, b, times, j) == if t > cfg.capacity as real then cfg.capacity as real else t
  {
    assert times[..j][..j - 1] == times[..j - 1];
    OutcomesPrefix(cfg, b, times, j);
    assert Outcomes(cfg, b, times)[j - 1] == Outcomes(cfg, b, times)[..j][j - 1];
  }

  /** A bucket that began full holds exactly the room of its tightest window. */
  lemma {:induction false} HeldIsLeastRoom(cfg: Config, created: int, times: seq<int>, j: nat) returns (tightest: nat)
    requires ValidConfig(cfg) && NonDecreasing(times) && j < |times| && created <= times[0]
    ensures var (os, held) := (Outcomes(cfg, Full(cfg, created), times), HeldAt(cfg, Full(cfg, created), times, j));
      && (forall i :: 0 <= i <= j ==> held <= Room(cfg, os, times, i, j))
      && tightest <= j && held == Room(cfg, os, times, tightest, j)
    decreases j
  {
    var (b, os) := (Full(cfg, created), Outcomes(cfg, Full(cfg, created), times));
    NoWindow(cfg, os, times, j);
    if j == 0 {
      EarnedIsMonotone(cfg, times[0] - created);
      tightest := 0;
    } else {
      var before := HeldIsLeastRoom(cfg, created, times, j - 1);
      HeldStep(cfg, b, times, j);
      forall i | 0 <= i < j ensures HeldAt(cfg, b, times, j) <= Room(cfg, os, times, i, j) {
        RoomStep(cfg, os, times, i, j);
      }
      RoomStep(cfg, os, times, before, j);
      tightest := if HeldAt(cfg, b, times, j) == cfg.capacity as real then j else before;
    }
  }

  lemma AllowedIffHeld(cfg: Config, b: Bucket, times: seq<int>, j: nat)
    requires cfg.rate > 0.0 && j < |times|
    ensures Outcomes(cfg, b, times)[j].allowed <==> HeldAt(cfg, b, times, j) >= 1.0
  {
    OutcomesPrefix(cfg, b, times, j + 1);
    assert times[..j + 1][..j] == times[..j];
    assert Outcomes(cfg, b, times)[j] == Outcomes(cfg, b, times)[..j + 1][j];
  }

  /** Request `j` fits into the window that starts with request `i`. */
  ghost predicate Fits(cfg: Config, os: seq<Outcome>, times: seq<int>, i: nat, j: nat)
    requires i <= j < |times| && |os| == |times|
  {
    Admitted(os[i..j]) as real + 1.0 <= cfg.capacity as real + Earned(cfg, times[j] - times[i])
  }

  lemma FitsIfRoom(cfg: Config, os: seq<Outcome>, times: seq<int>, i: nat, j: nat)
    requires i <= j < |times| && |os| == |times|
    ensures Fits(cfg, os, times, i, j) <==> Room(cfg, os, times, i, j) >= 1.0
  {
  }

  /** A request is admitted exactly when it fits into every window that ends with it: the bucket refuses nothing that
      the promised rate allows, and allows nothing that it forbids. */
  lemma AdmittedIff(cfg: Config, created: int, times: seq<int>, j: nat)
    requires ValidConfig(cfg) && NonDecreasing(times) && j < |times| && created <= times[0]
    ensures var os := Outcomes(cfg, Full(cfg, created), times);
      os[j].allowed <==> forall i :: 0 <= i <= j ==> Fits(cfg, os, times, i, j)
  {
    var os := Outcomes(cfg, Full(cfg, created), times);
    var tightest := HeldIsLeastRoom(cfg, created, times, j);
    AllowedIffHeld(cfg, Full(cfg, created), times, j);
    forall i | 0 <= i <= j ensures Fits(cfg, os, times, i, j) <==> Room(cfg, os, times, i, j) >= 1.0 {
      FitsIfRoom(cfg, os, times, i, j);
    }
  }

  // ---------- waiting ----------

  /** After a denial, a request `ns` later with nothing in between is admitted exactly when the bucket
      can hold a token and `ns` is at least the exact wait. */
  lemma AdmittedAfterIff(cfg: Config, b: Bucket, now: int, ns: nat)
    requires ValidConfig(cfg)
    requires !Allow(cfg, b, now).1.allowed
    ensures var b' := Allow(cfg, b, now).0;
      Allow(cfg, b', now + ns).1.allowed <==>
      cfg.capacity >= 1 && ns as real >= ExactWait(cfg, b'.tokens)
  {
    var b' := Allow(cfg, b, now).0;
    var t := b'.tokens;
    assert now + ns - b'.lastRefill == ns;
    EarnsEnoughIff(cfg, t, ns);
    assert cfg.capacity as real >= 1.0 <==> cfg.capacity >= 1;
  }

  lemma EarnsEnoughIff(cfg: Config, tokens: real, ns: nat)
    requires cfg.rate > 0.0
    ensures tokens + Earned(cfg, ns) >= 1.0 <==> ns as real >= ExactWait(cfg, tokens)
  {
    var x, r, s := ns as real, cfg.rate, 1_000_000_000.0;
    var w := ExactWait(cfg, tokens);
    assert w * r == s * (1.0 - tokens);
    assert Earned(cfg, ns) * s == x * r by {
      assert Earned(cfg, ns) == x / s * r;
      assert x / s * s == x;
    }
    if x >= w {
      ScaleMonotone(w, x, r);
      assert Earned(cfg, ns) * s >= s * (1.0 - tokens);
      ScaleReflects(1.0 - tokens, Earned(cfg, ns), s);
    } else {
      ScaleStrict(x, w, r);
      assert Earned(cfg, ns) * s < (1.0 - tokens) * s;
      if Earned(cfg, ns) >= 1.0 - tokens { ScaleMonotone(1.0 - tokens, Earned(cfg, ns), s); }
    }
  }

  lemma ScaleMonotone(x: real, y: real, k: real)
    requires x <= y && k > 0.0
    ensures x * k <= y * k
  {
  }

  lemma ScaleStrict(x: real, y: real, k: real)
    requires x < y && k > 0.0
    ensures x * k < y * k
  {
  }

  lemma ScaleReflects(x: real, y: real, k: real)
    requires y * k >= k * x && k > 0.0
    ensures y >= x
  {
    if y < x { ScaleStrict(y, x, k); }
  }

  /** Waiting exactly the returned duration is enough if and only if truncation lost nothing ... */
  lemma WaitAdmitsIff(cfg: Config, b: Bucket, now: int)
    requires ValidConfig(cfg) && !Allow(cfg, b, now).1.allowed
    ensures var (b', o) := Allow(cfg, b, now);
      && o.wait >= 0
      && (Allow(cfg, b', now + o.wait).1.allowed <==>
          cfg.capacity >= 1 && o.wait as real == ExactWait(cfg, b'.tokens))
      && (Allow(cfg, b', now + o.wait + 1).1.allowed <==> cfg.capacity >= 1)
  {
    var (b', o) := Allow(cfg, b, now);
    var w := ExactWait(cfg, b'.tokens);
    assert w > 0.0 by {
      ScaleStrict(0.0, 1.0 - b'.tokens, 1_000_000_000.0);
      assert w == 1_000_000_000.0 * (1.0 - b'.tokens) / cfg.rate;
      assert w * cfg.rate == 1_000_000_000.0 * (1.0 - b'.tokens);
      if w <= 0.0 { ScaleMonotone(w, 0.0, cfg.rate); }
    }
    assert o.wait as real <= w < (o.wait + 1) as real;
    AdmittedAfterIff(cfg, b, now, o.wait);
    AdmittedAfterIff(cfg, b, now, o.wait + 1);
  }

  /** The Retry-After header: whole seconds, rounded up, at least one (section 10.2.3 of RFC 9110). */
  method RetryAfterSeconds(wait: nat) returns (secs: nat)
    ensures secs == HeaderSeconds(wait)
  {
    secs := wait / SECOND;
    if wait > 0 && secs * SECOND < wait {
      secs := secs + 1;
    }
    if secs < 1 {
      secs := 1;
    }
  }

  function HeaderSeconds(wait: nat): (secs: nat) {
    if wait == 0 then 1 else if wait % SECOND == 0 then wait / SECOND else wait / SECOND + 1
  }

  /** The header is the least positive number of seconds that covers the wait. */
  lemma HeaderIsLeast(wait: nat)
    ensures HeaderSeconds(wait) >= 1 && HeaderSeconds(wait) * SECOND >= wait
    ensures forall s: nat :: s >= 1 && s * SECOND >= wait ==> s >= HeaderSeconds(wait)
  {
    assert wait == (wait / SECOND) * SECOND + wait % SECOND;
  }

  /** ... and honouring the header is enough, except when the truncated wait is a positive whole
      number of seconds that hides a lost fraction of a nanosecond. */
  lemma RetryAfterAdmitsIff(cfg: Config, b: Bucket, now: int)
    requires ValidConfig(cfg) && cfg.capacity >= 1 && !Allow(cfg, b, now).1.allowed
    ensures var (b', o) := Allow(cfg, b, now);
      && o.wait >= 0
      && (Allow(cfg, b', now + HeaderSeconds(o.wait) * SECOND).1.allowed <==>
          !(o.wait > 0 && o.wait % SECOND == 0 && o.wait as real != ExactWait(cfg, b'.tokens)))
  {
    var (b', o) := Allow(cfg, b, now);
    WaitAdmitsIff(cfg, b, now);
    var w := ExactWait(cfg, b'.tokens);
    assert o.wait as real <= w < (o.wait + 1) as real;
    var ns := HeaderSeconds(o.wait) * SECOND;
    AdmittedAfterIff(cfg, b, now, ns);
    HeaderIsLeast(o.wait);
    if o.wait > 0 && o.wait % SECOND == 0 {
      assert ns == o.wait;
    } else {
      assert ns >= o.wait + 1;
      assert ns as real >= (o.wait + 1) as real;
    }
  }

  /** Such a case is reached in three requests at 0.3 tokens a second: the second is told to wait
      three seconds, waits exactly that, and is denied again. */
  lemma RetryAfterCanFallShort()
    ensures var cfg := Config(1, 0.3);
      var os := Outcomes(cfg, Full(cfg, 0), [0, 333_333_333, 3_333_333_333]);
      && os[0].allowed && os[1] == Outcome(false, 3 * SECOND) && !os[2].allowed
      && 3_333_333_333 == 333_333_333 + HeaderSeconds(os[1].wait) * SECOND
  {
    var cfg := Config(1, 0.3);
    var times := [0, 333_333_333, 3_333_333_333];
    assert times[..2] == [0, 333_333_333] && [0, 333_333_333][..1] == [0] && [0][..0] == [];
    var b1 := Allow(cfg, Full(cfg, 0), 0).0;
    assert b1 == Bucket(0.0, 0);
    assert Earned(cfg, 333_333_333) == 0.0999999999;
    var (b2, o2) := Allow(cfg, b1, 333_333_333);
    assert b2 == Bucket(0.0999999999, 333_333_333);
    var w := ExactWait(cfg, b2.tokens);
    assert w * 0.3 == 1_000_000_000.0 * 0.9000000001;
    assert (3 * SECOND) as real <= w < (3 * SECOND + 1) as real;
    assert Earned(cfg, 3_000_000_000) == 0.9;
    assert !Allow(cfg, b2, 3_333_333_333).1.allowed;
    assert Outcomes(cfg, Full(cfg, 0), [0]) == [Outcome(true, 0)];
    assert After(cfg, Full(cfg, 0), [0]) == b1;
    assert Outcomes(cfg, Full(cfg, 0), [0, 333_333_333]) == [Outcome(true, 0)] + [o2];
    assert After(cfg, Full(cfg, 0), [0, 333_333_333]) == b2;
  }

  // ---------- whole periods ----------

  /** One token takes a whole number of nanoseconds, as in both configurations the program uses:
      10 tokens in 60 seconds and 30 tokens in 60 seconds. */
  ghost predicate WholePeriod(cfg: Config, period: nat) {
    period as real * cfg.rate == 1_000_000_000.0
  }

  lemma LoginPeriodIsWhole(cfg: Config)
    requires cfg.rate == 10.0 / 60.0
    ensures WholePeriod(cfg, 6 * SECOND)
  {
  }

  lemma TokenPeriodIsWhole(cfg: Config)
    requires cfg.rate == 30.0 / 60.0
    ensures WholePeriod(cfg, 2 * SECOND)
  {
  }

  ghost predicate GridPoint(period: nat, tokens: real, n: int) {
    tokens * period as real == n as real
  }

  /** The bucket holds a whole number of `1 / period` fractions of a token. */
  ghost predicate OnGrid(period: nat, tokens: real) {
    exists n: int :: GridPoint(period, tokens, n)
  }

  lemma GridAdd(period: nat, x: real, n: int, y: real, m: int)
    requires GridPoint(period, x, n) && GridPoint(period, y, m)
    ensures GridPoint(period, x + y, n + m)
  {
    var p := period as real;
    assert (x + y) * p == x * p + y * p;
  }

  lemma GridWhole(period: nat, k: int)
    ensures GridPoint(period, k as real, k * period)
  {
  }

  lemma RefillKeepsGrid(cfg: Config, period: nat, b: Bucket, now: int)
    requires ValidConfig(cfg) && WholePeriod(cfg, period) && OnGrid(period, b.tokens)
    ensures OnGrid(period, Refilled(cfg, b, now))
  {
    var n: int :| GridPoint(period, b.tokens, n);
    EarnedOnGrid(cfg, period, now - b.lastRefill);
    GridAdd(period, b.tokens, n, Earned(cfg, now - b.lastRefill), now - b.lastRefill);
    GridWhole(period, cfg.capacity);
  }

  lemma SpendKeepsGrid(period: nat, t: real)
    requires OnGrid(period, t)
    ensures OnGrid(period, t - 1.0)
  {
    var n: int :| GridPoint(period, t, n);
    GridWhole(period, -1);
    GridAdd(period, t, n, -1.0, -1 * period);
    assert t + -1.0 == t - 1.0;
  }

  lemma AllowKeepsGrid(cfg: Config, period: nat, b: Bucket, now: int)
    requires ValidConfig(cfg) && WholePeriod(cfg, period) && OnGrid(period, b.tokens)
    ensures OnGrid(period, Allow(cfg, b, now).0.tokens)
  {
    RefillKeepsGrid(cfg, period, b, now);
    SpendKeepsGrid(period, Refilled(cfg, b, now));
  }

  lemma EarnedOnGrid(cfg: Config, period: nat, ns: int)
    requires WholePeriod(cfg, period)
    ensures GridPoint(period, Earned(cfg, ns), ns)
  {
    var share := ns as real / 1_000_000_000.0;
    assert Earned(cfg, ns) * period as real == share * (period as real * cfg.rate);
  }

  lemma {:induction false} ReachableIsOnGrid(cfg: Config, period: nat, created: int, times: seq<int>)
    requires ValidConfig(cfg) && WholePeriod(cfg, period)
    ensures OnGrid(period, After(cfg, Full(cfg, created), times).tokens)
  {
    if times == [] {
      GridWhole(period, cfg.capacity);
    } else {
      ReachableIsOnGrid(cfg, period, created, times[..|times| - 1]);
      AllowKeepsGrid(cfg, period, After(cfg, Full(cfg, created), times[..|times| - 1]), times[|times| - 1]);
    }
  }

  /** With a whole period every wait a reachable bucket returns is exact: a denied caller that waits it, or
      the header rounded from it, with no other traffic, is admitted. */
  lemma WholePeriodWaitsAreHonoured(cfg: Config, period: nat, created: int, times: seq<int>, now: int)
    requires ValidConfig(cfg) && WholePeriod(cfg, period) && cfg.capacity >= 1
    ensures var (b', o) := Allow(cfg, After(cfg, Full(cfg, created), times), now);
      !o.allowed ==>
        && o.wait >= 0
        && Allow(cfg, b', now + o.wait).1.allowed
        && Allow(cfg, b', now + HeaderSeconds(o.wait) * SECOND).1.allowed
  {
    var b := After(cfg, Full(cfg, created), times);
    ReachableIsOnGrid(cfg, period, created, times);
    if !Allow(cfg, b, now).1.allowed { GridBucketWaits(cfg, period, b, now); }
  }

  lemma GridBucketWaits(cfg: Config, period: nat, b: Bucket, now: int)
    requires ValidConfig(cfg) && WholePeriod(cfg, period) && cfg.capacity >= 1 && OnGrid(period, b.tokens)
    requires !Allow(cfg, b, now).1.allowed
    ensures var (b', o) := Allow(cfg, b, now);
      && o.wait >= 0
      && Allow(cfg, b', now + o.wait).1.allowed
      && Allow(cfg, b', now + HeaderSeconds(o.wait) * SECOND).1.allowed
  {
    var (b', o) := Allow(cfg, b, now);
    AllowKeepsGrid(cfg, period, b, now);
    WaitAdmitsIff(cfg, b, now);
    RetryAfterAdmitsIff(cfg, b, now);
    var n: int :| GridPoint(period, b'.tokens, n);
    GridWait(cfg, period, b'.tokens, n);
    assert o.wait as real == ExactWait(cfg, b'.tokens);
  }

  lemma GridWait(cfg: Config, period: nat, tokens: real, n: int)
    requires ValidConfig(cfg) && WholePeriod(cfg, period) && GridPoint(period, tokens, n)
    ensures ExactWait(cfg, tokens) == (period - n) as real
    ensures ExactWait(cfg, tokens).Floor as real == ExactWait(cfg, tokens)
  {
    var p := period as real;
    assert (period - n) as real == p - tokens * p;
    assert (p - tokens * p) * cfg.rate == (p * cfg.rate) * (1.0 - tokens);
  }

  // ---------- keys ----------

  type Key = string

  function BucketFor(cfg: Config, buckets: map<Key, Bucket>, key: Key, now: int): Bucket {
    if key in buckets then buckets[key] else Full(cfg, now)
  }

  function LimiterAllow(cfg: Config, buckets: map<Key, Bucket>, key: Key, now: int): (map<Key, Bucket>, Outcome)
    requires cfg.rate > 0.0
  {
    var (b, o) := Allow(cfg, BucketFor(cfg, buckets, key, now), now);
    (buckets[key := b], o)
  }

  datatype Request = Request(key: Key, at: int)

  function Serve(cfg: Config, buckets: map<Key, Bucket>, reqs: seq<Request>): map<Key, Bucket>
    requires cfg.rate > 0.0
  {
    if reqs == [] then buckets
    else
      var r := reqs[|reqs| - 1];
      LimiterAllow(cfg, Serve(cfg, buckets, reqs[..|reqs| - 1]), r.key, r.at).0
  }

  /** The decisions a key receives in a mixed stream of requests. */
  function DecisionsFor(cfg: Config, buckets: map<Key, Bucket>, reqs: seq<Request>, key: Key): seq<Outcome>
    requires cfg.rate > 0.0
  {
    if reqs == [] then []
    else
      var n := |reqs| - 1;
      var before := DecisionsFor(cfg, buckets, reqs[..n], key);
      if reqs[n].key == key
      then before + [LimiterAllow(cfg, Serve(cfg, buckets, reqs[..n]), key, reqs[n].at).1]
      else before
  }

  function TimesFor(reqs: seq<Request>, key: Key): seq<int> {
    if reqs == [] then []
    else
      var n := |reqs| - 1;
      if reqs[n].key == key then TimesFor(reqs[..n], key) + [reqs[n].at] else TimesFor(reqs[..n], key)
  }

  /** A key is served exactly as if it were alone, with a bucket of its own that is full at its first request. */
  lemma {:induction false} KeysAreIndependent(cfg: Config, reqs: seq<Request>, key: Key)
    requires cfg.rate > 0.0
    ensures var times := TimesFor(reqs, key);
      var served := Serve(cfg, map[], reqs);
      && DecisionsFor(cfg, map[], reqs, key) == (if times == [] then [] else Outcomes(cfg, Full(cfg, times[0]), times))
      && (key in served <==> times != [])
      && (times != [] ==> served[key] == After(cfg, Full(cfg, times[0]), times))
  {
    if reqs != [] {
      var n := |reqs| - 1;
      KeysAreIndependent(cfg, reqs[..n], key);
      if reqs[n].key == key {
        var before := TimesFor(reqs[..n], key);
        var first := if before == [] then reqs[n].at else before[0];
        OneMoreRequest(cfg, Full(cfg, first), before, reqs[n].at);
        assert (before + [reqs[n].at])[0] == first;
      }
    }
  }

  lemma OneMoreRequest(cfg: Config, b: Bucket, times: seq<int>, at: int)
    requires cfg.rate > 0.0
    ensures After(cfg, b, []) == b && Outcomes(cfg, b, []) == []
    ensures Outcomes(cfg, b, times + [at]) == Outcomes(cfg, b, times) + [Allow(cfg, After(cfg, b, times), at).1]
    ensures After(cfg, b, times + [at]) == Allow(cfg, After(cfg, b, times), at).0
  {
    assert (times + [at])[..|times|] == times;
  }

  /** So the bound holds between any two requests of every key of every stream. */
  lemma StreamBound(cfg: Config, reqs: seq<Request>, key: Key, i: nat, j: nat)
    requires ValidConfig(cfg) && cfg.capacity >= 0
    requires NonDecreasing(TimesFor(reqs, key)) && i <= j < |TimesFor(reqs, key)|
    ensures var times := TimesFor(reqs, key);
      && |DecisionsFor(cfg, map[], reqs, key)| == |times|
      && WithinBound(cfg, DecisionsFor(cfg, map[], reqs, key)[i..j + 1], times[j] - times[i])
  {
    var times := TimesFor(reqs, key);
    KeysAreIndependent(cfg, reqs, key);
    WindowBound(cfg, Full(cfg, times[0]), times, i, j);
  }

  /** And every request of every key is admitted exactly when it fits. */
  lemma StreamAdmittedIff(cfg: Config, reqs: seq<Request>, key: Key, j: nat)
    requires ValidConfig(cfg) && NonDecreasing(TimesFor(reqs, key)) && j < |TimesFor(reqs, key)|
    ensures var (times, os) := (TimesFor(reqs, key), DecisionsFor(cfg, map[], reqs, key));
      |os| == |times| && (os[j].allowed <==> forall i :: 0 <= i <= j ==> Fits(cfg, os, times, i, j))
  {
    KeysAreIndependent(cfg, reqs, key);
    AdmittedIff(cfg, TimesFor(reqs, key)[0], TimesFor(reqs, key), j);
  }

  // ---------- the mutable limiter ----------

  class TokenBucket {
    const capacity: int
    const refillRate: real
    var tokens: real
    var lastRefill: int

    function Cfg(): Config { Config(capacity, refillRate) }

    function Now(): Bucket
      reads this
    {
      Bucket(tokens, lastRefill)
    }

    constructor (capacity: int, refillRate: real, now: int)
      ensures Cfg() == Config(capacity, refillRate) && Now() == Full(Cfg(), now)
    {
      this.capacity := capacity;
      this.refillRate := refillRate;
      tokens := capacity as real;
      lastRefill := now;
    }

    method Take(now: int) returns (o: Outcome)
      requires refillRate > 0.0
      modifies this
      ensures (Now(), o) == Allow(Cfg(), old(Now()), now)
    {
      var elapsed := (now - lastRefill) as real / 1_000_000_000.0;
      tokens := tokens + elapsed * refillRate;
      if tokens > capacity as real {
        tokens := capacity as real;
      }
      lastRefill := now;
      assert tokens == Refilled(Cfg(), old(Now()), now);
      if tokens >= 1.0 {
        tokens := tokens - 1.0;
        return Outcome(true, 0);
      }
      var deficit := 1.0 - tokens;
      return Outcome(false, (1_000_000_000.0 * deficit / refillRate).Floor);
    }
  }

  class Limiter {
    const capacity: int
    const refillRate: real
    var buckets: map<Key, TokenBucket>

    function Cfg(): Config { Config(capacity, refillRate) }

    ghost predicate Valid()
      reads this, buckets.Values
    {
      && refillRate > 0.0
      && (forall k :: k in buckets ==> buckets[k].Cfg() == Cfg())
      && (forall k, k' :: k in buckets && k' in buckets && k != k' ==> buckets[k] != buckets[k'])
    }

    ghost function Now(): map<Key, Bucket>
      reads this, buckets.Values
    {
      map k | k in buckets :: buckets[k].Now()
    }

    constructor (capacity: int, refillRate: real)
      requires refillRate > 0.0
      ensures Valid() && Cfg() == Config(capacity, refillRate) && Now() == map[]
    {
      this.capacity := capacity;
      this.refillRate := refillRate;
      buckets := map[];
    }

    /** The clock is read at `created` if the key needs a bucket, and at `now` when a token is asked for. */
    method Take(key: Key, created: int, now: int) returns (o: Outcome)
      requires Valid() && created <= now
      modifies this, buckets.Values
      ensures Valid()
      ensures (Now(), o) == LimiterAllow(Cfg(), old(Now()), key, now)
    {
      if key !in buckets {
        var bucket := new TokenBucket(capacity, refillRate, created);
        buckets := buckets[key := bucket];
      }
      NewBucketIsFull(Cfg(), created, now);
      assert Allow(Cfg(), buckets[key].Now(), now) == Allow(Cfg(), BucketFor(Cfg(), old(Now()), key, now), now);
      o := buckets[key].Take(now);
      assert Now() == LimiterAllow(Cfg(), old(Now()), key, now).0;
    }
  }
}
