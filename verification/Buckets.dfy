/**
  The two token buckets. Both refill with elapsed time up to their capacity and never let the clock run backward; the
  witness and association limiter admits only against a whole token, the delivery limiter when the wait it computes is
  no longer than zero nanoseconds.

  Tokens are counted in billionths, in which exact arithmetic over nanoseconds stays whole.
*/
module Buckets {
  import opened Common

  const TOKEN := 1_000_000_000

  datatype Bucket = Bucket(rate: nat, capacity: nat, tokens: int, last: int)

  datatype Kind = Fixed | Delivery

  function Full(rate: nat, burst: nat, now: int): Bucket {
    Bucket(rate, burst * TOKEN, burst * TOKEN, now)
  }

  function Refilled(b: Bucket, now: int): Bucket {
    if now <= b.last then b
    else
      var tokens := b.tokens + b.rate * (now - b.last);
      b.(tokens := if tokens > b.capacity then b.capacity else tokens, last := now)
  }

  /** The wait the delivery limiter computes for a refilled bucket, truncated to whole nanoseconds. */
  function Wait(b: Bucket): nat
    requires b.rate > 0
  {
    if b.tokens >= TOKEN then 0 else (TOKEN - b.tokens) / b.rate
  }

  predicate Admits(kind: Kind, b: Bucket, now: int)
    requires b.rate > 0
  {
    var r := Refilled(b, now);
    if kind.Fixed? then r.tokens >= TOKEN else Wait(r) == 0
  }

  /** The bucket after a call: refilled, and less one token if it held one. */
  function After(b: Bucket, now: int): Bucket {
    var r := Refilled(b, now);
    if r.tokens >= TOKEN then r.(tokens := r.tokens - TOKEN) else r
  }

  predicate InRange(b: Bucket) {
    0 <= b.tokens <= b.capacity
  }

  /** Tokens stay between nothing and the capacity, and the bucket's clock never runs back. */
  lemma AfterInRange(b: Bucket, now: int)
    requires InRange(b)
    ensures InRange(After(b, now)) && After(b, now).last >= b.last
  {
    if now > b.last {
      assert b.rate * (now - b.last) >= 0;
    }
  }

  /** An admission takes a token, except the delivery limiter's when its wait was truncated to zero. */
  predicate Honest(kind: Kind, b: Bucket, now: int)
    requires b.rate > 0
  {
    Admits(kind, b, now) ==> Refilled(b, now).tokens >= TOKEN
  }

  function Cost(kind: Kind, b: Bucket, now: int): int
    requires b.rate > 0
  {
    if Admits(kind, b, now) then TOKEN else 0
  }

  /** A call's cost and what is left come out of what was there and what the clock brought in, and of the capacity. */
  lemma CallCost(kind: Kind, b: Bucket, now: int)
    requires b.rate > 0 && InRange(b) && Honest(kind, b, now)
    ensures var n := After(b, now);
            && Cost(kind, b, now) + n.tokens <= b.tokens + b.rate * (n.last - b.last)
            && Cost(kind, b, now) + n.tokens <= b.capacity
  {
  }

  // ----- Sequences of calls

  ghost predicate Trace(b: Bucket, states: seq<Bucket>, calls: seq<int>) {
    && |states| == |calls| + 1 && states[0] == b
    && forall k, m {:trigger Follows(states[k], calls[k], states[m])} ::
         0 <= k < |calls| && m == k + 1 ==> Follows(states[k], calls[k], states[m])
  }

  predicate Follows(b: Bucket, now: int, n: Bucket) {
    n == After(b, now)
  }

  /** What the admissions among the calls from `i` up to but not including `j` cost. */
  function Spent(kind: Kind, states: seq<Bucket>, calls: seq<int>, i: nat, j: nat): int
    requires i <= j <= |calls| <= |states| && forall k :: 0 <= k < |states| ==> states[k].rate > 0
  {
    if i == j then 0 else Spent(kind, states, calls, i, j - 1) + Cost(kind, states[j - 1], calls[j - 1])
  }

  lemma {:induction false} TraceInRange(b: Bucket, states: seq<Bucket>, calls: seq<int>, n: nat)
    requires Trace(b, states, calls) && InRange(b) && n < |states|
    ensures InRange(states[n]) && states[n].rate == b.rate && states[n].capacity == b.capacity
  {
    if n > 0 {
      TraceInRange(b, states, calls, n - 1);
      assert Follows(states[n - 1], calls[n - 1], states[n]);
      AfterInRange(states[n - 1], calls[n - 1]);
    }
  }

  lemma Spans(rate: nat, x: int, y: int, z: int)
    ensures rate * (y - x) + rate * (z - y) == rate * (z - x)
  {
  }

  lemma Longer(rate: nat, d: int, e: int)
    requires d <= e
    ensures rate * d <= rate * e
  {
    assert rate * e == rate * d + rate * (e - d);
  }

  lemma TraceCost(kind: Kind, b: Bucket, states: seq<Bucket>, calls: seq<int>, k: nat)
    requires b.rate > 0 && Trace(b, states, calls) && InRange(b) && k < |calls| && states[k].rate == b.rate
    requires Honest(kind, states[k], calls[k])
    ensures var s, n := states[k], states[k + 1];
            && Cost(kind, s, calls[k]) + n.tokens <= s.tokens + b.rate * (n.last - s.last)
            && Cost(kind, s, calls[k]) + n.tokens <= b.capacity
  {
    TraceInRange(b, states, calls, k);
    assert Follows(states[k], calls[k], states[k + 1]);
    CallCost(kind, states[k], calls[k]);
  }

  ghost predicate HonestTrace(kind: Kind, b: Bucket, states: seq<Bucket>, calls: seq<int>) {
    && b.rate > 0 && InRange(b) && Trace(b, states, calls)
    && (forall k :: 0 <= k < |states| ==> states[k].rate == b.rate)
    && (forall k {:trigger Honest(kind, states[k], calls[k])} :: 0 <= k < |calls| ==> Honest(kind, states[k], calls[k]))
  }

  /** From one call on, admissions are paid for by the capacity and by what the clock brought in since. */
  lemma {:induction false} Balance(kind: Kind, b: Bucket, states: seq<Bucket>, calls: seq<int>, i: nat, j: nat)
    requires HonestTrace(kind, b, states, calls) && i < j <= |calls|
    ensures Spent(kind, states, calls, i, j) + states[j].tokens
              <= b.capacity + b.rate * (states[j].last - states[i + 1].last)
    decreases j
  {
    assert Honest(kind, states[j - 1], calls[j - 1]);
    TraceCost(kind, b, states, calls, j - 1);
    if i + 1 < j {
      Balance(kind, b, states, calls, i, j - 1);
      Spans(b.rate, states[i + 1].last, states[j - 1].last, states[j].last);
    }
  }

  /** The number of admissions among the calls from `i` up to but not including `j`. */
  function Admitted(kind: Kind, states: seq<Bucket>, calls: seq<int>, i: nat, j: nat): nat
    requires i <= j <= |calls| <= |states| && forall k :: 0 <= k < |states| ==> states[k].rate > 0
  {
    if i == j then 0
    else Admitted(kind, states, calls, i, j - 1) + if Admits(kind, states[j - 1], calls[j - 1]) then 1 else 0
  }

  lemma {:induction false} SpentIsAdmitted(kind: Kind, states: seq<Bucket>, calls: seq<int>, i: nat, j: nat)
    requires i <= j <= |calls| <= |states| && forall k :: 0 <= k < |states| ==> states[k].rate > 0
    ensures Spent(kind, states, calls, i, j) == TOKEN * Admitted(kind, states, calls, i, j)
    decreases j
  {
    if i < j {
      SpentIsAdmitted(kind, states, calls, i, j - 1);
    }
  }

  /** A stretch of calls that the bucket's own clock places between two instants. */
  ghost predicate Window(b: Bucket, states: seq<Bucket>, calls: seq<int>, i: nat, j: nat, from: int, to: int) {
    && Trace(b, states, calls) && (forall k :: 0 <= k < |states| ==> states[k].rate == b.rate)
    && i < j <= |calls| && from <= states[i + 1].last && states[j].last <= to
  }

  /**
    The rate bound: for every sequence of clock readings, any stretch of calls between two instants has at most
    burst + rate * seconds admissions.
  */
  ghost predicate KeepsRate(kind: Kind, b: Bucket)
    requires b.rate > 0
  {
    forall states: seq<Bucket>, calls: seq<int>, i: nat, j: nat, from: int, to: int
      {:trigger Window(b, states, calls, i, j, from, to)} ::
      Window(b, states, calls, i, j, from, to) ==>
        TOKEN * Admitted(kind, states, calls, i, j) <= b.capacity + b.rate * (to - from)
  }

  lemma HonestRateBound(kind: Kind, b: Bucket, states: seq<Bucket>, calls: seq<int>, i: nat, j: nat, from: int, to: int)
    requires HonestTrace(kind, b, states, calls) && Window(b, states, calls, i, j, from, to)
    ensures TOKEN * Admitted(kind, states, calls, i, j) <= b.capacity + b.rate * (to - from)
  {
    Balance(kind, b, states, calls, i, j);
    SpentIsAdmitted(kind, states, calls, i, j);
    TraceInRange(b, states, calls, j);
    Longer(b.rate, states[j].last - states[i + 1].last, to - from);
  }

  /** The witness and association limiter keeps the rate, whatever its rate, its state and the readings. */
  lemma FixedKeepsRate(b: Bucket)
    requires b.rate > 0 && InRange(b)
    ensures KeepsRate(Fixed, b)
  {
    forall states: seq<Bucket>, calls: seq<int>, i: nat, j: nat, from: int, to: int
      | Window(b, states, calls, i, j, from, to)
      ensures TOKEN * Admitted(Fixed, states, calls, i, j) <= b.capacity + b.rate * (to - from)
    {
      HonestRateBound(Fixed, b, states, calls, i, j, from, to);
    }
  }

  // ----- When the delivery limiter keeps the rate

  predicate Divides(d: nat, n: int)
    requires d > 0
  {
    n % d == 0
  }

  lemma DividesSum(d: nat, x: int, y: int)
    requires d > 0 && Divides(d, x) && Divides(d, y)
    ensures Divides(d, x + y) && Divides(d, x - y)
  {
    var p, q := x / d, y / d;
    assert x == d * p && y == d * q;
    assert x + y == d * (p + q) && x - y == d * (p - q);
    DividesProduct(d, p + q);
    DividesProduct(d, p - q);
  }

  lemma DividesProduct(d: nat, k: int)
    requires d > 0
    ensures Divides(d, d * k)
  {
    var n := d * k;
    var q, r := n / d, n % d;
    var t := k - q;
    assert d * t == d * k - d * q == r;
    if t >= 1 {
      Longer(d, 1, t);
    } else if t <= -1 {
      Longer(d, t, -1);
    }
  }

  /** Every amount is a whole number of nanoseconds' income. */
  predicate Whole(b: Bucket)
    requires b.rate > 0
  {
    Divides(b.rate, TOKEN) && Divides(b.rate, b.tokens) && Divides(b.rate, b.capacity)
  }

  lemma WholeAfter(b: Bucket, now: int)
    requires b.rate > 0 && Whole(b)
    ensures Whole(Refilled(b, now)) && Whole(After(b, now))
  {
    DividesProduct(b.rate, now - b.last);
    DividesSum(b.rate, b.tokens, b.rate * (now - b.last));
    DividesSum(b.rate, Refilled(b, now).tokens, TOKEN);
  }

  lemma WholeIsHonest(b: Bucket, now: int)
    requires b.rate > 0 && Whole(b)
    ensures Honest(Delivery, b, now)
  {
    WholeAfter(b, now);
    var r := Refilled(b, now);
    if r.tokens < TOKEN {
      DividesSum(b.rate, TOKEN, r.tokens);
      WaitIsPositive(TOKEN - r.tokens, b.rate);
    }
  }

  lemma WaitIsPositive(n: int, d: nat)
    requires d > 0 && n > 0 && Divides(d, n)
    ensures n / d >= 1
  {
    assert n == d * (n / d);
  }

  lemma {:induction false} TraceStaysWhole(b: Bucket, states: seq<Bucket>, calls: seq<int>, n: nat)
    requires b.rate > 0 && Whole(b) && Trace(b, states, calls) && n < |states|
    ensures states[n].rate == b.rate && Whole(states[n])
  {
    if n > 0 {
      TraceStaysWhole(b, states, calls, n - 1);
      assert Follows(states[n - 1], calls[n - 1], states[n]);
      WholeAfter(states[n - 1], calls[n - 1]);
    }
  }

  lemma WholeKeepsRate(b: Bucket)
    requires b.rate > 0 && InRange(b) && Whole(b)
    ensures KeepsRate(Delivery, b)
  {
    forall states: seq<Bucket>, calls: seq<int>, i: nat, j: nat, from: int, to: int
      | Window(b, states, calls, i, j, from, to)
      ensures TOKEN * Admitted(Delivery, states, calls, i, j) <= b.capacity + b.rate * (to - from)
    {
      forall k | 0 <= k < |calls|
        ensures Honest(Delivery, states[k], calls[k])
      {
        TraceStaysWhole(b, states, calls, k);
        WholeIsHonest(states[k], calls[k]);
      }
      HonestRateBound(Delivery, b, states, calls, i, j, from, to);
    }
  }

  /** The states of a bucket that is drained and then called again and again one truncated wait later. */
  function Drained(rate: nat, burst: nat, start: int, gap: nat, k: nat): Bucket {
    if k <= burst then Bucket(rate, burst * TOKEN, (burst - k) * TOKEN, start)
    else Bucket(rate, burst * TOKEN, rate * gap, start + gap)
  }

  function DrainCall(burst: nat, start: int, gap: nat, k: nat): int {
    if k < burst then start else start + gap
  }

  /** The gap brings in less than a token, and what is missing is worth less than a nanosecond. */
  predicate FallsShort(rate: nat, gap: nat) {
    rate > 0 && rate * gap < TOKEN < rate * gap + rate
  }

  lemma DrainStep(rate: nat, burst: nat, start: int, gap: nat, k: nat)
    requires burst > 0 && FallsShort(rate, gap)
    ensures Follows(Drained(rate, burst, start, gap, k), DrainCall(burst, start, gap, k),
                    Drained(rate, burst, start, gap, k + 1))
    ensures k >= burst ==> Admits(Delivery, Drained(rate, burst, start, gap, k), DrainCall(burst, start, gap, k))
  {
    var b, now := Drained(rate, burst, start, gap, k), DrainCall(burst, start, gap, k);
    if k >= burst {
      assert Refilled(b, now).tokens == rate * gap;
      BelowIsZero(TOKEN - rate * gap, rate);
    }
  }

  lemma BelowIsZero(n: nat, d: nat)
    requires n < d
    ensures n / d == 0
  {
  }

  lemma {:induction false} AllAdmitted(states: seq<Bucket>, calls: seq<int>, i: nat, j: nat)
    requires i <= j <= |calls| <= |states| && forall k :: 0 <= k < |states| ==> states[k].rate > 0
    requires forall k :: i <= k < j ==> Admits(Delivery, states[k], calls[k])
    ensures Admitted(Delivery, states, calls, i, j) == j - i
    decreases j
  {
    if i < j {
      AllAdmitted(states, calls, i, j - 1);
    }
  }

  /** At one instant, with no whole token, a limiter whose wait falls short admits any number of calls. */
  lemma ShortWaitBreaksRate(rate: nat, burst: nat, start: int, gap: nat)
    requires burst > 0 && FallsShort(rate, gap)
    ensures !KeepsRate(Delivery, Full(rate, burst, start))
  {
    var b, n := Full(rate, burst, start), 2 * burst + 1;
    var states := seq(n + 1, k requires 0 <= k <= n => Drained(rate, burst, start, gap, k));
    var calls := seq(n, k requires 0 <= k < n => DrainCall(burst, start, gap, k));
    forall k, m | 0 <= k < n && m == k + 1
      ensures Follows(states[k], calls[k], states[m])
    {
      DrainStep(rate, burst, start, gap, k);
    }
    forall k | burst <= k < n
      ensures Admits(Delivery, states[k], calls[k])
    {
      DrainStep(rate, burst, start, gap, k);
    }
    AllAdmitted(states, calls, burst, n);
    assert Window(b, states, calls, burst, n, start + gap, start + gap);
  }

  /**
    The delivery limiter keeps the rate for every sequence of readings exactly when a nanosecond's income divides a
    token, that is when its rate divides a billion.
  */
  lemma DeliveryKeepsRateExactly(rate: nat, burst: nat, start: int)
    requires rate > 0 && burst > 0
    ensures KeepsRate(Delivery, Full(rate, burst, start)) <==> Divides(rate, TOKEN)
  {
    if Divides(rate, TOKEN) {
      var b := Full(rate, burst, start);
      var q := TOKEN / rate;
      assert burst * TOKEN == rate * (q * burst);
      DividesProduct(rate, q * burst);
      WholeKeepsRate(b);
    } else {
      var gap := TOKEN / rate;
      assert TOKEN == rate * gap + TOKEN % rate;
      ShortWaitBreaksRate(rate, burst, start, gap);
    }
  }

  /** Three a second with a burst of one: a rate within the configured range that is not kept. */
  lemma ThreePerSecondBreaksRate(start: int)
    ensures !KeepsRate(Delivery, Full(3, 1, start))
  {
    ShortWaitBreaksRate(3, 1, start, 333_333_333);
  }

  // ----- The limiters

  class FixedTokenBucket {
    const rate: nat
    const capacity: nat
    var tokens: int
    var last: int

    ghost function View(): Bucket
      reads this
    {
      Bucket(rate, capacity, tokens, last)
    }

    constructor (ratePerSecond: nat, burst: nat, now: int)
      ensures View() == Full(ratePerSecond, burst, now) && InRange(View())
    {
      rate, capacity, tokens, last := ratePerSecond, burst * TOKEN, burst * TOKEN, now;
    }

    method Allow(now: int) returns (ok: bool)
      requires rate > 0 && InRange(View())
      modifies this
      ensures InRange(View()) && Follows(old(View()), now, View()) && ok == Admits(Fixed, old(View()), now)
    {
      AfterInRange(View(), now);
      var at := if now < last then last else now;
      tokens := tokens + rate * (at - last);
      if tokens > capacity {
        tokens := capacity;
      }
      last := at;
      if tokens < TOKEN {
        return false;
      }
      tokens := tokens - TOKEN;
      return true;
    }
  }

  class DeliveryTokenBucket {
    const rate: nat
    const capacity: nat
    var tokens: int
    var last: int

    ghost function View(): Bucket
      reads this
    {
      Bucket(rate, capacity, tokens, last)
    }

    constructor (ratePerSecond: nat, burst: nat, now: int)
      ensures View() == Full(ratePerSecond, burst, now) && InRange(View())
    {
      rate, capacity, tokens, last := ratePerSecond, burst * TOKEN, burst * TOKEN, now;
    }

    method Delay(now: int) returns (delay: nat)
      requires rate > 0 && InRange(View())
      modifies this
      ensures InRange(View()) && Follows(old(View()), now, View())
      ensures delay == 0 <==> Admits(Delivery, old(View()), now)
      ensures delay > 0 ==> TOKEN - rate < tokens + rate * delay <= TOKEN
    {
      AfterInRange(View(), now);
      if now > last {
        tokens := tokens + rate * (now - last);
        if tokens > capacity {
          tokens := capacity;
        }
        last := now;
      }
      if tokens >= TOKEN {
        tokens := tokens - TOKEN;
        return 0;
      }
      delay := (TOKEN - tokens) / rate;
    }

    /** Waits over a series of clock readings, until a call is admitted or the readings end with a cancellation. */
    method Wait(readings: seq<int>) returns (admitted: bool, ghost states: seq<Bucket>)
      requires rate > 0 && InRange(View())
      modifies this
      ensures InRange(View()) && 1 <= |states| <= |readings| + 1
      ensures Trace(old(View()), states, readings[..|states| - 1]) && states[|states| - 1] == View()
      ensures forall k :: 0 <= k < |states| - 1 && states[k].rate > 0 ==>
                (Admits(Delivery, states[k], readings[k]) <==> admitted && k == |states| - 2)
      ensures !admitted ==> |states| == |readings| + 1
    {
      states := [View()];
      admitted := false;
      for i := 0 to |readings|
        invariant InRange(View()) && |states| == i + 1 && states[i] == View() && !admitted
        invariant Trace(old(View()), states, readings[..i])
        invariant forall k :: 0 <= k < i && states[k].rate > 0 ==> !Admits(Delivery, states[k], readings[k])
      {
        ghost var before := View();
        var delay := Delay(readings[i]);
        ghost var trace := states;
        states := states + [View()];
        TraceGrows(old(View()), trace, readings, i, View());
        if delay == 0 {
          admitted := true;
          return;
        }
      }
    }
  }

  lemma TraceGrows(b: Bucket, states: seq<Bucket>, calls: seq<int>, i: nat, n: Bucket)
    requires i < |calls| && Trace(b, states, calls[..i]) && Follows(states[i], calls[i], n)
    ensures Trace(b, states + [n], calls[..i + 1])
  {
    var more, made := states + [n], calls[..i + 1];
    forall k, m | 0 <= k < i + 1 && m == k + 1
      ensures Follows(more[k], made[k], more[m])
    {
      if k < i {
        assert made[k] == calls[..i][k];
        assert Follows(states[k], calls[..i][k], states[m]);
      }
    }
  }

  // ----- Retry backoff

  function Doubled(initial: nat, times: nat): nat {
    if times == 0 then initial else 2 * Doubled(initial, times - 1)
  }

  function Least(a: nat, b: nat): nat {
    if a < b then a else b
  }

  lemma {:induction false} DoubledGrows(initial: nat, m: nat, n: nat)
    requires m <= n
    ensures Doubled(initial, m) <= Doubled(initial, n)
  {
    if m < n {
      DoubledGrows(initial, m, n - 1);
    }
  }

  const DEFAULT_BACKOFF := 500_000_000

  /** The initial delay, doubled once for every further attempt, never past the cap. */
  method BackoffBase(first: nat, cap: nat, attempts: nat) returns (base: nat)
    requires first <= cap && attempts >= 1
    ensures base == Least(cap, Doubled(first, attempts - 1))
  {
    base := first;
    var index := 1;
    while index < attempts && base < cap
      invariant 1 <= index <= attempts && base == Least(cap, Doubled(first, index - 1))
    {
      if base > cap / 2 {
        DoubledGrows(first, index, attempts - 1);
        return cap;
      }
      base := base * 2;
      index := index + 1;
    }
    DoubledGrows(first, index - 1, attempts - 1);
  }

  /** The base scaled by thousandths in 64-bit arithmetic, and no more than the cap. */
  function Jittered(base: nat, cap: nat, scale: nat): nat {
    Least(cap, base * scale % TWO_TO_THE_64 / 1000)
  }

  /** The delay is within a quarter of its base, and under the cap. */
  predicate NearBase(base: nat, cap: nat, scale: nat) {
    Least(cap, base * 3 / 4) <= Jittered(base, cap, scale) <= Least(cap, base * 5 / 4)
  }

  /** The jitter keeps within a quarter of a base under the cap exactly when the 64-bit product does not wrap. */
  lemma JitterBoundsExactly(base: nat, cap: nat, scale: nat)
    requires 750 <= scale <= 1250 && base <= cap
    ensures NearBase(base, cap, scale) <==> base * scale < TWO_TO_THE_64
  {
    Longer(base, 750, scale);
    Longer(base, scale, 1250);
    ProductDecides(base, cap, base * scale);
  }

  lemma ProductDecides(base: nat, cap: nat, product: nat)
    requires base * 750 <= product <= base * 1250 && base <= cap
    ensures Least(cap, base * 3 / 4) <= Least(cap, product % TWO_TO_THE_64 / 1000) <= Least(cap, base * 5 / 4) <==>
            product < TWO_TO_THE_64
  {
    if product < TWO_TO_THE_64 {
      assert product % TWO_TO_THE_64 == product;
    } else {
      WrappedIsShort(base, product, product / TWO_TO_THE_64, product % TWO_TO_THE_64);
    }
  }

  /** What is left of a wrapped product is less than three quarters of the base, even when rounded down. */
  lemma WrappedIsShort(base: nat, product: nat, wraps: nat, rest: nat)
    requires 750 * base <= product <= 1250 * base && wraps >= 1
    requires product == TWO_TO_THE_64 * wraps + rest && rest < TWO_TO_THE_64
    ensures rest / 1000 < base * 3 / 4
  {
    assert 5 * (3000 * base - 4 * rest) >= 20 * TWO_TO_THE_64 * wraps - 8 * product;
    assert 3000 * base - 4 * rest > 4000;
  }

  const LONGEST_CAP := 120_000_000_000

  /** Under a cap of two minutes, the longest that any configuration allows, the jitter keeps within a quarter. */
  lemma ConfiguredJitterIsNear(base: nat, cap: nat, scale: nat)
    requires 750 <= scale <= 1250 && base <= cap <= LONGEST_CAP
    ensures NearBase(base, cap, scale)
  {
    Longer(base, scale, 1250);
    JitterBoundsExactly(base, cap, scale);
  }

  /** A base of 15 million seconds, about 174 days, jittered upward comes out at about three and a half days. */
  lemma LongBaseWraps()
    ensures var base := 15_000_000_000_000_000;
            Jittered(base, base, 1250) == 303_255_926_290_448 && !NearBase(base, base, 1250)
  {
  }

  method JitteredBackoff(initial: int, maximum: int, attempts: int, entropy: Option<nat>) returns (delay: nat)
    ensures var first := if initial <= 0 then DEFAULT_BACKOFF else initial;
            var cap := if maximum < first then first else maximum;
            var scale := if entropy.Some? then 750 + entropy.value % 501 else 1000;
            delay == Jittered(Least(cap, Doubled(first, if attempts < 1 then 0 else attempts - 1)), cap, scale)
  {
    var first: nat := if initial <= 0 then DEFAULT_BACKOFF else initial;
    var cap: nat := if maximum < first then first else maximum;
    var base := BackoffBase(first, cap, if attempts < 1 then 1 else attempts);
    var scale: nat := if entropy.Some? then 750 + entropy.value % 501 else 1000;
    delay := base * scale % TWO_TO_THE_64 / 1000;
    if delay > cap {
      delay := cap;
    }
  }
}
