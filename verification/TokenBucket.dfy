/** The bandwidth controller: a token bucket refilled with floor division whenever it is looked at. */
module TokenBucket {
  import opened Arith

  const MILLION := 1_000_000
  const DEFAULT_RATE := 1_048_576
  const DEFAULT_BURST := 65_536
  const MIN_SLEEP := 1_000
  const MAX_SLEEP := 100_000

  // ---------------------------------------------------------------- the bucket as a value

  /** `last` is the time of the last refill in microseconds. */
  datatype Bucket = Bucket(rate: nat, burst: nat, tokens: nat, last: int, sent: nat, active: bool)

  predicate Sound(b: Bucket) {
    0 < b.rate && b.tokens <= b.burst
  }

  /** Tokens earned in d microseconds. */
  function Earned(rate: nat, d: nat): nat {
    rate * d / MILLION
  }

  function Min(a: nat, b: nat): nat {
    if a <= b then a else b
  }

  /** Nothing happens while time stands still; otherwise the fraction of a token is lost. */
  function Refill(b: Bucket, now: int): Bucket {
    if !b.active || now - b.last <= 0 then b
    else b.(tokens := Min(b.tokens + Earned(b.rate, now - b.last), b.burst), last := now)
  }

  function Clamp(wait: nat): (r: nat)
    ensures MIN_SLEEP <= r <= MAX_SLEEP
  {
    if wait < MIN_SLEEP then MIN_SLEEP else if wait > MAX_SLEEP then MAX_SLEEP else wait
  }

  /** The computed delay for tokens that are still missing. */
  function Wait(b: Bucket, bytes: nat): nat
    requires 0 < b.rate && b.tokens < bytes
  {
    (bytes - b.tokens) * MILLION / b.rate
  }

  /** Asking for bytes: the bucket afterwards and the answer, 0 for yes and otherwise a time to sleep. */
  function AcquireStep(b: Bucket, bytes: nat, now: int): (Bucket, nat)
    requires 0 < b.rate
  {
    if !b.active || bytes == 0 then (b, 0)
    else
      var r := Refill(b, now);
      if r.tokens >= bytes then (r.(tokens := r.tokens - bytes, sent := r.sent + bytes), 0)
      else (r, Clamp(Wait(r, bytes)))
  }

  // ---------------------------------------------------------------- runs

  datatype Call = Acquire(bytes: nat, now: int) | Delay(bytes: nat, now: int) | CanSend(bytes: nat, now: int)

  function Step(b: Bucket, c: Call): Bucket
    requires 0 < b.rate
  {
    match c
    case Acquire(bytes, now) => AcquireStep(b, bytes, now).0
    case Delay(bytes, now) => if bytes == 0 then b else Refill(b, now)
    case CanSend(_, now) => Refill(b, now)
  }

  /** The bytes a call takes from the bucket. */
  function Taken(b: Bucket, c: Call): nat
    requires 0 < b.rate
  {
    if c.Acquire? && b.active && Refill(b, c.now).tokens >= c.bytes then c.bytes else 0
  }

  /** The bytes acquired over a sequence of calls. */
  function Acquired(b: Bucket, calls: seq<Call>): nat
    requires 0 < b.rate
    decreases |calls|
  {
    if calls == [] then 0 else Taken(b, calls[0]) + Acquired(Step(b, calls[0]), calls[1..])
  }

  /** The calls come in order of time, the first not before `from`. */
  predicate Monotone(from: int, calls: seq<Call>)
    decreases |calls|
  {
    calls == [] || (from <= calls[0].now && Monotone(calls[0].now, calls[1..]))
  }

  function EndTime(from: int, calls: seq<Call>): int {
    if calls == [] then from else calls[|calls| - 1].now
  }

  lemma EarnedSplits(rate: nat, a: nat, b: nat)
    ensures Earned(rate, a) + Earned(rate, b) <= Earned(rate, a + b)
  {
    var x, y := rate * a, rate * b;
    assert rate * (a + b) == x + y;
    QuotientAtLeast(x + y, MILLION, x / MILLION + y / MILLION);
  }

  lemma EarnedMonotone(rate: nat, a: nat, b: nat)
    requires a <= b
    ensures Earned(rate, a) <= Earned(rate, b)
  {
    EarnedSplits(rate, a, b - a);
  }

  /** A step keeps the bucket sound, and what it adds to tokens and takings is at most what the time since the last
      refill earns. */
  lemma StepEarns(b: Bucket, c: Call, t: int)
    requires Sound(b) && b.active && b.last <= c.now <= t
    ensures var b' := Step(b, c);
            && Sound(b') && b'.active && b'.rate == b.rate && b'.burst == b.burst && b.last <= b'.last <= c.now
            && b'.tokens + Taken(b, c) + Earned(b.rate, t - b'.last) <= b.tokens + Earned(b.rate, t - b.last)
  {
    var r := Refill(b, c.now);
    EarnedSplits(b.rate, c.now - b.last, t - c.now);
    assert (c.now - b.last) + (t - c.now) == t - b.last;
    hide Earned;
    assert r.tokens + Earned(b.rate, t - r.last) <= b.tokens + Earned(b.rate, t - b.last);
  }

  lemma {:induction false} EndsLater(from: int, calls: seq<Call>)
    requires Monotone(from, calls)
    ensures from <= EndTime(from, calls)
    decreases |calls|
  {
    if calls != [] { EndsLater(calls[0].now, calls[1..]); }
  }

  lemma MonotoneEarlier(from: int, earlier: int, calls: seq<Call>)
    requires Monotone(from, calls) && earlier <= from
    ensures Monotone(earlier, calls)
  {
  }

  /** What is acquired comes from the tokens at hand and from the time since the last refill. */
  lemma {:induction false} AcquiredFromTokens(b: Bucket, calls: seq<Call>, t: int)
    requires Sound(b) && b.active && Monotone(b.last, calls) && b.last <= t && EndTime(b.last, calls) <= t
    ensures Acquired(b, calls) <= b.tokens + Earned(b.rate, t - b.last)
    decreases |calls|
  {
    if calls != [] {
      var c, rest := calls[0], calls[1..];
      EndsLater(c.now, rest);
      StepEarns(b, c, t);
      var b' := Step(b, c);
      MonotoneEarlier(c.now, b'.last, rest);
      hide Earned, Step, Taken;
      AcquiredFromTokens(b', rest, t);
    }
  }

  /** Conformance: in any window of calls on a monotone clock, however much idle time went before it, at most the
      burst plus the rate times the length of the window is acquired. */
  lemma {:induction false} WindowConforms(b: Bucket, calls: seq<Call>)
    requires Sound(b) && b.active && calls != [] && Monotone(b.last, calls)
    ensures var elapsed := calls[|calls| - 1].now - calls[0].now;
            0 <= elapsed && Acquired(b, calls) <= b.burst + Earned(b.rate, elapsed)
    decreases |calls|
  {
    var c, rest := calls[0], calls[1..];
    var t := calls[|calls| - 1].now;
    EndsLater(c.now, rest);
    if !c.CanSend? && c.bytes == 0 {
      // the call does not refill; what follows is a shorter window
      if rest != [] {
        MonotoneEarlier(c.now, b.last, rest);
        WindowConforms(b, rest);
        EarnedMonotone(b.rate, t - rest[0].now, t - c.now);
      }
    } else {
      var r := Refill(b, c.now);
      assert Refill(r, c.now) == r;
      assert Step(b, c) == Step(r, c) && Taken(b, c) == Taken(r, c);
      assert Acquired(b, calls) == Acquired(r, calls);
      AcquiredFromTokens(r, calls, t);
    }
  }

  /** From a full bucket on: the whole history of a controller conforms. */
  lemma HistoryConforms(b: Bucket, calls: seq<Call>)
    requires Sound(b) && b.active && Monotone(b.last, calls)
    ensures b.last <= EndTime(b.last, calls)
    ensures Acquired(b, calls) <= b.burst + Earned(b.rate, EndTime(b.last, calls) - b.last)
  {
    EndsLater(b.last, calls);
    AcquiredFromTokens(b, calls, EndTime(b.last, calls));
  }

  // ---------------------------------------------------------------- nothing is lost

  function After(b: Bucket, calls: seq<Call>): Bucket
    requires 0 < b.rate
    decreases |calls|
  {
    if calls == [] then b else After(Step(b, calls[0]), calls[1..])
  }

  /** What n refills over a time may gain: the ideal amount, less at most one token for each. */
  ghost predicate WithinRounding(gain: int, rate: nat, elapsed: int, n: nat) {
    0 <= gain && 0 <= elapsed && gain * MILLION <= rate * elapsed <= (gain + n) * MILLION
  }

  /** One call below the cap: what it takes is counted and missing from the bucket afterwards, and what the bucket gains
      is within one rounding of the ideal. */
  lemma StepAccounts(b: Bucket, c: Call)
    requires Sound(b) && b.active && b.last <= c.now && b.tokens + Earned(b.rate, c.now - b.last) <= b.burst
    ensures var b' := Step(b, c);
            && b'.sent == b.sent + Taken(b, c)
            && WithinRounding(b'.tokens + Taken(b, c) - b.tokens, b.rate, b'.last - b.last, 1)
  {
    var d := c.now - b.last;
    assert Earned(b.rate, d) * MILLION <= b.rate * d < (Earned(b.rate, d) + 1) * MILLION;
    hide Earned;
  }

  lemma RoundingAdds(rate: nat, gain: int, elapsed: int, n: nat, gain': int, elapsed': int, n': nat)
    requires WithinRounding(gain, rate, elapsed, n) && WithinRounding(gain', rate, elapsed', n')
    ensures WithinRounding(gain + gain', rate, elapsed + elapsed', n + n')
  {
    Distribute(elapsed, elapsed', rate);
    Commute(rate, elapsed);
    Commute(rate, elapsed');
    Commute(rate, elapsed + elapsed');
  }

  /** The account of every run that does not reach the cap: the bytes acquired are all counted as sent, and tokens left
      and bytes acquired are together the tokens there were and what the time has earned, within one token for every
      call. */
  lemma {:induction false} RunAccounts(b: Bucket, calls: seq<Call>)
    requires Sound(b) && b.active && Monotone(b.last, calls)
    requires b.last <= EndTime(b.last, calls) && b.tokens + Earned(b.rate, EndTime(b.last, calls) - b.last) <= b.burst
    ensures var e := After(b, calls);
            && e.sent == b.sent + Acquired(b, calls)
            && WithinRounding(e.tokens + Acquired(b, calls) - b.tokens, b.rate, e.last - b.last, |calls|)
    decreases |calls|
  {
    if calls != [] {
      var c, rest, t := calls[0], calls[1..], EndTime(b.last, calls);
      EndsLater(c.now, rest);
      EarnedMonotone(b.rate, c.now - b.last, t - b.last);
      StepEarns(b, c, t);
      StepAccounts(b, c);
      var b' := Step(b, c);
      MonotoneEarlier(c.now, b'.last, rest);
      hide Earned, Step, Taken, WithinRounding;
      assert EndTime(b'.last, rest) == if rest == [] then b'.last else t;
      if rest == [] { NothingEarned(b.rate); }
      RunAccounts(b', rest);
      var e := After(b', rest);
      RoundingAdds(b.rate, b'.tokens + Taken(b, c) - b.tokens, b'.last - b.last, 1,
                   e.tokens + Acquired(b', rest) - b'.tokens, e.last - b'.last, |rest|);
    }
  }

  lemma NothingEarned(rate: nat)
    ensures Earned(rate, 0) == 0
  {
  }

  // ---------------------------------------------------------------- what rounding costs

  /** Refills at the ends of successive gaps, with nothing spent. */
  function Refilled(b: Bucket, gaps: seq<nat>): Bucket
    decreases |gaps|
  {
    if gaps == [] then b else Refilled(Refill(b, b.last + gaps[0]), gaps[1..])
  }

  function Total(gaps: seq<nat>): nat {
    if gaps == [] then 0 else gaps[0] + Total(gaps[1..])
  }

  function Gains(rate: nat, gaps: seq<nat>): nat {
    if gaps == [] then 0 else Earned(rate, gaps[0]) + Gains(rate, gaps[1..])
  }

  /** m refills together gain at most the ideal amount and less than m tokens short of it. */
  lemma {:induction false} GainsNearIdeal(rate: nat, gaps: seq<nat>)
    ensures Gains(rate, gaps) * MILLION <= rate * Total(gaps)
    ensures gaps != [] ==> rate * Total(gaps) < (Gains(rate, gaps) + |gaps|) * MILLION
  {
    if gaps != [] {
      GainsNearIdeal(rate, gaps[1..]);
      var g, rest := gaps[0], Total(gaps[1..]);
      assert rate * (g + rest) == rate * g + rate * rest;
    }
  }

  /** Below the cap the bucket gains exactly that. */
  lemma {:induction false} RefillsGain(b: Bucket, gaps: seq<nat>)
    requires Sound(b) && b.active && b.tokens + Gains(b.rate, gaps) <= b.burst
    ensures Refilled(b, gaps).tokens == b.tokens + Gains(b.rate, gaps)
    ensures Refilled(b, gaps).last == b.last + Total(gaps)
    decreases |gaps|
  {
    if gaps != [] {
      var r := Refill(b, b.last + gaps[0]);
      assert gaps[0] == 0 ==> Earned(b.rate, 0) == 0;
      RefillsGain(r, gaps[1..]);
    }
  }

  /** A bucket looked at too often starves: gaps that each earn less than a token earn nothing, however many. */
  lemma {:induction false} FrequentRefillsStarve(rate: nat, gaps: seq<nat>)
    ensures Gains(rate, gaps) == 0 <==> forall i :: 0 <= i < |gaps| ==> rate * gaps[i] < MILLION
  {
    if gaps != [] {
      FrequentRefillsStarve(rate, gaps[1..]);
      assert Earned(rate, gaps[0]) == 0 <==> rate * gaps[0] < MILLION;
      if forall i :: 0 <= i < |gaps[1..]| ==> rate * gaps[1..][i] < MILLION {
        forall i | 0 < i < |gaps| ensures rate * gaps[i] < MILLION {
          assert gaps[i] == gaps[1..][i - 1];
        }
      }
    }
  }

  // ---------------------------------------------------------------- how long to wait

  /** Waiting w microseconds and refilling once makes the bytes available. */
  predicate Suffices(b: Bucket, bytes: nat, w: nat)
  {
    Refill(b, b.last + w).tokens >= bytes
  }

  /** For bytes the bucket can hold but does not hold: w suffices exactly when the rate times w covers what is missing. */
  lemma SufficesExactlyWhen(b: Bucket, bytes: nat, w: nat)
    requires Sound(b) && b.active && b.tokens < bytes <= b.burst
    ensures Suffices(b, bytes, w) <==> b.rate * w >= (bytes - b.tokens) * MILLION
  {
    QuotientAtLeast(b.rate * w, MILLION, bytes - b.tokens);
  }

  /** More than the burst is never available, however long one waits. */
  lemma BeyondBurstNever(b: Bucket, bytes: nat, w: nat)
    requires Sound(b) && b.burst < bytes
    ensures !Suffices(b, bytes, w)
  {
  }

  /** The computed delay d is exact up to rounding: less never suffices, d does exactly when the rate divides what is
      missing, and d + 1 always does. */
  lemma DelayIsExact(b: Bucket, bytes: nat)
    requires Sound(b) && b.active && b.tokens < bytes <= b.burst
    ensures var d := Wait(b, bytes);
            && (forall w: nat :: w < d ==> !Suffices(b, bytes, w))
            && (Suffices(b, bytes, d) <==> (bytes - b.tokens) * MILLION % b.rate == 0)
            && Suffices(b, bytes, d + 1)
  {
    var d, missing := Wait(b, bytes), (bytes - b.tokens) * MILLION;
    assert missing == d * b.rate + missing % b.rate;
    forall w: nat | w < d ensures !Suffices(b, bytes, w) {
      SufficesExactlyWhen(b, bytes, w);
      BelowQuotient(missing, b.rate, d, w);
    }
    SufficesExactlyWhen(b, bytes, d);
    SufficesExactlyWhen(b, bytes, d + 1);
    Distribute(d, 1, b.rate);
    Commute(b.rate, d);
    Commute(b.rate, d + 1);
  }

  /** A rate of 3 bytes a second and one byte missing: the computed delay is not enough. */
  lemma DelayCanBeShort()
    ensures var b := Bucket(3, 1, 0, 0, 0, true); Wait(b, 1) == 333_333 && !Suffices(b, 1, Wait(b, 1))
  {
    var b := Bucket(3, 1, 0, 0, 0, true);
    assert Wait(b, 1) == 333_333;
    SufficesExactlyWhen(b, 1, 333_333);
  }

  /** The sleeping time a refused `acquire` returns: enough whenever it was rounded up, never when it was capped, and in
      between exactly when the rate divides what is missing. */
  lemma SleepSufficesExactlyWhen(b: Bucket, bytes: nat, now: int)
    requires Sound(b) && b.active && Refill(b, now).tokens < bytes <= b.burst
    ensures var (r, sleep) := AcquireStep(b, bytes, now);
            var d := Wait(r, bytes);
            && r.tokens < bytes
            && (d < MIN_SLEEP ==> Suffices(r, bytes, sleep))
            && (d > MAX_SLEEP ==> !Suffices(r, bytes, sleep))
            && (MIN_SLEEP <= d <= MAX_SLEEP ==>
                  (Suffices(r, bytes, sleep) <==> (bytes - r.tokens) * MILLION % r.rate == 0))
  {
    var r := Refill(b, now);
    var d := Wait(r, bytes);
    assert AcquireStep(b, bytes, now) == (r, Clamp(d));
    hide Refill, Wait, AcquireStep;
    DelayIsExact(r, bytes);
    if d < MIN_SLEEP { MoreSuffices(r, bytes, d + 1, MIN_SLEEP); }
  }

  /** The point of the allowed sleeping times that is nearest to the wanted one. */
  ghost predicate Nearest(sleep: int, wanted: int) {
    && 1_000 <= sleep <= 100_000
    && forall x :: 1_000 <= x <= 100_000 ==> Distance(sleep, wanted) <= Distance(x, wanted)
  }

  function Distance(x: int, y: int): nat {
    if x <= y then y - x else x - y
  }

  /** It is the only one. */
  lemma NearestUnique(sleep: int, wanted: int)
    ensures Nearest(sleep, wanted) <==>
              sleep == if wanted < 1_000 then 1_000 else if wanted > 100_000 then 100_000 else wanted
  {
    var best := if wanted < 1_000 then 1_000 else if wanted > 100_000 then 100_000 else wanted;
    assert Distance(best, wanted) <= Distance(sleep, wanted) || sleep < 1_000 || sleep > 100_000;
  }

  /** An `acquire` that is answered with a sleeping time gets the time nearest to the delay computed for what is missing;
      the answer is 0 exactly when the bytes are there or none are wanted. */
  lemma SleepIsNearest(b: Bucket, bytes: nat, now: int)
    requires Sound(b) && b.active
    ensures var (r, sleep) := AcquireStep(b, bytes, now);
            && (sleep == 0 <==> bytes == 0 || Refill(b, now).tokens >= bytes)
            && (sleep > 0 ==> r.tokens < bytes && Nearest(sleep, (bytes - r.tokens) * 1_000_000 / b.rate))
  {
    hide Nearest;
    var (r, sleep) := AcquireStep(b, bytes, now);
    if sleep > 0 { NearestUnique(sleep, Wait(r, bytes)); }
  }

  /** With the default rate and nothing in the bucket one byte is worth the shortest sleep; a second's worth of bytes at
      1000 bytes a second the longest. A second at that rate earns 1000 bytes. */
  lemma SleepsAndEarnings()
    ensures AcquireStep(Bucket(DEFAULT_RATE, DEFAULT_BURST, 0, 0, 0, true), 1, 0).1 == 1_000
    ensures AcquireStep(Bucket(1_000, 2_000, 0, 0, 0, true), 1_000, 0).1 == 100_000
    ensures Refill(Bucket(1_000, 2_000, 0, 0, 0, true), 1_000_000).tokens == 1_000
    ensures DEFAULT_RATE == 1024 * 1024 && DEFAULT_BURST == 64 * 1024
  {
  }

  /** Waiting longer does no harm. */
  lemma MoreSuffices(b: Bucket, bytes: nat, w: nat, v: nat)
    requires Sound(b) && b.active && b.tokens < bytes <= b.burst && w <= v && Suffices(b, bytes, w)
    ensures Suffices(b, bytes, v)
  {
    SufficesExactlyWhen(b, bytes, w);
    SufficesExactlyWhen(b, bytes, v);
    TimesMonotone(w, v, b.rate);
    Commute(b.rate, w);
    Commute(b.rate, v);
  }

  lemma Commute(a: int, b: int)
    ensures a * b == b * a
  {
  }

  lemma BelowQuotient(missing: nat, rate: nat, d: nat, w: nat)
    requires rate > 0 && d == missing / rate && w < d
    ensures rate * w < missing
  {
    TimesMonotone(w + 1, d, rate);
    Distribute(w, 1, rate);
    Commute(rate, w);
  }

  // ---------------------------------------------------------------- the controller

  /** `struct timeval`. */
  datatype Time = Time(sec: int, usec: int)

  function Micros(t: Time): int {
    t.sec * MILLION + t.usec
  }

  class Controller {
    var rateLimit: nat
    var burstSize: nat
    var tokens: nat
    var lastUpdate: Time
    var bytesSent: nat
    var active: bool

    function View(): Bucket
      reads this
    {
      Bucket(rateLimit, burstSize, tokens, Micros(lastUpdate), bytesSent, active)
    }

    ghost predicate Valid()
      reads this
    {
      Sound(View())
    }

    /** `bandwidth_controller_init`: a full bucket, with defaults for zero arguments. */
    constructor (rateLimit: nat, burstSize: nat, now: Time)
      ensures Valid() && active && tokens == this.burstSize && bytesSent == 0 && lastUpdate == now
      ensures this.rateLimit == (if rateLimit > 0 then rateLimit else DEFAULT_RATE)
      ensures this.burstSize == (if burstSize > 0 then burstSize else DEFAULT_BURST)
    {
      this.rateLimit := if rateLimit > 0 then rateLimit else DEFAULT_RATE;
      this.burstSize := if burstSize > 0 then burstSize else DEFAULT_BURST;
      tokens := if burstSize > 0 then burstSize else DEFAULT_BURST;
      bytesSent, active, lastUpdate := 0, true, now;
    }

    method UpdateTokens(now: Time)
      requires Valid()
      modifies this`tokens, this`lastUpdate
      ensures Valid() && View() == Refill(old(View()), Micros(now))
    {
      if !active { return; }
      var diff := (now.sec - lastUpdate.sec) * 1000000 + (now.usec - lastUpdate.usec);
      if diff <= 0 { return; }
      var toAdd := rateLimit * diff / 1000000;
      tokens := tokens + toAdd;
      if tokens > burstSize {
        tokens := burstSize;
      }
      lastUpdate := now;
    }

    /** 0 when the bytes were taken, otherwise a bounded time to sleep. */
    method Acquire(bytes: nat, now: Time) returns (wait: nat)
      requires Valid()
      modifies this`tokens, this`lastUpdate, this`bytesSent
      ensures Valid() && (View(), wait) == AcquireStep(old(View()), bytes, Micros(now))
      ensures bytesSent == old(bytesSent) + Taken(old(View()), Call.Acquire(bytes, Micros(now)))
      ensures !old(active) ==> wait == 0 && View() == old(View())
      ensures old(active) ==> (wait == 0 <==> bytes == 0 || bytesSent == old(bytesSent) + bytes)
      ensures wait > 0 ==> tokens < bytes && Nearest(wait, (bytes - tokens) * 1_000_000 / rateLimit)
    {
      if active { SleepIsNearest(View(), bytes, Micros(now)); }
      hide Nearest;
      if !active || bytes == 0 { return 0; }
      UpdateTokens(now);
      if tokens >= bytes {
        tokens := tokens - bytes;
        bytesSent := bytesSent + bytes;
        return 0;
      }
      wait := (bytes - tokens) * 1000000 / rateLimit;
      if wait < MIN_SLEEP { wait := MIN_SLEEP; }
      if wait > MAX_SLEEP { wait := MAX_SLEEP; }
    }

    method CalculateDelay(bytes: nat, now: Time) returns (delay: nat)
      requires Valid()
      modifies this`tokens, this`lastUpdate
      ensures Valid() && View() == Step(old(View()), Call.Delay(bytes, Micros(now)))
      ensures delay == if active && tokens < bytes then Wait(View(), bytes) else 0
    {
      if !active || bytes == 0 { return 0; }
      UpdateTokens(now);
      if tokens >= bytes { return 0; }
      return (bytes - tokens) * 1000000 / rateLimit;
    }

    method CanSend(bytes: nat, now: Time) returns (ok: bool)
      requires Valid()
      modifies this`tokens, this`lastUpdate
      ensures Valid() && View() == Step(old(View()), Call.CanSend(bytes, Micros(now)))
      ensures ok <==> !active || tokens >= bytes
    {
      if !active { return true; }
      UpdateTokens(now);
      return tokens >= bytes;
    }
  }
}
