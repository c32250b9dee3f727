/** Rate limiting by a token bucket, with time in nanoseconds and exact arithmetic. */
module TokenBucket {
  import opened Options

  const UNLIMITED: nat := 1_000_000_000
  const NANOS: nat := 1_000_000_000

  /** Whole tokens earned in `elapsed` nanoseconds at `rate` tokens per second. */
  function Earned(elapsed: nat, rate: nat): (tokens: nat)
    ensures tokens * NANOS <= elapsed * rate < (tokens + 1) * NANOS
  {
    elapsed * rate / NANOS
  }

  /** In a second the bucket earns its rate. */
  lemma OneSecond(rate: nat)
    ensures Earned(1_000_000_000, rate) == rate
  {
  }

  lemma Split(rate: nat, a: nat, b: nat, c: nat)
    requires a <= b <= c
    ensures (c - a) * rate == (b - a) * rate + (c - b) * rate
  {
  }

  lemma WithinRate(granted: nat, max: nat, computed: nat, started: nat, last: nat, now: nat, rate: nat)
    requires started <= last <= now && granted <= max + computed && computed * NANOS <= (last - started) * rate
    ensures granted * NANOS <= max * NANOS + (now - started) * rate
  {
    Split(rate, started, last, now);
  }

  // ----- Polling, as a value -----

  /** The level of a bucket, how long ago it was last refilled, and how much time has passed in all. */
  datatype Level = Level(size: nat, sinceRefill: nat, passed: nat)

  /** A poll, `gap` nanoseconds after the one before, that consumes nothing. */
  function Polled(level: Level, gap: nat, max: nat, rate: nat): Level {
    var since := level.sinceRefill + gap;
    var tokens := Earned(since, rate);
    if tokens == 0 then Level(level.size, since, level.passed + gap)
    else Level(if level.size + tokens < max then level.size + tokens else max, 0, level.passed + gap)
  }

  function PolledAll(level: Level, gaps: seq<nat>, max: nat, rate: nat): Level {
    if gaps == [] then level else Polled(PolledAll(level, gaps[..|gaps| - 1], max, rate), gaps[|gaps| - 1], max, rate)
  }

  function Total(gaps: seq<nat>): nat {
    if gaps == [] then 0 else Total(gaps[..|gaps| - 1]) + gaps[|gaps| - 1]
  }

  /** However often a bucket is polled, it gains at least half of what the rate nominally gives, until it is full,
      and less than one token is outstanding after a poll. */
  lemma {:induction false} PollingGainsHalf(size: nat, since: nat, gaps: seq<nat>, max: nat, rate: nat)
    requires size <= max
    ensures
      var end := PolledAll(Level(size, since, since), gaps, max, rate);
      && size <= end.size <= max
      && end.passed == since + Total(gaps)
      && end.sinceRefill <= end.passed
      && (end.size < max ==> 2 * (end.size - size) * NANOS >= (end.passed - end.sinceRefill) * rate)
      && (gaps != [] ==> end.sinceRefill * rate < NANOS)
  {
    if gaps != [] {
      var n := |gaps| - 1;
      PollingGainsHalf(size, since, gaps[..n], max, rate);
      var before := PolledAll(Level(size, since, since), gaps[..n], max, rate);
      PollGainsHalf(size, before, gaps[n], max, rate);
    }
  }

  lemma PollGainsHalf(size: nat, before: Level, gap: nat, max: nat, rate: nat)
    requires size <= before.size <= max && before.sinceRefill <= before.passed
    requires before.size < max ==> 2 * (before.size - size) * NANOS >= (before.passed - before.sinceRefill) * rate
    ensures
      var end := Polled(before, gap, max, rate);
      && size <= end.size <= max
      && end.sinceRefill <= end.passed
      && (end.size < max ==> 2 * (end.size - size) * NANOS >= (end.passed - end.sinceRefill) * rate)
      && end.sinceRefill * rate < NANOS
  {
    var since := before.sinceRefill + gap;
    Split(rate, 0, before.passed - before.sinceRefill, before.passed + gap);
  }

  /** A caller that needs `k` more tokens finds them, or a full bucket, once 2k-1 tokens' worth of time has passed. */
  lemma FastPollingCannotStarve(size: nat, since: nat, gaps: seq<nat>, max: nat, rate: nat, k: nat)
    requires size <= max && k > 0 && gaps != []
    requires (since + Total(gaps)) * rate >= (2 * k - 1) * NANOS
    ensures PolledAll(Level(size, since, since), gaps, max, rate).size >= if size + k < max then size + k else max
  {
    PollingGainsHalf(size, since, gaps, max, rate);
    var end := PolledAll(Level(size, since, since), gaps, max, rate);
    Split(rate, 0, end.passed - end.sinceRefill, end.passed);
  }

  /** Some gap, with the time before it that earned nothing, earns the sentinel amount. */
  predicate EarnsAllAtOnce(since: nat, gaps: seq<nat>, rate: nat)
    decreases |gaps|
  {
    gaps != [] &&
    (Earned(since + gaps[0], rate) >= UNLIMITED
     || EarnsAllAtOnce(if Earned(since + gaps[0], rate) > 0 then 0 else since + gaps[0], gaps[1..], rate))
  }

  predicate IsShort(gap: nat, rate: nat) {
    gap * rate <= (UNLIMITED - 1) * NANOS
  }

  /** So with every gap too short by a token it fails, for however long. */
  lemma {:induction false} ShortGapsStarve(since: nat, gaps: seq<nat>, rate: nat)
    requires since * rate < NANOS && forall g :: g in gaps ==> IsShort(g, rate)
    ensures !EarnsAllAtOnce(since, gaps, rate)
    decreases |gaps|
  {
    if gaps != [] {
      assert IsShort(gaps[0], rate);
      assert (since + gaps[0]) * rate == since * rate + gaps[0] * rate;
      ShortGapsStarve(if Earned(since + gaps[0], rate) > 0 then 0 else since + gaps[0], gaps[1..], rate);
    }
  }

  class TokenBucket {
    var lastRefill: Option<nat>
    var currentSize: nat
    var maxTokenCount: nat
    var smallestSize: nat
    var refillRate: nat
    ghost var started: nat   // when the clock of this bucket started after the last reset
    ghost var granted: nat   // tokens granted since the last reset
    ghost var computed: nat  // tokens computed by refills since the last reset, before the cap

    /** Every token granted or available was there at the reset or has been earned since,
        and refills have computed at least half of what the rate nominally gives. */
    ghost predicate Valid()
      reads this
    {
      && 0 < refillRate && 0 < maxTokenCount
      && currentSize <= maxTokenCount
      && smallestSize <= currentSize
      && match lastRefill
         case None => granted == 0 && currentSize == maxTokenCount && computed == 0
         case Some(last) =>
           && started <= last
           && granted + currentSize <= maxTokenCount + computed
           && computed * NANOS <= (last - started) * refillRate <= 2 * computed * NANOS
    }

    /** A rate or capacity of zero means unlimited. */
    constructor (maxTokens: nat, refillRate: nat)
      ensures Valid() && lastRefill == None
      ensures if maxTokens == 0 || refillRate == 0 then maxTokenCount == this.refillRate == UNLIMITED
              else maxTokenCount == maxTokens && this.refillRate == refillRate
    {
      lastRefill, maxTokenCount, this.refillRate, currentSize, smallestSize := None, maxTokens, refillRate, 0, 0;
      new;
      ResetWith(maxTokens, refillRate);
    }

    method ResetWith(max: nat, rate: nat)
      modifies this
      ensures Valid() && lastRefill == None && granted == 0 && currentSize == maxTokenCount
      ensures if max == 0 || rate == 0 then maxTokenCount == refillRate == UNLIMITED == 1_000_000_000
              else maxTokenCount == max && refillRate == rate
    {
      var limited := max != 0 && rate != 0;
      refillRate := if limited then rate else UNLIMITED;
      maxTokenCount := if limited then max else UNLIMITED;
      smallestSize, currentSize, lastRefill := maxTokenCount, maxTokenCount, None;
      started, granted, computed := 0, 0, 0;
    }

    /** How many tokens a call at `now` finds. */
    function Available(now: nat): nat
      requires lastRefill.Some? ==> lastRefill.value <= now
      reads this
    {
      if lastRefill.None? then currentSize else
        var size := currentSize + Earned(now - lastRefill.value, refillRate);
        if size < maxTokenCount then size else maxTokenCount
    }

    /** The first call only starts the clock. Later calls add whole tokens; if there are none yet, the clock keeps running. */
    method Refill(now: nat)
      requires Valid() && (lastRefill.Some? ==> lastRefill.value <= now)
      modifies this`lastRefill, this`currentSize, this`started, this`computed
      ensures Valid() && lastRefill.Some? && lastRefill.value <= now
      ensures currentSize == old(Available(now))
      ensures old(lastRefill).None? ==> lastRefill.value == started == now
      ensures old(lastRefill).Some? ==>
                var tokens := Earned(now - old(lastRefill).value, refillRate);
                && started == old(started)
                && lastRefill.value == (if tokens > 0 then now else old(lastRefill).value)
                && (tokens > 0 ==> 2 * tokens * NANOS > (now - old(lastRefill).value) * refillRate)
    {
      match lastRefill {
        case None =>
          lastRefill, started := Some(now), now;
        case Some(last) =>
          var tokens := Earned(now - last, refillRate);
          if tokens > 0 {
            Split(refillRate, started, last, now);
            currentSize := if currentSize + tokens < maxTokenCount then currentSize + tokens else maxTokenCount;
            lastRefill := Some(now);
            computed := computed + tokens;
          }
      }
    }

    /** A limited bucket never grants more than its capacity plus what the rate allows for the elapsed time. */
    method TryConsume(tokens: nat, now: nat) returns (ok: bool)
      requires Valid() && tokens <= UNLIMITED && (lastRefill.Some? ==> lastRefill.value <= now)
      modifies this
      ensures Valid() && lastRefill.Some? && started <= lastRefill.value <= now
      ensures maxTokenCount == old(maxTokenCount) && refillRate == old(refillRate)
      ensures old(lastRefill).Some? ==> started == old(started)
      ensures lastRefill.value ==
              if old(lastRefill).None? || Earned(now - old(lastRefill).value, refillRate) > 0 then now else old(lastRefill).value
      ensures ok == (old(Available(now)) >= tokens || refillRate == UNLIMITED)
      ensures currentSize == if old(Available(now)) >= tokens then old(Available(now)) - tokens
                             else if tokens == UNLIMITED then 0 else old(Available(now))
      ensures smallestSize == if old(smallestSize) < currentSize then old(smallestSize) else currentSize
      ensures refillRate != UNLIMITED ==> granted == old(granted) + if ok then tokens else 0
      ensures refillRate != UNLIMITED ==> granted * NANOS <= maxTokenCount * NANOS + (now - started) * refillRate
    {
      hide Earned;
      Refill(now);
      var possible := currentSize >= tokens;
      if possible {
        currentSize := currentSize - tokens;
        granted := granted + tokens;
      } else if tokens == UNLIMITED {
        currentSize := 0;
      }
      smallestSize := if smallestSize < currentSize then smallestSize else currentSize;
      ok := possible || refillRate == UNLIMITED;
      WithinRate(granted, maxTokenCount, computed, started, lastRefill.value, now, refillRate);
    }

    /** The level at a time, with the time passed counted from `origin`. */
    ghost function LevelAt(now: nat, origin: nat): Level
      requires lastRefill.Some? && origin <= lastRefill.value <= now
      reads this
    {
      Level(currentSize, now - lastRefill.value, now - origin)
    }

    /** One attempt that may fail. A failed attempt is a poll. */
    method Attempt(k: nat, before: nat, now: nat, ghost origin: nat) returns (ok: bool)
      requires Valid() && k < UNLIMITED && lastRefill.Some? && origin <= lastRefill.value <= before <= now
      modifies this
      ensures Valid() && lastRefill.Some? && origin <= lastRefill.value <= now
      ensures maxTokenCount == old(maxTokenCount) && refillRate == old(refillRate)
      ensures ok <==> Polled(old(LevelAt(before, origin)), now - before, maxTokenCount, refillRate).size >= k || refillRate == UNLIMITED
      ensures !ok ==> LevelAt(now, origin) == Polled(old(LevelAt(before, origin)), now - before, maxTokenCount, refillRate)
    {
      ok := TryConsume(k, now);
    }

    /** Trying again and again, at whatever intervals: a request that the bucket can hold is granted at the latest when twice
        the nominal time for the missing tokens has passed since the last refill. */
    method KeepTrying(k: nat, start: nat, gaps: seq<nat>) returns (ok: bool)
      requires Valid() && k <= maxTokenCount && k < UNLIMITED && (lastRefill.Some? ==> lastRefill.value <= start) && gaps != []
      modifies this
      ensures Valid()
      ensures old(lastRefill).None? ==> ok
      ensures old(lastRefill).Some? ==>
        (start - old(lastRefill).value + Total(gaps)) * refillRate >= (2 * (k - old(currentSize)) - 1) * NANOS ==> ok
    {
      if lastRefill.None? {
        ok := TryConsume(k, start + gaps[0]);
        return;
      }
      ghost var origin, first := lastRefill.value, LevelAt(start, lastRefill.value);
      ghost var max, rate := maxTokenCount, refillRate;
      var now := start;
      for i := 0 to |gaps|
        invariant Valid() && maxTokenCount == max && refillRate == rate
        invariant lastRefill.Some? && origin <= lastRefill.value <= now
        invariant LevelAt(now, origin) == PolledAll(first, gaps[..i], max, rate)
        invariant i > 0 ==> currentSize < k
      {
        assert gaps[..i + 1][..i] == gaps[..i];
        PollingGainsHalf(first.size, first.sinceRefill, gaps[..i], max, rate);
        ok := Attempt(k, now, now + gaps[i], origin);
        if ok {
          return;
        }
        now := now + gaps[i];
      }
      assert gaps[..|gaps|] == gaps;
      if k > first.size && (first.sinceRefill + Total(gaps)) * rate >= (2 * (k - first.size) - 1) * NANOS {
        FastPollingCannotStarve(first.size, first.sinceRefill, gaps, max, rate, k - first.size);
      } else if k <= first.size {
        PollingGainsHalf(first.size, first.sinceRefill, gaps, max, rate);
      }
      ok := false;
    }

    /** The exception: a failed request for the sentinel amount empties the bucket. Asking for it again and again succeeds
        exactly if all of it is earned between one attempt and the next. */
    method KeepTryingForAll(start: nat, gaps: seq<nat>) returns (ok: bool)
      requires Valid() && refillRate != UNLIMITED && maxTokenCount >= UNLIMITED
      requires currentSize == 0 && lastRefill.Some? && lastRefill.value <= start
      modifies this
      ensures Valid() && currentSize <= maxTokenCount - if ok then UNLIMITED else 0
      ensures ok <==> EarnsAllAtOnce(start - old(lastRefill).value, gaps, refillRate)
    {
      ghost var since, rate := start - lastRefill.value, refillRate;
      var now := start;
      for i := 0 to |gaps|
        invariant Valid() && refillRate == rate && currentSize == 0 && maxTokenCount == old(maxTokenCount)
        invariant lastRefill.Some? && lastRefill.value <= now
        invariant EarnsAllAtOnce(since, gaps, rate) <==> EarnsAllAtOnce(now - lastRefill.value, gaps[i..], rate)
      {
        assert gaps[i..][0] == gaps[i] && gaps[i..][1..] == gaps[i + 1..];
        ok := TryConsume(UNLIMITED, now + gaps[i]);
        if ok {
          return;
        }
        now := now + gaps[i];
      }
      ok := false;
    }
  }
}
