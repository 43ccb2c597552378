/** One token bucket of the rate limiter, in exact integers.

  A level is counted in nanoseconds: one token is worth `interval` of them, a
  full bucket holds `burst * interval`, and time that passes is added to the
  level until the bucket is full. An interval of 0 is the unlimited rate that
  `rate.Every` gives for a duration that is not positive.
 */
module TokenBucket {
  import opened Arithmetic

  // Nanoseconds on the one clock that the application and the database share.
  type Time = int

  const MINUTE: Time := 60_000_000_000
  const HOUR: Time := 60 * MINUTE
  const DAY: Time := 24 * HOUR

  datatype Limit = Limit(count: int, per: int)

  // Count must be positive; Per may be anything.
  type Policy = l: Limit | l.count > 0 witness Limit(1, 0)

  /** The time one token takes to come back: Per divided by Count, truncated. */
  function Interval(p: Policy): nat {
    if p.per < p.count then 0 else p.per / p.count
  }

  datatype Bucket = Bucket(burst: nat, interval: nat, capacity: nat, level: int, last: Time) {
    ghost predicate Valid() {
      0 <= level <= capacity && interval <= capacity
    }

    ghost predicate Follows(p: Policy) {
      burst == p.count && interval == Interval(p) && capacity == Capacity(p)
    }

    /** The level at time t, refilled since the last admission. */
    function LevelAt(t: Time): int {
      var refilled := level + if t < last then 0 else t - last;
      if refilled > capacity then capacity else refilled
    }

    predicate FullAt(t: Time) {
      LevelAt(t) == capacity
    }
  }

  /** What a full bucket holds: Count tokens. */
  function Capacity(p: Policy): nat {
    Times(p.count, Interval(p))
  }

  function Full(p: Policy): Bucket {
    Bucket(p.count, Interval(p), Capacity(p), Capacity(p), 0)
  }

  /** One call of AllowN(t, 1). A refused call leaves the bucket as it was. */
  function Take(b: Bucket, t: Time): (r: (bool, Bucket))
  {
    if b.LevelAt(t) >= b.interval
    then (true, b.(level := b.LevelAt(t) - b.interval, last := t))
    else (false, b)
  }

  /** A bucket never owes a token and never holds more than its burst; it keeps its policy. */
  lemma TakeKeepsValid(b: Bucket, t: Time)
    requires b.Valid()
    ensures Take(b, t).1.Valid()
    ensures Take(b, t).1.burst == b.burst && Take(b, t).1.interval == b.interval
    ensures Take(b, t).0 ==> Take(b, t).1.last == t
    ensures !Take(b, t).0 ==> b.interval > 0
  {
  }

  lemma IntervalFits(p: Policy)
    ensures Interval(p) <= Capacity(p) <= if p.per < 0 then 0 else p.per
  {
    TimesIsProduct(p.count, Interval(p));
    TimesMonotone(1, p.count, Interval(p));
    if p.per >= p.count {
      DivTimes(p.per, p.count);
    }
  }

  /** One token takes the Count-th part of Per, to the nanosecond below it, and none if Per is not positive. */
  lemma IntervalIsExact(p: Policy)
    ensures p.per >= 0 ==> Times(p.count, Interval(p)) <= p.per < Times(p.count, Interval(p) + 1)
    ensures p.per < 0 ==> Interval(p) == 0
  {
    IntervalFits(p);
    TimesIsProduct(p.count, Interval(p));
    TimesIsProduct(p.count, Interval(p) + 1);
  }

  /** A new bucket is full at every time, holds at most Per, and always grants the first call. */
  lemma FullBucket(p: Policy, t: Time)
    ensures Full(p).Valid() && Full(p).Follows(p) && Full(p).FullAt(t)
    ensures Full(p).capacity <= if p.per < 0 then 0 else p.per
    ensures Take(Full(p), t) == (true, Full(p).(level := Full(p).capacity - Interval(p), last := t))
  {
    IntervalFits(p);
  }

  /** Once full, a bucket that is left alone stays full; every bucket is full after a capacity of idling. */
  lemma RefillIsMonotone(b: Bucket, t: Time, t': Time)
    requires b.Valid() && t <= t'
    ensures b.LevelAt(t) <= b.LevelAt(t')
    ensures b.FullAt(t) ==> b.FullAt(t')
    ensures t' >= b.last + b.capacity ==> b.FullAt(t')
  {
  }
}
