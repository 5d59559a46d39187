/** Durations in nanoseconds, the resolution of the clocks the system reads. */
module Durations {
  const MICROSECOND: int := 1_000
  const SECOND: int := 1_000_000_000
  const MINUTE: int := 60 * SECOND
  const HOUR: int := 60 * MINUTE
  const DAY: int := 24 * HOUR

  function Min(a: int, b: int): int { if a <= b then a else b }
  function Max(a: int, b: int): int { if a <= b then b else a }
}

/** An optional value, for absent fields and SQL NULLs. */
module Options {
  datatype Option<+T> = None | Some(value: T)
}

/** The six-hour aggregation buckets, aligned to the epoch. */
module RollupBuckets {
  import opened Durations

  const BUCKET := 6 * HOUR

  /** Align a nonnegative time to the start of its bucket. */
  function BucketStart(t: int): int { t - t % BUCKET }
}

/** Facts about integer division by a positive divisor, which rounds down. */
module Arithmetic {
  lemma Quotient(a: int, d: int)
    requires d > 0
    ensures (a / d) * d <= a < (a / d) * d + d
    ensures a == (a / d) * d + a % d && 0 <= a % d < d
    ensures 0 <= a ==> 0 <= a / d
  {
  }

  lemma MultiplyMonotone(a: int, b: int, d: int)
    requires a <= b && d > 0
    ensures a * d <= b * d
  {
  }

  lemma Multiple(k: int, d: int)
    requires d > 0
    ensures k * d % d == 0
  {
    QuotientUnique(k * d, d, k);
    Quotient(k * d, d);
  }

  /** The quotient is the only multiple that fits. */
  lemma QuotientUnique(a: int, d: int, k: int)
    requires d > 0 && k * d <= a < k * d + d
    ensures a / d == k
  {
    Quotient(a, d);
    if k < a / d {
      MultiplyMonotone(k + 1, a / d, d);
    } else if a / d < k {
      MultiplyMonotone(a / d + 1, k, d);
    }
  }

  lemma QuotientMonotone(a: int, b: int, d: int)
    requires a <= b && d > 0
    ensures a / d <= b / d
  {
    Quotient(a, d);
    Quotient(b, d);
    if b / d < a / d {
      MultiplyMonotone(b / d + 1, a / d, d);
    }
  }

  lemma QuotientBound(k: int, a: int, d: int)
    requires d > 0 && k * d <= a
    ensures k <= a / d
  {
    Quotient(a, d);
    if a / d < k {
      MultiplyMonotone(a / d + 1, k, d);
    }
  }
}
