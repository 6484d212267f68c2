/** The sliding time window: a fixed ring of buckets plus window-wide totals,
    its constructor and its read-only accessors. */
module Windows {
  import opened Buckets

  datatype Option<T> = None | Some(value: T)

  /** The state of a SlidingTimeWindow. `periodPerBucket` is the bucket width in
      nanoseconds; `totalSum` and `totalCount` are maintained incrementally. */
  datatype Window = Window(periodPerBucket: int, buckets: seq<Bucket>, totalSum: real, totalCount: int)

  /** A window the update operations can run on: a non-empty ring and a
      positive bucket width (a zero width makes the time-to-bucket division
      divide by zero). */
  predicate Valid(w: Window)
  {
    |w.buckets| > 0 && w.periodPerBucket > 0
  }

  /** The totals agree with the buckets. */
  predicate Conserved(w: Window)
  {
    w.totalSum == SumOf(w.buckets) && w.totalCount == CountOf(w.buckets)
  }

  /** Signed 64-bit style division, truncated toward zero: the quotient times
      the divisor lies on the dividend's side of zero, less than one divisor
      away from the dividend. */
  function Quo(a: int, b: int): (q: int)
    requires b > 0
    ensures a >= 0 ==> 0 <= q * b <= a < q * b + b
    ensures a < 0 ==> a <= q * b <= 0 && q * b - b < a
  {
    if a >= 0 then
      DivBounds(a, b);
      a / b
    else
      DivBounds(-a, b);
      NegatedProduct((-a) / b, b);
      -((-a) / b)
  }

  /** Euclidean division of a natural number. */
  lemma DivBounds(m: nat, b: int)
    requires b > 0
    ensures 0 <= (m / b) * b <= m < (m / b) * b + b
  {
    var q, r := m / b, m % b;
    assert m == q * b + r && 0 <= r < b;
    assert q * b >= 0 by { NonNegativeProduct(q, b); }
  }

  lemma NegatedProduct(x: int, y: int)
    ensures (-x) * y == -(x * y)
  {
  }

  lemma NonNegativeProduct(x: int, y: int)
    requires x >= 0 && y >= 0
    ensures x * y >= 0
  {
  }

  /** The constructor: the bucket width is the period divided by the number of
      buckets, rounded up, and every bucket starts empty with number 0. A
      non-positive number of buckets makes the source divide by zero or panic
      when allocating, so it is excluded. */
  function NewSlidingTimeWindow(period: int, numberOfBuckets: int): (w: Window)
    requires numberOfBuckets > 0
    ensures |w.buckets| == numberOfBuckets
    ensures forall j :: 0 <= j < |w.buckets| ==> w.buckets[j] == Bucket(0, 0.0, 0)
    ensures w.totalSum == 0.0 && w.totalCount == 0
    ensures Conserved(w)
    // the width is the ceiling of period / numberOfBuckets
    ensures period >= 0 ==> w.periodPerBucket * numberOfBuckets >= period
    ensures period >= 0 ==> (w.periodPerBucket - 1) * numberOfBuckets < period
    // so the window can be updated exactly when the period is positive
    ensures Valid(w) <==> period > 0
  {
    var n := numberOfBuckets;
    var ppb := Quo(period + (n - 1), n);
    var w := Window(ppb, seq(n, _ => Bucket(0, 0.0, 0)), 0.0, 0);
    EmptyRing(w.buckets);
    WidthBounds(period, n);
    w
  }

  /** The width computed by the constructor, for any period. */
  lemma WidthBounds(period: int, n: nat)
    requires n > 0
    ensures var c := Quo(period + (n - 1), n);
      && (period >= 0 ==> c * n >= period && (c - 1) * n < period)
      && (c > 0 <==> period > 0)
  {
    if period >= 0 {
      CeilingBounds(period, n);
    } else {
      NegativePeriodWidth(period, n);
    }
  }

  /** Rounding up by adding n - 1 before dividing. */
  lemma CeilingBounds(period: nat, n: nat)
    requires n > 0
    ensures var c := (period + (n - 1)) / n;
      c * n >= period && (c - 1) * n < period && (c > 0 <==> period > 0)
  {
    var a := period + (n - 1);
    var c, r := a / n, a % n;
    assert a == c * n + r && 0 <= r < n;
    assert c * n == a - r;
    assert (c - 1) * n == c * n - n;
  }

  /** A negative period truncates to a width that is not positive. */
  lemma NegativePeriodWidth(period: int, n: nat)
    requires n > 0 && period < 0
    ensures Quo(period + (n - 1), n) <= 0
  {
  }

  /** Sum of the samples in the window. */
  function Sum(w: Window): (s: real)
    ensures Conserved(w) ==> s == SumOf(w.buckets)
  {
    w.totalSum
  }

  /** Number of samples in the window. */
  function Count(w: Window): (c: int)
    ensures Conserved(w) ==> c == CountOf(w.buckets)
  {
    w.totalCount
  }

  /** Average of the samples in the window; the source yields NaN on an empty
      window, modelled as None. */
  function Average(w: Window): (a: Option<real>)
    ensures a.Some? <==> w.totalCount != 0
    ensures a.Some? ==> a.value * (w.totalCount as real) == w.totalSum
  {
    if w.totalCount == 0 then None else Some(w.totalSum / (w.totalCount as real))
  }
}
