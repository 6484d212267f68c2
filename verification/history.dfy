/** Any sequence of Update and UpdateWithSample calls on a freshly constructed
    window. */
module History {
  import opened Buckets
  import opened Windows
  import opened Rotation
  import opened Expiry
  import opened Sampling
  import opened Position

  /** One call a client makes on the window, with the instant it passes. */
  datatype Op = UpdateOp(now: nat) | SampleOp(now: nat, x: real)

  /** The instant an operation passes. */
  function Instant(op: Op): (now: nat)
  {
    match op
    case UpdateOp(now) => now
    case SampleOp(now, _) => now
  }

  /** Applies one operation. */
  function Apply(w: Window, op: Op): (r: Window)
    requires Valid(w)
    ensures Valid(r) && |r.buckets| == |w.buckets| && r.periodPerBucket == w.periodPerBucket
  {
    match op
    case UpdateOp(now) => Update(w, now)
    case SampleOp(now, x) => UpdateWithSample(w, now, x)
  }

  /** Applies the operations in order, tracking the newest bucket number seen.
      The invariant holds throughout, the position never moves back, and no
      bucket number ever decreases. */
  function Replay(w: Window, p: nat, ops: seq<Op>): (r: (Window, nat))
    requires Inv(w, p)
    ensures Inv(r.0, r.1) && r.1 >= p
    ensures |r.0.buckets| == |w.buckets| && r.0.periodPerBucket == w.periodPerBucket
    ensures forall j :: 0 <= j < |w.buckets| ==> r.0.buckets[j].number >= w.buckets[j].number
    decreases |ops|
  {
    if |ops| == 0 then (w, p)
    else
      var now := Instant(ops[0]);
      var b0 := BucketNumber(w, now);
      var w' := Apply(w, ops[0]);
      UpdatesKeepInv(w, p, now, if ops[0].SampleOp? then ops[0].x else 0.0);
      AdvanceMonotone(w, now);
      SampleKeepsNumbers(w, now, if ops[0].SampleOp? then ops[0].x else 0.0);
      Replay(w', if b0 <= p then p else b0, ops[1..])
  }

  /** Whatever the calls, a window built by the constructor keeps its totals
      equal to the sums over its buckets, and its count is never negative. */
  lemma ConservedAlways(period: int, numberOfBuckets: int, ops: seq<Op>)
    requires numberOfBuckets > 0 && period > 0
    ensures var w := Replay(NewSlidingTimeWindow(period, numberOfBuckets), 0, ops).0;
      && Sum(w) == SumOf(w.buckets)
      && Count(w) == CountOf(w.buckets)
      && Count(w) >= 0
  {
    NewWindowInv(period, numberOfBuckets);
    var w := Replay(NewSlidingTimeWindow(period, numberOfBuckets), 0, ops).0;
    CountOfNonNegative(w.buckets);
  }
}
