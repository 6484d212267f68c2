/** UpdateWithSample and Update: the two operations callers use, each of which
    first advances the window to the instant it is given. */
module Sampling {
  import opened Ring
  import opened Buckets
  import opened Windows
  import opened Rotation
  import opened Expiry

  /** Advance to `now`, then fold x into the bucket of now's bucket number. If
      that slot already belongs to a later bucket number the sample is late
      and is dropped without a trace. */
  function UpdateWithSample(w: Window, now: nat, x: real): (r: Window)
    requires Valid(w)
    ensures Valid(r) && r.periodPerBucket == w.periodPerBucket && |r.buckets| == |w.buckets|
    ensures r.totalSum - w.totalSum == SumOf(r.buckets) - SumOf(w.buckets)
    ensures r.totalCount - w.totalCount == CountOf(r.buckets) - CountOf(w.buckets)
  {
    var (bucketNumber, w1) := Advance(w, now);
    var s := SlotOf(bucketNumber, |w1.buckets|);
    var bucket := w1.buckets[s];
    AdvanceExpires(w, now);
    SumOfUpdate(w1.buckets, s, bucket.(sum := bucket.sum + x, count := bucket.count + 1));
    CountOfUpdate(w1.buckets, s, bucket.(sum := bucket.sum + x, count := bucket.count + 1));
    if bucket.number != bucketNumber then
      w1
    else
      w1.(buckets := w1.buckets[s := bucket.(sum := bucket.sum + x, count := bucket.count + 1)],
          totalSum := w1.totalSum + x,
          totalCount := w1.totalCount + 1)
  }

  /** Advance the window to `now` without recording a sample. */
  function Update(w: Window, now: nat): (r: Window)
    requires Valid(w)
    ensures Valid(r) && r.periodPerBucket == w.periodPerBucket && |r.buckets| == |w.buckets|
    ensures Conserved(w) ==> Conserved(r)
  {
    AdvanceExpires(w, now);
    Advance(w, now).1
  }

  /** Both operations keep the totals equal to the sums over the buckets. */
  lemma UpdatesConserve(w: Window, now: nat, x: real)
    requires Valid(w) && Conserved(w)
    ensures Conserved(UpdateWithSample(w, now, x)) && Conserved(Update(w, now))
  {
  }

  /** A sample is dropped exactly when the slot of its bucket number holds a
      later bucket number; then the operation is a plain Update, and the
      sample leaves the totals and every bucket alone. */
  lemma LateSampleDropped(w: Window, now: nat, x: real)
    requires Valid(w)
    ensures var b0 := BucketNumber(w, now); var s := SlotOf(b0, |w.buckets|);
      (UpdateWithSample(w, now, x) == Update(w, now) <==> w.buckets[s].number > b0)
  {
    var b0 := BucketNumber(w, now);
    var s := SlotOf(b0, |w.buckets|);
    AdvanceTarget(w, now);
    var w1 := Advance(w, now).1;
    if w.buckets[s].number <= b0 {
      assert UpdateWithSample(w, now, x).totalCount == w1.totalCount + 1;
    }
  }

  /** An accepted sample raises the count of its bucket and the total count by
      one and the sum of its bucket and the total sum by x; no other bucket
      changes. The bucket it lands in is the one that was current for b0, or a
      fresh one when the slot was stale. */
  lemma SampleAccepted(w: Window, now: nat, x: real)
    requires Valid(w)
    requires w.buckets[SlotOf(BucketNumber(w, now), |w.buckets|)].number <= BucketNumber(w, now)
    ensures var b0 := BucketNumber(w, now); var s := SlotOf(b0, |w.buckets|);
      var w1 := Update(w, now); var r := UpdateWithSample(w, now, x);
      && r.totalCount == w1.totalCount + 1 && r.totalSum == w1.totalSum + x
      && r.buckets[s] == Bucket(b0, w1.buckets[s].sum + x, w1.buckets[s].count + 1)
      && (forall j :: 0 <= j < |w.buckets| && j != s ==> r.buckets[j] == w1.buckets[j])
      && (w.buckets[s].number == b0 ==> r.buckets[s] == Bucket(b0, w.buckets[s].sum + x, w.buckets[s].count + 1))
      && (w.buckets[s].number < b0 ==> r.buckets[s] == Bucket(b0, x, 1))
  {
    var b0 := BucketNumber(w, now);
    var s := SlotOf(b0, |w.buckets|);
    AdvanceTarget(w, now);
    AdvanceAt(w, now, s);
    assert Back(s, 0, |w.buckets|) == s;
  }

  /** Update is idempotent: advancing again to the same instant changes
      nothing. */
  lemma UpdateIdempotent(w: Window, now: nat)
    requires Valid(w)
    ensures Update(Update(w, now), now) == Update(w, now)
  {
    AdvanceIdempotent(w, now);
  }

  /** After a sample has been recorded (or dropped) at an instant, advancing to
      that same instant changes nothing. */
  lemma UpdateAfterSample(w: Window, now: nat, x: real)
    requires Valid(w)
    ensures Update(UpdateWithSample(w, now, x), now) == UpdateWithSample(w, now, x)
  {
    var b0 := BucketNumber(w, now);
    var s := SlotOf(b0, |w.buckets|);
    var r := UpdateWithSample(w, now, x);
    AdvanceTarget(w, now);
    assert r.buckets[s].number >= b0;
    WalkHalts(r, s, b0, 0);
  }
}
