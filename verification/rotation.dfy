/** doUpdate: advancing the window to an instant by walking the ring backwards
    from the instant's slot, expiring every stale bucket until the first one
    that is already current. */
module Rotation {
  import opened Ring
  import opened Buckets
  import opened Windows

  /** The absolute bucket number of an instant (nanoseconds, not negative). */
  function BucketNumber(w: Window, now: nat): (b0: nat)
    requires Valid(w)
    ensures b0 <= now
  {
    QuotientAtMost(now, w.periodPerBucket);
    now / w.periodPerBucket
  }

  /** Dividing by a positive width never gives more than the dividend. */
  lemma QuotientAtMost(m: nat, b: int)
    requires b > 0
    ensures m / b <= m
  {
    var q := m / b;
    DivBounds(m, b);
    assert q * b == q + q * (b - 1);
    NonNegativeProduct(q, b - 1);
  }

  /** The instant lies inside the time span of its bucket number, and a later
      instant never maps to an earlier bucket number. */
  lemma BucketNumberBounds(w: Window, now: nat, later: nat)
    requires Valid(w) && now <= later
    ensures var b0 := BucketNumber(w, now);
      b0 * w.periodPerBucket <= now < (b0 + 1) * w.periodPerBucket
    ensures BucketNumber(w, now) <= BucketNumber(w, later)
  {
    var p := w.periodPerBucket;
    var b0, b1 := now / p, later / p;
    assert now == b0 * p + now % p;
    assert later == b1 * p + later % p;
    if b1 < b0 {
      MulAtLeast(b0 - b1, p);
    }
  }

  /** Expiring the bucket at slot s: it is re-tagged with number e and
      emptied, nothing else in the ring changes, and the totals move exactly
      as the sums over the buckets do. */
  function Expire(w: Window, s: nat, e: int): (r: Window)
    requires s < |w.buckets|
    ensures r.periodPerBucket == w.periodPerBucket
    ensures r.buckets == w.buckets[s := Fresh(e)]
    ensures r.totalSum - w.totalSum == SumOf(r.buckets) - SumOf(w.buckets)
    ensures r.totalCount - w.totalCount == CountOf(r.buckets) - CountOf(w.buckets)
  {
    var bucket := w.buckets[s];
    SumOfUpdate(w.buckets, s, Fresh(e));
    CountOfUpdate(w.buckets, s, Fresh(e));
    Window(w.periodPerBucket, w.buckets[s := bucket.(number := e, sum := 0.0, count := 0)],
           w.totalSum - bucket.sum, w.totalCount - bucket.count)
  }

  /** Step k of the walk from slot i0 expects number b0 - k and finds an older
      bucket there. */
  predicate StaleAt(bs: seq<Bucket>, i0: nat, b0: int, k: nat)
    requires i0 < |bs| && k < |bs|
  {
    bs[Back(i0, k, |bs|)].number < b0 - k
  }

  /** The first step, from step k on, at which the walk meets a bucket that is
      not stale; |bs| when every remaining step is stale. */
  function StopAt(bs: seq<Bucket>, i0: nat, b0: int, k: nat): (stop: nat)
    requires i0 < |bs| && k <= |bs|
    ensures k <= stop <= |bs|
    ensures stop < |bs| ==> !StaleAt(bs, i0, b0, stop)
    ensures forall d :: k <= d < stop ==> StaleAt(bs, i0, b0, d)
    decreases |bs| - k
  {
    if k == |bs| || !StaleAt(bs, i0, b0, k) then k else StopAt(bs, i0, b0, k + 1)
  }

  /** The walk as doUpdate performs it, one step per call: step k visits slot
      Back(i0, k) and either stops there or expires it and goes on. */
  function Walk(w: Window, i0: nat, b0: int, k: nat): (r: Window)
    requires i0 < |w.buckets| && k <= |w.buckets|
    ensures |r.buckets| == |w.buckets| && r.periodPerBucket == w.periodPerBucket
    decreases |w.buckets| - k
  {
    if k == |w.buckets| then w
    else
      var s := Back(i0, k, |w.buckets|);
      if w.buckets[s].number >= b0 - k then w
      else
        var stale := w.buckets[s];
        Walk(w.(buckets := w.buckets[s := Fresh(b0 - k)],
                totalSum := w.totalSum - stale.sum,
                totalCount := w.totalCount - stale.count), i0, b0, k + 1)
  }

  /** Every step of the walk moves the totals exactly as it moves the bucket
      sums and counts. */
  lemma {:induction false} WalkConserves(w: Window, i0: nat, b0: int, k: nat)
    requires i0 < |w.buckets| && k <= |w.buckets|
    ensures var r := Walk(w, i0, b0, k);
      && r.totalSum - w.totalSum == SumOf(r.buckets) - SumOf(w.buckets)
      && r.totalCount - w.totalCount == CountOf(r.buckets) - CountOf(w.buckets)
    decreases |w.buckets| - k
  {
    if k < |w.buckets| && w.buckets[Back(i0, k, |w.buckets|)].number < b0 - k {
      WalkConserves(Expire(w, Back(i0, k, |w.buckets|), b0 - k), i0, b0, k + 1);
    }
  }

  /** The declarative outcome of the walk: the slots reached in steps k up to
      (not including) stop hold fresh buckets with the expected numbers, and
      every other slot is as it was. */
  function Expired(bs: seq<Bucket>, i0: nat, b0: int, k: nat, stop: nat): (r: seq<Bucket>)
    requires i0 < |bs|
    ensures |r| == |bs|
  {
    seq(|bs|, j requires 0 <= j < |bs| =>
      var d := Back(i0, j, |bs|);
      if k <= d < stop then Fresh(b0 - d) else bs[j])
  }

  /** The stop point depends only on the slots the walk has not visited yet. */
  lemma {:induction false} StopAtFrame(bs: seq<Bucket>, bs': seq<Bucket>, i0: nat, b0: int, k: nat)
    requires i0 < |bs| && k <= |bs| && |bs'| == |bs|
    requires forall d :: k <= d < |bs| ==> bs[Back(i0, d, |bs|)] == bs'[Back(i0, d, |bs|)]
    ensures StopAt(bs, i0, b0, k) == StopAt(bs', i0, b0, k)
    decreases |bs| - k
  {
    if k < |bs| && StaleAt(bs, i0, b0, k) {
      StopAtFrame(bs, bs', i0, b0, k + 1);
    }
  }

  /** A stale step expires its slot the way the loops of doUpdate do it: the
      bucket is re-tagged with the expected number, its sum and count leave
      the totals and are zeroed, and the walk moves on to the next step. */
  lemma WalkStale(w: Window, i0: nat, b0: int, k: nat)
    requires i0 < |w.buckets| && k < |w.buckets| && StaleAt(w.buckets, i0, b0, k)
    ensures var i := Back(i0, k, |w.buckets|);
      Walk(w, i0, b0, k) ==
      Walk(w.(buckets := w.buckets[i := w.buckets[i].(number := b0 - k, sum := 0.0, count := 0)],
              totalSum := w.totalSum - w.buckets[i].sum,
              totalCount := w.totalCount - w.buckets[i].count), i0, b0, k + 1)
  {
  }

  /** The walk ends, with nothing changed, after the last step or at a bucket
      that already carries the expected number or a later one. */
  lemma WalkHalts(w: Window, i0: nat, b0: int, k: nat)
    requires i0 < |w.buckets| && k <= |w.buckets|
    requires k == |w.buckets| || !StaleAt(w.buckets, i0, b0, k)
    ensures Walk(w, i0, b0, k) == w
  {
  }

  /** An empty range of steps leaves the ring as it is. */
  lemma ExpiredNone(bs: seq<Bucket>, i0: nat, b0: int, k: nat)
    requires i0 < |bs|
    ensures Expired(bs, i0, b0, k, k) == bs
  {
  }

  /** Expiring the slot of step k first and then the steps after it is the same
      as expiring the steps from k on. */
  lemma ExpiredStep(bs: seq<Bucket>, i0: nat, b0: int, k: nat, stop: nat)
    requires i0 < |bs| && k < stop
    requires k < |bs|
    ensures Expired(bs[Back(i0, k, |bs|) := Fresh(b0 - k)], i0, b0, k + 1, stop) == Expired(bs, i0, b0, k, stop)
  {
    var n := |bs|;
    var s := Back(i0, k, n);
    var e1 := Expired(bs[s := Fresh(b0 - k)], i0, b0, k + 1, stop);
    var e := Expired(bs, i0, b0, k, stop);
    forall j | 0 <= j < n
      ensures e1[j] == e[j]
    {
      var d := Back(i0, j, n);
      BackInvolution(i0, j, n);
      BackInjective(i0, k, d, n);
    }
  }

  /** The step-by-step walk produces the declarative outcome. */
  lemma {:induction false} WalkIsExpired(w: Window, i0: nat, b0: int, k: nat)
    requires i0 < |w.buckets| && k <= |w.buckets|
    ensures Walk(w, i0, b0, k).buckets == Expired(w.buckets, i0, b0, k, StopAt(w.buckets, i0, b0, k))
    decreases |w.buckets| - k
  {
    var n := |w.buckets|;
    if k == n || !StaleAt(w.buckets, i0, b0, k) {
      WalkHalts(w, i0, b0, k);
      ExpiredNone(w.buckets, i0, b0, k);
    } else {
      var w1 := Expire(w, Back(i0, k, n), b0 - k);
      var stop := StopAt(w.buckets, i0, b0, k);
      WalkStale(w, i0, b0, k);
      StopAtAfterExpire(w.buckets, i0, b0, k);
      WalkIsExpired(w1, i0, b0, k + 1);
      ExpiredStep(w.buckets, i0, b0, k, stop);
    }
  }

  /** Expiring the slot of a stale step k leaves the stop point of the rest of
      the walk where the walk from k had it. */
  lemma StopAtAfterExpire(bs: seq<Bucket>, i0: nat, b0: int, k: nat)
    requires i0 < |bs| && k < |bs| && StaleAt(bs, i0, b0, k)
    ensures var bs' := bs[Back(i0, k, |bs|) := Fresh(b0 - k)];
      StopAt(bs', i0, b0, k + 1) == StopAt(bs, i0, b0, k) > k
  {
    var n := |bs|;
    var bs' := bs[Back(i0, k, n) := Fresh(b0 - k)];
    forall d | k + 1 <= d < n
      ensures bs[Back(i0, d, n)] == bs'[Back(i0, d, n)]
    {
      BackInjective(i0, k, d, n);
    }
    StopAtFrame(bs, bs', i0, b0, k + 1);
  }

  /** doUpdate as a function: the bucket number of `now` and the window after
      the walk from that number's slot. */
  function Advance(w: Window, now: nat): (r: (int, Window))
    requires Valid(w)
    ensures r.0 == BucketNumber(w, now)
    ensures |r.1.buckets| == |w.buckets| && r.1.periodPerBucket == w.periodPerBucket
  {
    var b0 := BucketNumber(w, now);
    (b0, Walk(w, SlotOf(b0, |w.buckets|), b0, 0))
  }

  /** What advancing does: the buckets the walk visits before the first
      current one are expired with the numbers the walk expects there, every
      other bucket is untouched, and the totals move exactly as the bucket sums
      and counts do. */
  lemma AdvanceExpires(w: Window, now: nat)
    requires Valid(w)
    ensures var (b0, r) := Advance(w, now); var i0 := SlotOf(b0, |w.buckets|);
      && r.buckets == Expired(w.buckets, i0, b0, 0, StopAt(w.buckets, i0, b0, 0))
      && r.totalSum - w.totalSum == SumOf(r.buckets) - SumOf(w.buckets)
      && r.totalCount - w.totalCount == CountOf(r.buckets) - CountOf(w.buckets)
  {
    var b0 := BucketNumber(w, now);
    var i0 := SlotOf(b0, |w.buckets|);
    WalkIsExpired(w, i0, b0, 0);
    WalkConserves(w, i0, b0, 0);
  }

  /** One iteration of either loop of doUpdate: visit slot i, the slot of
      step k, and report whether it is already current; otherwise expire it
      with the number the walk expects there. */
  method Visit(stw: Window, i0: nat, bucketNumber0: int, ghost k: nat, i: nat, bucketNumber: int)
    returns (current: bool, stw': Window)
    requires i0 < |stw.buckets| && k < |stw.buckets| && i == Back(i0, k, |stw.buckets|)
    requires bucketNumber == bucketNumber0 - k
    ensures |stw'.buckets| == |stw.buckets| && stw'.periodPerBucket == stw.periodPerBucket
    ensures current <==> stw.buckets[i].number >= bucketNumber
    ensures current ==> stw' == stw && Walk(stw, i0, bucketNumber0, k) == stw
    ensures !current ==> stw' == stw.(buckets := stw.buckets[i := Fresh(bucketNumber)],
                                      totalSum := stw.totalSum - stw.buckets[i].sum,
                                      totalCount := stw.totalCount - stw.buckets[i].count)
    ensures !current ==> Walk(stw, i0, bucketNumber0, k) == Walk(stw', i0, bucketNumber0, k + 1)
  {
    var bucket := stw.buckets[i];
    if bucket.number >= bucketNumber {
      WalkHalts(stw, i0, bucketNumber0, k);
      return true, stw;
    }
    WalkStale(stw, i0, bucketNumber0, k);
    stw' := stw.(buckets := stw.buckets[i := bucket.(number := bucketNumber, sum := 0.0, count := 0)],
                 totalSum := stw.totalSum - bucket.sum,
                 totalCount := stw.totalCount - bucket.count);
    current := false;
  }

  /** doUpdate as the source writes it: one loop from slot i0 down to 0, a
      second from the last slot down to i0 + 1, returning at the first bucket
      that is already current. */
  method DoUpdate(w: Window, now: nat) returns (w': Window, bucketNumber0: int)
    requires Valid(w)
    ensures (bucketNumber0, w') == Advance(w, now)
  {
    var n := |w.buckets|;
    bucketNumber0 := now / w.periodPerBucket;
    var i0 := SlotOf(bucketNumber0, n);
    var stw := w;
    var bucketNumber := bucketNumber0;
    ghost var goal := Walk(w, i0, bucketNumber0, 0);
    ghost var k: nat := 0;  // steps taken so far
    var i := i0;
    while i >= 0
      invariant -1 <= i <= i0 && |stw.buckets| == n && stw.periodPerBucket == w.periodPerBucket
      invariant k == i0 - i && bucketNumber == bucketNumber0 - k
      invariant Walk(stw, i0, bucketNumber0, k) == goal
    {
      var current, next := Visit(stw, i0, bucketNumber0, k, i, bucketNumber);
      if current {
        w' := stw;
        return;
      }
      stw := next;
      bucketNumber := bucketNumber - 1;
      k := k + 1;
      i := i - 1;
    }
    i := n - 1;
    while i > i0
      invariant i0 <= i <= n - 1 && |stw.buckets| == n && stw.periodPerBucket == w.periodPerBucket
      invariant k == i0 + n - i && bucketNumber == bucketNumber0 - k
      invariant Walk(stw, i0, bucketNumber0, k) == goal
    {
      var current, next := Visit(stw, i0, bucketNumber0, k, i, bucketNumber);
      if current {
        w' := stw;
        return;
      }
      stw := next;
      bucketNumber := bucketNumber - 1;
      k := k + 1;
      i := i - 1;
    }
    WalkHalts(stw, i0, bucketNumber0, n);
    w' := stw;
  }
}
