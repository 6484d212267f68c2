/** What one advance of the window guarantees, stated about the window before
    and after it. */
module Expiry {
  import opened Ring
  import opened Buckets
  import opened Windows
  import opened Rotation

  /** Pointwise reading of the walk's outcome: slot j is d = Back(i0, j) steps
      behind the instant's slot; it is expired iff d is before the stop point,
      and then it carries b0 - d. */
  lemma AdvanceAt(w: Window, now: nat, j: nat)
    requires Valid(w) && j < |w.buckets|
    ensures var (b0, r) := Advance(w, now);
      var n := |w.buckets|; var i0 := SlotOf(b0, n); var d := Back(i0, j, n);
      && Back(i0, d, n) == j
      && (d < StopAt(w.buckets, i0, b0, 0) ==>
            StaleAt(w.buckets, i0, b0, d) && w.buckets[j].number < b0 - d && r.buckets[j] == Fresh(b0 - d))
      && (d >= StopAt(w.buckets, i0, b0, 0) ==> r.buckets[j] == w.buckets[j])
  {
    var b0 := BucketNumber(w, now);
    var n := |w.buckets|;
    var i0 := SlotOf(b0, n);
    AdvanceExpires(w, now);
    BackInvolution(i0, j, n);
  }

  /** Advancing keeps the totals equal to the sums over the buckets. */
  lemma AdvanceConserves(w: Window, now: nat)
    requires Valid(w) && Conserved(w)
    ensures Valid(Advance(w, now).1) && Conserved(Advance(w, now).1)
  {
    AdvanceExpires(w, now);
  }

  /** Bucket numbers never decrease, and a bucket whose number stays the same
      is not touched at all. */
  lemma AdvanceMonotone(w: Window, now: nat)
    requires Valid(w)
    ensures var r := Advance(w, now).1;
      forall j :: 0 <= j < |w.buckets| ==>
        && r.buckets[j].number >= w.buckets[j].number
        && (r.buckets[j].number == w.buckets[j].number ==> r.buckets[j] == w.buckets[j])
  {
    forall j | 0 <= j < |w.buckets| {
      AdvanceAt(w, now, j);
    }
  }

  /** A bucket the walk rewrites is emptied and re-tagged with a larger number
      that belongs to its own slot. */
  lemma AdvanceRetagsOwnSlot(w: Window, now: nat)
    requires Valid(w)
    ensures var r := Advance(w, now).1; var n := |w.buckets|;
      forall j :: 0 <= j < n && r.buckets[j] != w.buckets[j] ==>
        && r.buckets[j].number > w.buckets[j].number
        && r.buckets[j].number % n == j
        && r.buckets[j].sum == 0.0 && r.buckets[j].count == 0
  {
    var b0 := BucketNumber(w, now);
    var n := |w.buckets|;
    var i0 := SlotOf(b0, n);
    var r := Advance(w, now).1;
    forall j | 0 <= j < n && r.buckets[j] != w.buckets[j]
      ensures r.buckets[j].number > w.buckets[j].number
      ensures r.buckets[j].number % n == j
      ensures r.buckets[j].sum == 0.0 && r.buckets[j].count == 0
    {
      AdvanceAt(w, now, j);
      BackCongruent(b0, Back(i0, j, n), n);
    }
  }

  /** The walk rewrites exactly the slots it reaches before meeting a current
      bucket: the slot d steps behind the instant's slot changes iff every step
      up to and including d found a stale bucket. So nothing past the first
      current bucket changes. */
  lemma AdvanceStopsAtFirstCurrent(w: Window, now: nat)
    requires Valid(w)
    ensures var (b0, r) := Advance(w, now); var n := |w.buckets|; var i0 := SlotOf(b0, n);
      forall d :: 0 <= d < n ==>
        (r.buckets[Back(i0, d, n)] != w.buckets[Back(i0, d, n)] <==>
         forall e :: 0 <= e <= d ==> StaleAt(w.buckets, i0, b0, e))
  {
    var b0 := BucketNumber(w, now);
    var n := |w.buckets|;
    var i0 := SlotOf(b0, n);
    var stop := StopAt(w.buckets, i0, b0, 0);
    forall d | 0 <= d < n
      ensures var r := Advance(w, now).1;
        r.buckets[Back(i0, d, n)] != w.buckets[Back(i0, d, n)] <==>
        forall e :: 0 <= e <= d ==> StaleAt(w.buckets, i0, b0, e)
    {
      var j := Back(i0, d, n);
      AdvanceAt(w, now, j);
      BackInvolution(i0, d, n);
      if d >= stop {
        assert !StaleAt(w.buckets, i0, b0, stop);
      }
    }
  }

  /** After advancing, the instant's own slot carries the instant's bucket
      number or a later one, and exactly b0 unless it was already later. */
  lemma AdvanceTarget(w: Window, now: nat)
    requires Valid(w)
    ensures var (b0, r) := Advance(w, now); var s := SlotOf(b0, |w.buckets|);
      && r.buckets[s].number >= b0
      && (r.buckets[s].number == b0 <==> w.buckets[s].number <= b0)
      && (r.buckets[s].number > b0 ==> r.buckets[s] == w.buckets[s])
  {
    var b0 := BucketNumber(w, now);
    var s := SlotOf(b0, |w.buckets|);
    AdvanceAt(w, now, s);
    if StopAt(w.buckets, s, b0, 0) == 0 {
      assert !StaleAt(w.buckets, s, b0, 0);
    }
  }

  /** Advancing twice to the same instant is advancing once: the second walk
      stops at its first slot. */
  lemma AdvanceIdempotent(w: Window, now: nat)
    requires Valid(w)
    ensures var (b0, r) := Advance(w, now); Advance(r, now) == (b0, r)
  {
    var (b0, r) := Advance(w, now);
    var s := SlotOf(b0, |w.buckets|);
    AdvanceTarget(w, now);
    WalkHalts(r, s, b0, 0);
  }

  /** When the instant's bucket number is at least a full ring ahead of every
      bucket, every slot is expired and re-tagged with the latest number of
      that slot, so the window is empty. */
  lemma AdvanceFullExpiry(w: Window, now: nat)
    requires Valid(w)
    requires forall j :: 0 <= j < |w.buckets| ==> w.buckets[j].number + |w.buckets| <= BucketNumber(w, now)
    ensures var (b0, r) := Advance(w, now); var n := |w.buckets|;
      && (forall j :: 0 <= j < n ==> r.buckets[j] == Fresh(Latest(b0, j, n)))
      && SumOf(r.buckets) == 0.0 && CountOf(r.buckets) == 0
      && (Conserved(w) ==> r.totalSum == 0.0 && r.totalCount == 0)
  {
    var (b0, r) := Advance(w, now);
    var n := |w.buckets|;
    var i0 := SlotOf(b0, n);
    var stop := StopAt(w.buckets, i0, b0, 0);
    assert stop == n;
    forall j | 0 <= j < n
      ensures r.buckets[j] == Fresh(Latest(b0, j, n))
    {
      AdvanceAt(w, now, j);
    }
    EmptyRing(r.buckets);
    if Conserved(w) {
      AdvanceConserves(w, now);
    }
  }

  /** Advancing a window whose buckets are all empty leaves them empty and
      its totals as they were. */
  lemma AdvanceEmpty(w: Window, now: nat)
    requires Valid(w)
    requires forall j :: 0 <= j < |w.buckets| ==> w.buckets[j].sum == 0.0 && w.buckets[j].count == 0
    ensures var r := Advance(w, now).1;
      && (forall j :: 0 <= j < |r.buckets| ==> r.buckets[j].sum == 0.0 && r.buckets[j].count == 0)
      && r.totalSum == w.totalSum && r.totalCount == w.totalCount
  {
    var r := Advance(w, now).1;
    forall j | 0 <= j < |w.buckets|
      ensures r.buckets[j].sum == 0.0 && r.buckets[j].count == 0
    {
      AdvanceAt(w, now, j);
    }
    EmptyRing(w.buckets);
    EmptyRing(r.buckets);
    AdvanceExpires(w, now);
  }
}
