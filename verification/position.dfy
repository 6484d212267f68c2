/** Why stopping the walk early is safe. Once the window has seen bucket
    numbers up to p, every slot holds a number between the latest number of
    that slot not after p and p itself. Under that invariant the early-stop
    walk expires exactly the stale slots of the whole ring, and an instant
    that is not newer than p changes nothing. */
module Position {
  import opened Ring
  import opened Buckets
  import opened Windows
  import opened Rotation
  import opened Expiry
  import opened Sampling

  /** Every slot is at least as recent as the latest number of that slot not
      after p, and nothing is newer than p. */
  predicate AtPosition(bs: seq<Bucket>, p: int)
  {
    forall j :: 0 <= j < |bs| ==> Latest(p, j, |bs|) <= bs[j].number <= p
  }

  /** Every bucket number belongs to its own slot, except the initial 0. */
  predicate Aligned(bs: seq<Bucket>)
    requires |bs| > 0
  {
    forall j :: 0 <= j < |bs| ==> bs[j].number % |bs| == j || bs[j].number == 0
  }

  /** The window invariant, with p the newest bucket number seen so far. */
  predicate Inv(w: Window, p: nat)
  {
    && Valid(w)
    && Conserved(w)
    && AtPosition(w.buckets, p)
    && Aligned(w.buckets)
    && (forall j :: 0 <= j < |w.buckets| ==> w.buckets[j].count >= 0)
  }

  /** The reference behaviour the early stop must reproduce: visit every slot
      and expire each one that is behind the latest number of that slot not
      after b0. */
  function Sweep(bs: seq<Bucket>, b0: int): (r: seq<Bucket>)
    requires |bs| > 0
    ensures |r| == |bs|
  {
    seq(|bs|, j requires 0 <= j < |bs| =>
      if bs[j].number < Latest(b0, j, |bs|) then Fresh(Latest(b0, j, |bs|)) else bs[j])
  }

  /** A freshly constructed window satisfies the invariant at position 0. */
  lemma NewWindowInv(period: int, numberOfBuckets: int)
    requires numberOfBuckets > 0 && period > 0
    ensures Inv(NewSlidingTimeWindow(period, numberOfBuckets), 0)
  {
  }

  /** Early-stop soundness: under the invariant, the walk that stops at the
      first current bucket gives the same ring as the full sweep. */
  lemma EarlyStopSound(w: Window, p: nat, now: nat)
    requires Valid(w) && AtPosition(w.buckets, p)
    ensures Advance(w, now).1.buckets == Sweep(w.buckets, BucketNumber(w, now))
  {
    var (b0, r) := Advance(w, now);
    var n := |w.buckets|;
    var i0 := SlotOf(b0, n);
    var stop := StopAt(w.buckets, i0, b0, 0);
    var sw := Sweep(w.buckets, b0);
    forall j | 0 <= j < n
      ensures r.buckets[j] == sw[j]
    {
      AdvanceAt(w, now, j);
      var d := Back(i0, j, n);
      assert Latest(b0, j, n) == b0 - d;
      if d >= stop {
        var j' := Back(i0, stop, n);
        assert !StaleAt(w.buckets, i0, b0, stop);
        assert b0 - stop <= w.buckets[j'].number <= p;
        LatestIsGreatest(p, j, n, b0 - d);
      }
    }
  }

  /** Advancing to an instant whose bucket number is not newer than p changes
      nothing at all. */
  lemma AdvanceToPastIsNoop(w: Window, p: nat, now: nat)
    requires Valid(w) && AtPosition(w.buckets, p) && BucketNumber(w, now) <= p
    ensures Advance(w, now).1 == w
  {
    var (b0, r) := Advance(w, now);
    var n := |w.buckets|;
    EarlyStopSound(w, p, now);
    forall j | 0 <= j < n
      ensures r.buckets[j] == w.buckets[j]
    {
      LatestMonotone(b0, p, j, n);
    }
    assert r.buckets == w.buckets;
    AdvanceExpires(w, now);
  }

  /** Advancing keeps the invariant, with the position moved to the newer of p
      and the instant's bucket number. */
  lemma AdvanceKeepsInv(w: Window, p: nat, now: nat)
    requires Inv(w, p)
    ensures var b0 := BucketNumber(w, now);
      Inv(Advance(w, now).1, if b0 <= p then p else b0)
  {
    var (b0, r) := Advance(w, now);
    var n := |w.buckets|;
    if b0 <= p {
      AdvanceToPastIsNoop(w, p, now);
    } else {
      EarlyStopSound(w, p, now);
      AdvanceConserves(w, now);
      AdvanceRetagsOwnSlot(w, now);
      forall j | 0 <= j < n
        ensures Latest(b0, j, n) <= r.buckets[j].number <= b0
        ensures r.buckets[j].count >= 0
      {
      }
    }
  }

  /** Recording a sample keeps every bucket number where the advance put it. */
  lemma SampleKeepsNumbers(w: Window, now: nat, x: real)
    requires Valid(w)
    ensures var r := UpdateWithSample(w, now, x); var w1 := Update(w, now);
      && (forall j :: 0 <= j < |w.buckets| ==> r.buckets[j].number == w1.buckets[j].number)
      && (forall j :: 0 <= j < |w.buckets| ==> r.buckets[j].count >= w1.buckets[j].count)
  {
  }

  /** Both operations keep the invariant. */
  lemma UpdatesKeepInv(w: Window, p: nat, now: nat, x: real)
    requires Inv(w, p)
    ensures var b0 := BucketNumber(w, now); var p' := if b0 <= p then p else b0;
      Inv(Update(w, now), p') && Inv(UpdateWithSample(w, now, x), p')
  {
    AdvanceKeepsInv(w, p, now);
    SampleKeepsNumbers(w, now, x);
    UpdatesConserve(w, now, x);
  }

  /** A slot number m held at position p is later than an instant's bucket
      number b0 of the same slot exactly when b0 is a full ring behind p. */
  lemma HeldIsLaterIff(m: int, p: int, b0: nat, n: nat)
    requires n > 0 && Latest(p, b0 % n, n) <= m <= p
    requires m % n == b0 % n || m == 0
    ensures m > b0 <==> b0 + n <= p
  {
    var s := b0 % n;
    var l := Latest(p, s, n);
    assert l % n == s && p - n < l <= p;
    if b0 + n > p && b0 <= p {
      LatestIsGreatest(p, s, n, b0);
      SameSlotClose(l, b0, n);
      assert l == b0;
      if m != 0 {
        SameSlotClose(m, b0, n);
      }
    }
  }

  /** Under the invariant a sample is recorded exactly when its bucket number
      is less than a full ring behind the newest one seen: older samples fall
      outside the window and are dropped. */
  lemma SampleRecordedIffInWindow(w: Window, p: nat, now: nat, x: real)
    requires Inv(w, p)
    ensures UpdateWithSample(w, now, x) != Update(w, now) <==> BucketNumber(w, now) + |w.buckets| > p
  {
    var b0 := BucketNumber(w, now);
    var n := |w.buckets|;
    var s := SlotOf(b0, n);
    LateSampleDropped(w, now, x);
    HeldIsLaterIff(w.buckets[s].number, p, b0, n);
  }

  /** Every bucket that holds samples belongs to its own slot and is numbered
      lo or later. */
  predicate SamplesFrom(w: Window, lo: int)
  {
    forall j :: 0 <= j < |w.buckets| && (w.buckets[j].sum != 0.0 || w.buckets[j].count != 0) ==>
      w.buckets[j].number % |w.buckets| == j && lo <= w.buckets[j].number
  }

  /** The window really is sliding: under the invariant, advancing to an
      instant less than a full ring past the oldest bucket that holds samples
      expires only empty buckets. Every bucket with samples is kept as it is,
      and the totals do not move. */
  lemma RecentSamplesKept(w: Window, p: nat, now: nat, lo: int)
    requires Inv(w, p) && SamplesFrom(w, lo) && BucketNumber(w, now) < lo + |w.buckets|
    ensures var r := Update(w, now);
      && r.totalSum == w.totalSum && r.totalCount == w.totalCount
      && (forall j :: 0 <= j < |w.buckets| && (w.buckets[j].sum != 0.0 || w.buckets[j].count != 0) ==>
            r.buckets[j] == w.buckets[j])
      && SamplesFrom(r, lo)
  {
    var b0 := BucketNumber(w, now);
    var n := |w.buckets|;
    var r := Update(w, now);
    EarlyStopSound(w, p, now);
    forall j | 0 <= j < n
      ensures r.buckets[j].sum == w.buckets[j].sum && r.buckets[j].count == w.buckets[j].count
      ensures w.buckets[j].sum != 0.0 || w.buckets[j].count != 0 ==> r.buckets[j] == w.buckets[j]
    {
      var m := w.buckets[j].number;
      var l := Latest(b0, j, n);
      if (w.buckets[j].sum != 0.0 || w.buckets[j].count != 0) && m < l {
        SameSlotClose(l, m, n);
      }
    }
    SumsAgree(w.buckets, r.buckets);
    AdvanceExpires(w, now);
  }

  /** Under the same conditions, a sample at an instant no older than the
      newest bucket number seen adds exactly x and 1 to the totals. */
  lemma RecentSampleAdds(w: Window, p: nat, now: nat, x: real, lo: int)
    requires Inv(w, p) && SamplesFrom(w, lo)
    requires p <= BucketNumber(w, now) && lo <= BucketNumber(w, now) < lo + |w.buckets|
    ensures var r := UpdateWithSample(w, now, x);
      && r.totalSum == w.totalSum + x && r.totalCount == w.totalCount + 1
      && SamplesFrom(r, lo)
  {
    var b0 := BucketNumber(w, now);
    var n := |w.buckets|;
    var s := SlotOf(b0, n);
    RecentSamplesKept(w, p, now, lo);
    SampleAccepted(w, now, x);
  }
}
