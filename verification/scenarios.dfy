/** Concrete runs of the window with the instants and values the repository's
    tests use; instants are nanoseconds since the Unix epoch. Each lemma takes
    one call from a literal window to the literal window the tests expect. */
module Scenarios {
  import opened Buckets
  import opened Windows
  import opened Rotation
  import opened Expiry
  import opened Sampling
  import opened Position

  const Second: nat := 1_000_000_000

  /** time.Unix(sec, 1234567) as nanoseconds. */
  function At(sec: nat): (now: nat)
  {
    sec * Second + 1234567
  }

  /** Bucket widths: 3s over 2 buckets gives 1.5s, 10ns over 3 buckets gives
      4ns (rounded up), 9s over 3 buckets gives 3s. */
  lemma ConstructorWidths()
    ensures NewSlidingTimeWindow(3 * Second, 2).periodPerBucket == 1_500_000_000
    ensures NewSlidingTimeWindow(10, 3).periodPerBucket == 4
    ensures NewSlidingTimeWindow(9 * Second, 3).periodPerBucket == 3 * Second
  {
  }

  /** A 9s window of three 3s buckets with the given buckets and totals. */
  function Nine(b0: Bucket, b1: Bucket, b2: Bucket, sum: real, count: int): (w: Window)
  {
    Window(3 * Second, [b0, b1, b2], sum, count)
  }

  /** The freshly constructed 9s window. */
  lemma NineEmpty()
    ensures NewSlidingTimeWindow(9 * Second, 3) == Nine(Fresh(0), Fresh(0), Fresh(0), 0.0, 0)
  {
  }

  // The window of the sample tests: 33 at 12s, then 22 at 11s, then 44 at 13s.

  lemma SampleAt12()
    ensures UpdateWithSample(Nine(Fresh(0), Fresh(0), Fresh(0), 0.0, 0), At(12), 33.0)
         == Nine(Fresh(3), Bucket(4, 33.0, 1), Fresh(2), 33.0, 1)
  {
    var w := Nine(Fresh(0), Fresh(0), Fresh(0), 0.0, 0);
    assert BucketNumber(w, At(12)) == 4;
    AdvanceExpires(w, At(12));
    assert StopAt(w.buckets, 1, 4, 0) == 3;
    var e := Expired(w.buckets, 1, 4, 0, 3);
    assert e[0] == Fresh(3) && e[1] == Fresh(4) && e[2] == Fresh(2);
    assert e == [Fresh(3), Fresh(4), Fresh(2)];
  }

  lemma SampleAt11()
    ensures UpdateWithSample(Nine(Fresh(3), Bucket(4, 33.0, 1), Fresh(2), 33.0, 1), At(11), 22.0)
         == Nine(Bucket(3, 22.0, 1), Bucket(4, 33.0, 1), Fresh(2), 55.0, 2)
  {
    var w := Nine(Fresh(3), Bucket(4, 33.0, 1), Fresh(2), 33.0, 1);
    assert BucketNumber(w, At(11)) == 3;
    AdvanceExpires(w, At(11));
    assert StopAt(w.buckets, 0, 3, 0) == 0;
    var e := Expired(w.buckets, 0, 3, 0, 0);
    assert e == w.buckets;
  }

  /** The state the sample tests build on. */
  function ThreeSamples(): (w: Window)
  {
    Nine(Bucket(3, 22.0, 1), Bucket(4, 77.0, 2), Fresh(2), 99.0, 3)
  }

  lemma SampleAt13()
    ensures UpdateWithSample(Nine(Bucket(3, 22.0, 1), Bucket(4, 33.0, 1), Fresh(2), 55.0, 2), At(13), 44.0)
         == ThreeSamples()
  {
    var w := Nine(Bucket(3, 22.0, 1), Bucket(4, 33.0, 1), Fresh(2), 55.0, 2);
    assert BucketNumber(w, At(13)) == 4;
    AdvanceExpires(w, At(13));
    assert StopAt(w.buckets, 1, 4, 0) == 0;
    var e := Expired(w.buckets, 1, 4, 0, 0);
    assert e == w.buckets;
  }

  /** A sample at 1s is far too old: its slot holds bucket 3, not 0, so it is
      dropped and nothing changes. */
  lemma LateSampleAt1()
    ensures UpdateWithSample(ThreeSamples(), At(1), 99.0) == ThreeSamples()
  {
    var w := ThreeSamples();
    assert BucketNumber(w, At(1)) == 0;
    AdvanceExpires(w, At(1));
    assert StopAt(w.buckets, 0, 0, 0) == 0;
    var e := Expired(w.buckets, 0, 0, 0, 0);
    assert e == w.buckets;
  }

  /** A sample at 16s expires the slot of bucket 2 and starts bucket 5. */
  lemma SampleAt16()
    ensures UpdateWithSample(ThreeSamples(), At(16), 11.0)
         == Nine(Bucket(3, 22.0, 1), Bucket(4, 77.0, 2), Bucket(5, 11.0, 1), 110.0, 4)
  {
    var w := ThreeSamples();
    assert BucketNumber(w, At(16)) == 5;
    AdvanceExpires(w, At(16));
    assert StopAt(w.buckets, 2, 5, 0) == 1;
    var e := Expired(w.buckets, 2, 5, 0, 1);
    assert e[0] == w.buckets[0] && e[1] == w.buckets[1] && e[2] == Fresh(5);
    assert e == [w.buckets[0], w.buckets[1], Fresh(5)];
  }

  /** Then a sample at 21s expires buckets 4 and 3 and stops at bucket 5. */
  lemma SampleAt21()
    ensures UpdateWithSample(Nine(Bucket(3, 22.0, 1), Bucket(4, 77.0, 2), Bucket(5, 11.0, 1), 110.0, 4), At(21), 33.0)
         == Nine(Fresh(6), Bucket(7, 33.0, 1), Bucket(5, 11.0, 1), 44.0, 2)
  {
    var w := Nine(Bucket(3, 22.0, 1), Bucket(4, 77.0, 2), Bucket(5, 11.0, 1), 110.0, 4);
    assert BucketNumber(w, At(21)) == 7;
    AdvanceExpires(w, At(21));
    assert StopAt(w.buckets, 1, 7, 0) == 2;
    var e := Expired(w.buckets, 1, 7, 0, 2);
    assert e[0] == Fresh(6) && e[1] == Fresh(7) && e[2] == w.buckets[2];
    assert e == [Fresh(6), Fresh(7), w.buckets[2]];
  }

  /** A sample at 23s is a full ring ahead: every slot is expired. */
  lemma SampleAt23()
    ensures UpdateWithSample(ThreeSamples(), At(23), 99.0)
         == Nine(Fresh(6), Bucket(7, 99.0, 1), Fresh(5), 99.0, 1)
  {
    var w := ThreeSamples();
    assert BucketNumber(w, At(23)) == 7;
    AdvanceExpires(w, At(23));
    assert StopAt(w.buckets, 1, 7, 0) == 3;
    var e := Expired(w.buckets, 1, 7, 0, 3);
    assert e[0] == Fresh(6) && e[1] == Fresh(7) && e[2] == Fresh(5);
    assert e == [Fresh(6), Fresh(7), Fresh(5)];
  }

  // The window of the Update tests: 22, 33, 44 and 55 at 11s, 12s, 13s, 14s.

  lemma FirstSampleAt11()
    ensures UpdateWithSample(Nine(Fresh(0), Fresh(0), Fresh(0), 0.0, 0), At(11), 22.0)
         == Nine(Bucket(3, 22.0, 1), Fresh(1), Fresh(2), 22.0, 1)
  {
    var w := Nine(Fresh(0), Fresh(0), Fresh(0), 0.0, 0);
    assert BucketNumber(w, At(11)) == 3;
    AdvanceExpires(w, At(11));
    assert StopAt(w.buckets, 0, 3, 0) == 3;
    var e := Expired(w.buckets, 0, 3, 0, 3);
    assert e[0] == Fresh(3) && e[1] == Fresh(1) && e[2] == Fresh(2);
    assert e == [Fresh(3), Fresh(1), Fresh(2)];
  }

  /** Bucket 1 is stale at 12s and is expired; bucket 3 stops the walk. */
  lemma SecondSampleAt12()
    ensures UpdateWithSample(Nine(Bucket(3, 22.0, 1), Fresh(1), Fresh(2), 22.0, 1), At(12), 33.0)
         == Nine(Bucket(3, 22.0, 1), Bucket(4, 33.0, 1), Fresh(2), 55.0, 2)
  {
    var w := Nine(Bucket(3, 22.0, 1), Fresh(1), Fresh(2), 22.0, 1);
    assert BucketNumber(w, At(12)) == 4;
    AdvanceExpires(w, At(12));
    assert StopAt(w.buckets, 1, 4, 0) == 1;
    var e := Expired(w.buckets, 1, 4, 0, 1);
    assert e[0] == w.buckets[0] && e[1] == Fresh(4) && e[2] == w.buckets[2];
    assert e == [w.buckets[0], Fresh(4), w.buckets[2]];
  }

  /** Four samples in buckets 3 and 4. */
  function FourSamples(): (w: Window)
  {
    Nine(Bucket(3, 22.0, 1), Bucket(4, 132.0, 3), Fresh(2), 154.0, 4)
  }

  lemma SampleAt14()
    ensures UpdateWithSample(ThreeSamples(), At(14), 55.0) == FourSamples()
  {
    var w := ThreeSamples();
    assert BucketNumber(w, At(14)) == 4;
    AdvanceExpires(w, At(14));
    assert StopAt(w.buckets, 1, 4, 0) == 0;
    var e := Expired(w.buckets, 1, 4, 0, 0);
    assert e == w.buckets;
  }

  /** Advancing to 18s expires buckets 3 and 2 and keeps bucket 4. */
  lemma UpdateAt18()
    ensures Update(FourSamples(), At(18)) == Nine(Fresh(6), Bucket(4, 132.0, 3), Fresh(5), 132.0, 3)
  {
    var w := FourSamples();
    assert BucketNumber(w, At(18)) == 6;
    AdvanceExpires(w, At(18));
    assert StopAt(w.buckets, 0, 6, 0) == 2;
    var e := Expired(w.buckets, 0, 6, 0, 2);
    assert e[0] == Fresh(6) && e[1] == w.buckets[1] && e[2] == Fresh(5);
    assert e == [Fresh(6), w.buckets[1], Fresh(5)];
  }

  /** Advancing to 23s expires every bucket and empties the window. */
  lemma UpdateAt23()
    ensures Update(FourSamples(), At(23)) == Nine(Fresh(6), Fresh(7), Fresh(5), 0.0, 0)
  {
    var w := FourSamples();
    assert BucketNumber(w, At(23)) == 7;
    AdvanceExpires(w, At(23));
    assert StopAt(w.buckets, 1, 7, 0) == 3;
    var e := Expired(w.buckets, 1, 7, 0, 3);
    assert e[0] == Fresh(6) && e[1] == Fresh(7) && e[2] == Fresh(5);
    assert e == [Fresh(6), Fresh(7), Fresh(5)];
  }

  /** Three samples 1, 2 and 3 at non-decreasing instants less than a full
      ring apart, recorded in an empty window at position 0, all stay in the
      window: the totals become 6 and 3. */
  lemma ThreeSamplesInRing(w0: Window, t1: nat, t2: nat, t3: nat)
    requires Inv(w0, 0) && w0.totalSum == 0.0 && w0.totalCount == 0
    requires SamplesFrom(w0, BucketNumber(w0, t1))
    requires t1 <= t2 <= t3 && BucketNumber(w0, t3) < BucketNumber(w0, t1) + |w0.buckets|
    ensures var w := UpdateWithSample(UpdateWithSample(UpdateWithSample(w0, t1, 1.0), t2, 2.0), t3, 3.0);
      w.totalSum == 6.0 && w.totalCount == 3
  {
    var b1 := BucketNumber(w0, t1);
    var b2 := BucketNumber(w0, t2);
    BucketNumberBounds(w0, t1, t2);
    BucketNumberBounds(w0, t2, t3);
    var w1 := UpdateWithSample(w0, t1, 1.0);
    var w2 := UpdateWithSample(w1, t2, 2.0);
    RecentSampleAdds(w0, 0, t1, 1.0, b1);
    UpdatesKeepInv(w0, 0, t1, 1.0);
    assert Inv(w1, b1) && SamplesFrom(w1, b1) && w1.totalSum == 1.0 && w1.totalCount == 1;
    assert BucketNumber(w1, t2) == b2 && BucketNumber(w1, t3) == BucketNumber(w0, t3);
    RecentSampleAdds(w1, b1, t2, 2.0, b1);
    UpdatesKeepInv(w1, b1, t2, 2.0);
    assert Inv(w2, b2) && SamplesFrom(w2, b1) && w2.totalSum == 3.0 && w2.totalCount == 2;
    assert BucketNumber(w2, t3) == BucketNumber(w0, t3);
    RecentSampleAdds(w2, b2, t3, 3.0, b1);
  }

  /** The accessor test on an 11s window of 22 half-second buckets: the
      average is undefined before the samples and 2 after them, the sum 6,
      the count 3, for any three non-decreasing instants less than a full
      ring apart. */
  lemma AccessorsWithinOneRing(t1: nat, t2: nat, t3: nat)
    requires t1 <= t2 <= t3
    requires BucketNumber(NewSlidingTimeWindow(11 * Second, 22), t3)
           < BucketNumber(NewSlidingTimeWindow(11 * Second, 22), t1) + 22
    ensures var w0 := NewSlidingTimeWindow(11 * Second, 22);
      var w := UpdateWithSample(UpdateWithSample(UpdateWithSample(w0, t1, 1.0), t2, 2.0), t3, 3.0);
      && Average(w0) == None
      && Sum(w) == 6.0 && Count(w) == 3 && Average(w) == Some(2.0)
  {
    var w0 := NewSlidingTimeWindow(11 * Second, 22);
    NewWindowInv(11 * Second, 22);
    ThreeSamplesInRing(w0, t1, t2, t3);
  }
}
