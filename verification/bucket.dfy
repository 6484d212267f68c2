/** One bucket of the ring and the sums over a ring of buckets. */
module Buckets {

  /** The aggregate of the samples that fell into one bucket-wide time slot.
      `number` is the absolute slot (time divided by the bucket width) the
      bucket currently stands for. Sums are exact reals, counts unbounded. */
  datatype Bucket = Bucket(number: int, sum: real, count: int)

  /** A bucket re-tagged with number e and emptied. */
  function Fresh(e: int): (b: Bucket)
  {
    Bucket(e, 0.0, 0)
  }

  /** Sum of the bucket sums. */
  function SumOf(bs: seq<Bucket>): (s: real)
  {
    if |bs| == 0 then 0.0 else bs[0].sum + SumOf(bs[1..])
  }

  /** Sum of the bucket counts. */
  function CountOf(bs: seq<Bucket>): (c: int)
  {
    if |bs| == 0 then 0 else bs[0].count + CountOf(bs[1..])
  }

  /** Replacing one bucket changes the sum over the ring by exactly the
      difference between the new and the old bucket sum. */
  lemma {:induction false} SumOfUpdate(bs: seq<Bucket>, j: nat, b: Bucket)
    requires j < |bs|
    ensures SumOf(bs[j := b]) == SumOf(bs) - bs[j].sum + b.sum
  {
    if j == 0 {
      assert bs[j := b][1..] == bs[1..];
    } else {
      assert bs[j := b][1..] == bs[1..][j - 1 := b];
      SumOfUpdate(bs[1..], j - 1, b);
    }
  }

  /** Replacing one bucket changes the count over the ring by exactly the
      difference between the new and the old bucket count. */
  lemma {:induction false} CountOfUpdate(bs: seq<Bucket>, j: nat, b: Bucket)
    requires j < |bs|
    ensures CountOf(bs[j := b]) == CountOf(bs) - bs[j].count + b.count
  {
    if j == 0 {
      assert bs[j := b][1..] == bs[1..];
    } else {
      assert bs[j := b][1..] == bs[1..][j - 1 := b];
      CountOfUpdate(bs[1..], j - 1, b);
    }
  }

  /** Two rings whose buckets hold the same sums and counts slot by slot have
      the same sum and count, whatever their bucket numbers. */
  lemma {:induction false} SumsAgree(bs: seq<Bucket>, bs': seq<Bucket>)
    requires |bs| == |bs'|
    requires forall j :: 0 <= j < |bs| ==> bs[j].sum == bs'[j].sum && bs[j].count == bs'[j].count
    ensures SumOf(bs) == SumOf(bs') && CountOf(bs) == CountOf(bs')
  {
    if |bs| > 0 {
      SumsAgree(bs[1..], bs'[1..]);
    }
  }

  /** A ring of empty buckets sums to zero and counts zero. */
  lemma {:induction false} EmptyRing(bs: seq<Bucket>)
    requires forall j :: 0 <= j < |bs| ==> bs[j].sum == 0.0 && bs[j].count == 0
    ensures SumOf(bs) == 0.0 && CountOf(bs) == 0
  {
    if |bs| > 0 {
      EmptyRing(bs[1..]);
    }
  }

  /** Counts that are never negative add up to a total that is not negative. */
  lemma {:induction false} CountOfNonNegative(bs: seq<Bucket>)
    requires forall j :: 0 <= j < |bs| ==> bs[j].count >= 0
    ensures CountOf(bs) >= 0
  {
    if |bs| > 0 {
      CountOfNonNegative(bs[1..]);
    }
  }
}
