/** Arithmetic of the ring of buckets: which slot lies k steps behind a given
    slot, and which bucket number each slot is expected to carry. */
module Ring {

  /** The slot reached by walking k steps backwards (towards index 0, then
      wrapping to n - 1) from slot i0 on a ring of n slots. This is the order
      in which the two loops of doUpdate visit the slots. */
  function Back(i0: nat, k: nat, n: nat): (s: nat)
    requires i0 < n && k < n
    ensures s < n
  {
    if k <= i0 then i0 - k else n + i0 - k
  }

  /** The ring slot that stores bucket number b. */
  function SlotOf(b: int, n: nat): (s: nat)
    requires n > 0
    ensures s < n
  {
    b % n
  }

  /** Walking k steps back from i0 and asking how far back that slot is gives k:
      the walk order is its own inverse. */
  lemma BackInvolution(i0: nat, k: nat, n: nat)
    requires i0 < n && k < n
    ensures Back(i0, Back(i0, k, n), n) == k
  {
  }

  /** Two different step counts reach two different slots. */
  lemma BackInjective(i0: nat, k: nat, k': nat, n: nat)
    requires i0 < n && k < n && k' < n
    ensures Back(i0, k, n) == Back(i0, k', n) <==> k == k'
  {
  }

  /** The division identity pins down the remainder. */
  lemma ModOfDecomposition(a: int, q: int, r: int, n: int)
    requires n > 0 && 0 <= r < n && a == q * n + r
    ensures a % n == r && a / n == q
  {
    var q', r' := a / n, a % n;
    assert a == q' * n + r' && 0 <= r' < n;
    if q' > q {
      assert (q' - q) * n >= n by { MulAtLeast(q' - q, n); }
      assert false;
    } else if q' < q {
      assert (q - q') * n >= n by { MulAtLeast(q - q', n); }
      assert false;
    }
  }

  lemma MulAtLeast(m: int, n: int)
    requires m >= 1 && n > 0
    ensures m * n >= n
  {
  }

  /** The bucket number the walk expects k steps behind slot b0 % n is b0 - k,
      and that number belongs to the slot it is written into. */
  lemma BackCongruent(b0: int, k: nat, n: nat)
    requires n > 0 && k < n
    ensures (b0 - k) % n == Back(b0 % n, k, n)
  {
    var q, i0 := b0 / n, b0 % n;
    if k <= i0 {
      ModOfDecomposition(b0 - k, q, i0 - k, n);
    } else {
      assert b0 - k == (q - 1) * n + (n + i0 - k);
      ModOfDecomposition(b0 - k, q - 1, n + i0 - k, n);
    }
  }

  /** The most recent bucket number not after position p that belongs to slot j:
      the number slot j must carry once the window has advanced to p. */
  function Latest(p: int, j: nat, n: nat): (m: int)
    requires j < n
    ensures m % n == j
    ensures p - n < m <= p
  {
    BackInvolution(p % n, j, n);
    BackCongruent(p, Back(p % n, j, n), n);
    p - Back(p % n, j, n)
  }

  /** Two numbers of the same slot less than a full ring apart are equal. */
  lemma SameSlotClose(a: int, b: int, n: nat)
    requires n > 0 && a % n == b % n && b <= a < b + n
    ensures a == b
  {
    var q, r, d := b / n, b % n, a - b;
    if r + d < n {
      ModOfDecomposition(a, q, r + d, n);
    } else {
      assert a == (q + 1) * n + (r + d - n);
      ModOfDecomposition(a, q + 1, r + d - n, n);
    }
  }

  /** Latest is the greatest number of slot j not exceeding p. */
  lemma LatestIsGreatest(p: int, j: nat, n: nat, m: int)
    requires j < n && m % n == j && m <= p
    ensures m <= Latest(p, j, n)
  {
    var l := Latest(p, j, n);
    if m > l {
      SameSlotClose(m, l, n);
    }
  }

  /** Latest never moves backwards as the position advances. */
  lemma LatestMonotone(p: int, p': int, j: nat, n: nat)
    requires j < n && p <= p'
    ensures Latest(p, j, n) <= Latest(p', j, n)
  {
    LatestIsGreatest(p', j, n, Latest(p, j, n));
  }
}
