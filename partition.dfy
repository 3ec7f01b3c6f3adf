/** The static work partition of `worker` in HJM_Securities.cpp: worker `tid`
    of `t` prices the swaptions with indices in `[Beg(tid, n, t), End(tid, n, t))`
    out of `n`. Every worker gets `n / t` of them except the last, which also
    takes the remainder.

    The source divides C `int`s, which truncates toward zero; the partition is
    only computed once the worker count is at least 1 and the swaption count at
    least the worker count, where truncation and Dafny's Euclidean division
    agree, so `n >= 0` is required and `/`, `%` are used as they are. */
module Partition {
  import opened HjmType

  /** `chunksize`: the ideal share of each worker, rounded down. */
  function ChunkSize(n: int, t: int): (c: int)
    requires 0 <= n && 1 <= t
    ensures 0 <= c
    ensures c * t <= n < (c + 1) * t
  {
    n / t
  }

  /** `beg`: the first index that worker `tid` prices. */
  function Beg(tid: int, n: int, t: int): (b: int)
    requires 0 <= n && 0 <= tid < t
    ensures 0 <= b <= n
  {
    ChunkLeN(tid, n, t);
    tid * ChunkSize(n, t)
  }

  /** `end`: one past the last index that worker `tid` prices. */
  function End(tid: int, n: int, t: int): (e: int)
    requires 0 <= n && 0 <= tid < t
    ensures Beg(tid, n, t) <= e <= n
  {
    if tid == t - 1 then n
    else
      ChunkLeN(tid + 1, n, t);
      (tid + 1) * ChunkSize(n, t)
  }

  /** `k` whole chunks, for `k <= t`, fit in the `n` swaptions. */
  lemma ChunkLeN(k: int, n: int, t: int)
    requires 0 <= n && 0 <= k <= t && 1 <= t
    ensures 0 <= k * ChunkSize(n, t) <= n
  {
    var c := ChunkSize(n, t);
    assert k * c <= t * c by { MulLe(k, t, c); }
  }

  /** Multiplication by a non-negative factor is monotone. */
  lemma MulLe(a: int, b: int, c: int)
    requires 0 <= a <= b && 0 <= c
    ensures 0 <= a * c <= b * c
  {
    assert b * c == a * c + (b - a) * c;
  }

  /** A worker other than the last prices exactly `chunksize` swaptions; the
      last prices `chunksize` plus the remainder `n % t`. */
  lemma RangeLength(tid: int, n: int, t: int)
    requires 0 <= n && 0 <= tid < t
    ensures End(tid, n, t) - Beg(tid, n, t)
            == if tid < t - 1 then ChunkSize(n, t) else ChunkSize(n, t) + n % t
  {
    var c := ChunkSize(n, t);
    if tid == t - 1 {
      assert n == c * t + n % t;
      assert (t - 1) * c == c * t - c;
    } else {
      assert (tid + 1) * c == tid * c + c;
    }
  }

  /** The ranges are laid end to end: each worker starts where the previous
      one stopped, the first starts at 0 and the last ends at `n`. */
  lemma Adjacent(tid: int, n: int, t: int)
    requires 0 <= n && 0 <= tid < t
    ensures tid + 1 < t ==> End(tid, n, t) == Beg(tid + 1, n, t)
    ensures Beg(0, n, t) == 0
    ensures End(t - 1, n, t) == n
  {
  }

  /** The worker whose range holds swaption `i`. When there are fewer
      swaptions than workers every chunk is empty and the last worker
      prices them all. */
  function Owner(i: int, n: int, t: int): (tid: int)
    requires 0 <= i < n && 1 <= t
    ensures 0 <= tid < t
    ensures Beg(tid, n, t) <= i < End(tid, n, t)
  {
    var c := ChunkSize(n, t);
    if c == 0 then t - 1
    else
      var q := i / c;
      QuotientBounds(i, c);
      if q < t - 1 then
        assert (q + 1) * c == q * c + c;
        q
      else
        MulLe(t - 1, q, c);
        t - 1
  }

  /** Division by a positive divisor brackets the dividend. */
  lemma QuotientBounds(i: int, c: int)
    requires 0 <= i && 1 <= c
    ensures 0 <= i / c
    ensures (i / c) * c <= i < (i / c) * c + c
  {
  }

  /** Only `Owner(i, n, t)` prices swaption `i`: together with `Owner`'s own
      contract, every index in `[0, n)` is priced by exactly one worker. */
  lemma {:induction false} OwnerUnique(i: int, n: int, t: int, tid: int)
    requires 0 <= n && 0 <= tid < t
    ensures Beg(tid, n, t) <= i < End(tid, n, t) ==> tid == Owner(i, n, t)
  {
    var c := ChunkSize(n, t);
    if c != 0 && Beg(tid, n, t) <= i < End(tid, n, t) {
      if tid < t - 1 {
        assert (tid + 1) * c == tid * c + c;
        QuotientUnique(i, c, tid);
      } else {
        QuotientBounds(i, c);
        var q := i / c;
        assert (q + 1) * c == q * c + c;
        if q < t - 1 {
          MulLe(q + 1, t - 1, c);
        }
      }
    }
  }

  /** The quotient is the one multiplier that brackets the dividend. */
  lemma QuotientUnique(i: int, c: int, k: int)
    requires 1 <= c && 0 <= k && k * c <= i < k * c + c
    ensures i / c == k
  {
    QuotientBounds(i, c);
    var q := i / c;
    assert (q + 1) * c == q * c + c;
    assert (k + 1) * c == k * c + c;
    if q < k {
      MulLe(q + 1, k, c);
    } else if q > k {
      MulLe(k + 1, q, c);
    }
  }

  /** Every swaption is priced by exactly one worker: worker `tid`'s range
      holds `i` if and only if `tid` is `i`'s owner. */
  lemma ExactlyOneWorker(i: int, n: int, t: int)
    requires 0 <= i < n && 1 <= t
    ensures forall tid :: 0 <= tid < t ==>
              (Beg(tid, n, t) <= i < End(tid, n, t) <==> tid == Owner(i, n, t))
  {
    forall tid | 0 <= tid < t && Beg(tid, n, t) <= i < End(tid, n, t)
      ensures tid == Owner(i, n, t)
    {
      OwnerUnique(i, n, t, tid);
    }
  }

  /** Once there are at least as many swaptions as workers, no worker is
      idle: every range holds at least one swaption. */
  lemma NonEmpty(tid: int, n: int, t: int)
    requires 1 <= t <= n && 0 <= tid < t
    ensures 1 <= ChunkSize(n, t)
    ensures Beg(tid, n, t) < End(tid, n, t)
  {
    RangeLength(tid, n, t);
  }

  /** With `n` a C `int`, every product `worker` forms while computing its
      bounds is an `int` as well, so the C arithmetic does not overflow. */
  lemma BoundsFitInt(tid: int, n: int, t: int)
    requires 0 <= n <= INT_MAX && 0 <= tid < t
    ensures INT_MIN <= tid * ChunkSize(n, t) <= INT_MAX
    ensures tid < t - 1 ==> INT_MIN <= (tid + 1) * ChunkSize(n, t) <= INT_MAX
  {
    ChunkLeN(tid, n, t);
    if tid < t - 1 { ChunkLeN(tid + 1, n, t); }
  }
}
