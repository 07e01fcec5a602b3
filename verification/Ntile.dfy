/** NTILE: n rows dealt into b buckets whose sizes differ by at most one. */
module Ntile {
  import opened Scalars

  function Base(n: nat, b: nat): nat
    requires b > 0
  {
    n / b
  }

  function Extra(n: nat, b: nat): nat
    requires b > 0
  {
    n % b
  }

  /** The bucket of a row, in the source's closed form. */
  function BucketOf(n: nat, b: nat, index: nat): nat
    requires b > 0 && index < n
  {
    var base, extra := Base(n, b), Extra(n, b);
    if index < (base + 1) * extra then index / (base + 1) + 1
    else
      extra + (index - (base + 1) * extra) / base + 1
  }

  function NtileValues(n: nat, bucketCount: int): (r: Result<seq<nat>>)
    ensures r.Err? <==> bucketCount <= 0
    ensures r.Ok? ==> |r.value| == n && forall i :: 0 <= i < n ==> r.value[i] == BucketOf(n, bucketCount, i)
  {
    if bucketCount <= 0 then Err(TypeError)
    else Ok(seq(n, i requires 0 <= i < n => BucketOf(n, bucketCount, i)))
  }

  lemma SizesAddUp(n: nat, b: nat)
    requires b > 0
    ensures Extra(n, b) < b
    ensures (Base(n, b) + 1) * Extra(n, b) + Base(n, b) * (b - Extra(n, b)) == n
  {
    var base, extra := n / b, n % b;
    assert n == base * b + extra;
    assert (base + 1) * extra == base * extra + extra;
    assert base * (b - extra) == base * b - base * extra;
  }

  /** Where bucket `k` (counted from 0) starts. */
  function StartIn(base: nat, extra: nat, k: nat): int {
    if k <= extra then k * (base + 1) else extra * (base + 1) + (k - extra) * base
  }

  function BucketStart(n: nat, b: nat, k: nat): int
    requires b > 0
  {
    StartIn(Base(n, b), Extra(n, b), k)
  }

  lemma SizeIn(base: nat, extra: nat, k: nat)
    ensures StartIn(base, extra, k + 1) - StartIn(base, extra, k) == base + if k < extra then 1 else 0
  {
    if k < extra {
      assert (k + 1) * (base + 1) == k * (base + 1) + (base + 1);
    } else if k == extra {
      assert (k + 1 - extra) * base == base;
    } else {
      assert (k + 1 - extra) * base == (k - extra) * base + base;
    }
  }

  /** The first n mod b buckets take one row more than the rest. */
  lemma BucketSize(n: nat, b: nat, k: nat)
    requires b > 0
    ensures BucketStart(n, b, k + 1) - BucketStart(n, b, k) == Base(n, b) + if k < Extra(n, b) then 1 else 0
  {
    SizeIn(Base(n, b), Extra(n, b), k);
    hide StartIn, Base, Extra;
  }

  lemma BucketBounds(n: nat, b: nat)
    requires b > 0
    ensures BucketStart(n, b, 0) == 0 && BucketStart(n, b, b) == n
  {
    SizesAddUp(n, b);
    hide Base, Extra;
    assert 0 * (Base(n, b) + 1) == 0;
  }

  lemma HoldsLarger(base: nat, extra: nat, index: nat)
    requires index < (base + 1) * extra
    ensures StartIn(base, extra, index / (base + 1)) <= index < StartIn(base, extra, index / (base + 1) + 1)
  {
    var k := index / (base + 1);
  }

  lemma HoldsSmaller(base: nat, extra: nat, index: nat)
    requires base > 0 && index >= (base + 1) * extra
    ensures var k := extra + (index - (base + 1) * extra) / base;
            StartIn(base, extra, k) <= index < StartIn(base, extra, k + 1)
  {
    var larger := (base + 1) * extra;
    var j := (index - larger) / base;
    hide StartIn;
  }

  /** A row's bucket is the one whose stretch it lies in. */
  lemma BucketHolds(n: nat, b: nat, index: nat)
    requires b > 0 && index < n
    ensures BucketOf(n, b, index) >= 1
    ensures BucketStart(n, b, BucketOf(n, b, index) - 1) <= index < BucketStart(n, b, BucketOf(n, b, index))
  {
    var base, extra := Base(n, b), Extra(n, b);
    hide Base, Extra, StartIn;
    if index < (base + 1) * extra {
      HoldsLarger(base, extra, index);
    } else {
      HoldsSmaller(base, extra, index);
    }
  }

  lemma {:induction false} StartsAscend(n: nat, b: nat, j: nat, k: nat)
    requires b > 0 && j <= k
    ensures BucketStart(n, b, j) <= BucketStart(n, b, k)
  {
    hide *;
    if j < k {
      StartsAscend(n, b, j, k - 1);
      BucketSize(n, b, k - 1);
    }
  }

  /** A row is in bucket `k` exactly when it lies in that bucket's stretch. */
  lemma BucketExactly(n: nat, b: nat, index: nat, k: nat)
    requires b > 0 && index < n
    ensures BucketOf(n, b, index) == k + 1 <==> BucketStart(n, b, k) <= index < BucketStart(n, b, k + 1)
  {
    hide *;
    BucketHolds(n, b, index);
    var own := BucketOf(n, b, index) - 1;
    if own < k {
      StartsAscend(n, b, own + 1, k);
    } else if own > k {
      StartsAscend(n, b, k + 1, own);
    }
  }

  /** Bucket numbers run from 1 to b and never decrease from row to row. */
  lemma BucketsAscend(n: nat, b: nat, i: nat, j: nat)
    requires b > 0 && i <= j < n
    ensures 1 <= BucketOf(n, b, i) <= BucketOf(n, b, j) <= b
  {
    hide *;
    BucketHolds(n, b, i);
    BucketHolds(n, b, j);
    BucketBounds(n, b);
    var own := BucketOf(n, b, j) - 1;
    if own >= b {
      StartsAscend(n, b, b, own);
    }
    if own + 1 < BucketOf(n, b, i) {
      StartsAscend(n, b, own + 1, BucketOf(n, b, i) - 1);
    }
  }

  /** How many of the first `upTo` rows are in a bucket. */
  function Members(n: nat, b: nat, bucket: nat, upTo: nat): nat
    requires b > 0 && upTo <= n
  {
    if upTo == 0 then 0
    else Members(n, b, bucket, upTo - 1) + if BucketOf(n, b, upTo - 1) == bucket then 1 else 0
  }

  lemma {:induction false} MembersUpTo(n: nat, b: nat, k: nat, upTo: nat)
    requires b > 0 && upTo <= n
    ensures var start, end := BucketStart(n, b, k), BucketStart(n, b, k + 1);
            Members(n, b, k + 1, upTo) == if upTo <= start then 0 else if upTo <= end then upTo - start else end - start
  {
    hide BucketStart, BucketOf;
    StartsAscend(n, b, 0, k);
    StartsAscend(n, b, k, k + 1);
    BucketBounds(n, b);
    if upTo > 0 {
      MembersUpTo(n, b, k, upTo - 1);
      BucketExactly(n, b, upTo - 1, k);
    }
  }

  /** Each bucket holds n / b rows, the first n mod b of them one more. */
  lemma BucketsBalance(n: nat, b: nat, k: nat)
    requires b > 0 && k < b
    ensures Members(n, b, k + 1, n) == Base(n, b) + if k < Extra(n, b) then 1 else 0
  {
    hide *;
    MembersUpTo(n, b, k, n);
    BucketSize(n, b, k);
    StartsAscend(n, b, k + 1, b);
    BucketBounds(n, b);
  }
}
