/** Load factors in exact arithmetic: when so many elements fit in so many buckets. */
module LoadFactors {
  import opened MachineBits
  import opened GrowthPolicies

  const MINIMUM_MAX_LOAD_FACTOR := 0.2
  const MAXIMUM_MAX_LOAD_FACTOR := 0.95
  const MINIMUM_MIN_LOAD_FACTOR := 0.0
  const MAXIMUM_MIN_LOAD_FACTOR := 0.15

  /** At most the given share of the buckets is full. */
  predicate Fits(size: nat, count: nat, factor: real) {
    size as real <= count as real * factor
  }

  /** The share of the buckets that is full. */
  function LoadOf(size: nat, count: nat): real {
    if count == 0 then 0.0 else size as real / count as real
  }

  lemma LoadIsShare(size: nat, count: nat)
    ensures count == 0 ==> LoadOf(size, count) == 0.0
    ensures count > 0 ==> LoadOf(size, count) * count as real == size as real
  {
  }

  function Clamp(x: real, lo: real, hi: real): (r: real)
    requires lo <= hi
    ensures lo <= r <= hi
    ensures lo <= x <= hi ==> r == x
    ensures x < lo ==> r == lo
    ensures x > hi ==> r == hi
  {
    if x < lo then lo else if x > hi then hi else x
  }

  function Ceil(x: real): (r: int)
    ensures r as real >= x > r as real - 1.0
  {
    -((-x).Floor)
  }

  /** size_type(float(bucket_count) * max_load_factor): below the bucket count, at 95% or less. */
  function Threshold(n: nat, factor: real): (t: nat)
    requires MINIMUM_MAX_LOAD_FACTOR <= factor <= MAXIMUM_MAX_LOAD_FACTOR
    ensures n > 0 ==> t < n
    ensures n == 0 ==> t == 0
    ensures forall size: nat :: size <= t <==> Fits(size, n, factor)
  {
    ThresholdBelowCount(n, factor);
    (n as real * factor).Floor
  }

  /** A threshold of at most 95% of the buckets is below the bucket count. */
  lemma ThresholdBelowCount(n: nat, factor: real)
    requires 0.2 <= factor <= 0.95
    ensures 0 <= (n as real * factor).Floor
    ensures n > 0 ==> (n as real * factor).Floor < n
    ensures n == 0 ==> (n as real * factor).Floor == 0
  {
    ProductBelow(n as real, factor, n as real * factor);
    FloorBelow(n as real * factor, n);
  }

  lemma ProductBelow(x: real, factor: real, y: real)
    requires 0.0 <= x && 0.0 <= factor <= 0.95 && y == x * factor
    ensures 0.0 <= y <= x * 0.95
  {
    RealMulMonotone(x, factor, 0.95);
    ProductNotNegative(x, factor);
  }

  lemma FloorBelow(y: real, n: nat)
    requires 0.0 <= y <= n as real * 0.95
    ensures 0 <= y.Floor
    ensures n > 0 ==> y.Floor < n
    ensures n == 0 ==> y.Floor == 0
  {
    var t := y.Floor;
    assert t as real <= y < t as real + 1.0;
    assert n > 0 ==> n as real >= 1.0;
    assert n > 0 ==> t as real < n as real;
  }

  lemma ProductNotNegative(x: real, y: real)
    requires 0.0 <= x && 0.0 <= y
    ensures 0.0 <= x * y
  {
  }

  lemma RealMulMonotone(c: real, x: real, y: real)
    requires 0.0 <= c && x <= y
    ensures c * x <= c * y
  {
  }

  /** size_type(ceil(float(count) / max_load_factor)): the fewest buckets in which the elements fit. It leaves
      room for one more than there are elements. */
  function BucketsFor(elements: nat, factor: real): (c: nat)
    requires MINIMUM_MAX_LOAD_FACTOR <= factor <= MAXIMUM_MAX_LOAD_FACTOR
    ensures Fits(elements, c, factor) && forall k: nat | Fits(elements, k, factor) :: c <= k
    ensures c >= elements && (elements > 0 ==> c > elements)
  {
    CeilingFits(elements, factor);
    Ceil(elements as real / factor)
  }

  lemma CeilingFits(elements: nat, factor: real)
    requires 0.2 <= factor <= 0.95
    ensures Ceil(elements as real / factor) >= 0
    ensures forall c: nat :: Fits(elements, c, factor) <==> Ceil(elements as real / factor) <= c
    ensures Ceil(elements as real / factor) >= elements && (elements > 0 ==> Ceil(elements as real / factor) > elements)
  {
    ReserveLeavesRoom(elements, factor);
    forall c: nat
      ensures Fits(elements, c, factor) <==> Ceil(elements as real / factor) <= c
    {
      FitsFromQuotient(elements, c, factor, elements as real / factor);
    }
  }

  lemma FitsFromQuotient(elements: nat, c: nat, factor: real, x: real)
    requires 0.2 <= factor && x == elements as real / factor
    ensures Fits(elements, c, factor) <==> Ceil(x) <= c
  {
    assert x * factor == elements as real;
    if x <= c as real {
      RealMulMonotone(factor, x, c as real);
    } else {
      StrictlyBelow(factor, c as real, x);
    }
  }

  lemma StrictlyBelow(c: real, x: real, y: real)
    requires 0.0 < c && x < y
    ensures c * x < c * y
  {
  }

  /** A bucket count of at least count / factor leaves room for one more than count elements. */
  lemma ReserveLeavesRoom(count: nat, factor: real)
    requires 0.2 <= factor <= 0.95
    ensures Ceil(count as real / factor) >= count
    ensures count > 0 ==> Ceil(count as real / factor) > count
  {
    var x := count as real / factor;
    assert x * factor == count as real;
    if x < 0.0 {
      RealMulMonotone(factor, x, 0.0);
    } else {
      RealMulMonotone(x, factor, 0.95);
      assert count > 0 ==> x > count as real;
    }
  }

  lemma FitsInMore(size: nat, c: nat, n: nat, factor: real)
    requires Fits(size, c, factor) && c <= n && 0.0 <= factor
    ensures Fits(size, n, factor)
  {
    RealMulMonotone(factor, c as real, n as real);
  }

  /** The least count offered that is neither below count nor below what the elements need is the least one
      offered that is not below count and in which the elements fit. */
  lemma LeastThatFits(p: GrowthPolicy, count: nat, size: nat, factor: real, n: nat)
    requires 0.2 <= factor <= 0.95
    requires p.Least(if count >= BucketsFor(size, factor) then count else BucketsFor(size, factor), n)
    ensures count <= n && Fits(size, n, factor)
    ensures forall k: nat | (k == 0 || p.Offers(k)) && count <= k && Fits(size, k, factor) :: n <= k
  {
    FitsInMore(size, BucketsFor(size, factor), n, factor);
  }

  /** Growing a table whose elements fit makes room for one more, if the new table has room for any at all:
      tables of one to four buckets may be too small for their load factor. */
  lemma GrownFits(p: GrowthPolicy, n: nat, next: nat, size: nat, factor: real)
    requires p.Serves(n) && p.Follows(n, next) && Fits(size, n, factor) && 0.2 <= factor <= 0.95
    ensures Fits(size + 1, next, factor) <==> Fits(1, next, factor)
  {
    hide GrowthPolicy.Serves, GrowthPolicy.Follows;
    if size > 0 {
      GrowsEnough(p, n, next, size, factor);
      OneMoreFits(size, n, next, factor, n as real * factor, next as real * factor);
    }
  }

  lemma OneMoreFits(size: nat, n: nat, next: nat, factor: real, room: real, more: real)
    requires 0 < size && size as real <= room && 0.2 <= factor && (next >= 2 * n || next >= n + 8) && next >= n
    requires room == n as real * factor && more == next as real * factor
    ensures (size + 1) as real <= more
  {
    var grown: nat := next - n;
    Distributes(n as real, grown as real, factor);
    if next >= 2 * n { RealMulMonotone(factor, n as real, grown as real); } else { RealMulMonotone(factor, 8.0, grown as real); }
  }

  lemma Distributes(x: real, y: real, factor: real)
    ensures (x + y) * factor == x * factor + y * factor
  {
  }

  /** A table with elements grows by at least as much as it had, or by eight. */
  lemma GrowsEnough(p: GrowthPolicy, n: nat, next: nat, size: nat, factor: real)
    requires p.Serves(n) && p.Follows(n, next) && Fits(size, n, factor) && size > 0 && 0.2 <= factor <= 0.95
    ensures n > 0 && if p.PowerOfTwo? then next >= 2 * n else next >= n + 8
  {
    assert n > 1 by { OneBucketHoldsNothing(size, n, factor); }
    hide Fits;
    match p
    case PowerOfTwo(growth, _) => MulMonotone(2, growth, n);
    case PrimeTable(iprime) => PrimeGrows(n, next, iprime);
  }

  lemma OneBucketHoldsNothing(size: nat, n: nat, factor: real)
    requires Fits(size, n, factor) && size > 0 && 0.2 <= factor <= 0.95
    ensures n > 1
  {
    if n <= 1 { RealMulMonotone(factor, n as real, 1.0); }
  }

  lemma PrimeGrows(n: nat, next: nat, i: nat)
    requires i < |PRIMES| && n == PRIMES[i] && n > 1 && next in PRIMES && next > n
    ensures next >= n + 8
  {
    PrimesAbove(i);
    assert i > 0;
    if i + 1 < |PRIMES| { PrimesApart(i); }
  }

  /** What an insertion does to the bucket count, from before to after; size counts the new element. The table
      grows if it is told to, or if the element would be too much; otherwise, if it is told to shrink, it gets
      the fewest buckets on offer in which all fit; otherwise nothing changes. */
  ghost predicate Resized(p: GrowthPolicy, before: nat, after: nat, size: nat, factor: real, grow: bool, shrink: bool) {
    if grow || !Fits(size, before, factor) then p.Follows(before, after)
    else if shrink then Fits(size, after, factor) && forall k: nat | p.Offers(k) && Fits(size, k, factor) :: after <= k
    else after == before
  }

  lemma NeverSmaller(p: GrowthPolicy, before: nat, after: nat, size: nat, factor: real, grow: bool)
    requires p.Serves(before) && Resized(p, before, after, size, factor, grow, false)
    ensures after >= before
  {
    if p.Follows(before, after) { FollowsIsOffered(p, before, after); }
  }

  /** If the elements fitted before an insertion they fit after it, but in a table too small for a single one. */
  lemma ResizedFits(p: GrowthPolicy, before: nat, after: nat, size: nat, factor: real, grow: bool, shrink: bool)
    requires 0.2 <= factor <= 0.95 && p.Serves(before) && Resized(p, before, after, size + 1, factor, grow, shrink)
    requires Fits(size, before, factor)
    ensures Fits(size + 1, after, factor) <==> Fits(1, after, factor)
  {
    if grow || !Fits(size + 1, before, factor) { GrownFits(p, before, after, size, factor); }
  }

  /** In a table of two buckets with the smallest load factor, already the first element is too much. */
  lemma TooSmallForOne()
    ensures PowerOfTwo(2, 0).Serves(0) && PowerOfTwo(2, 0).Follows(0, 2)
    ensures Fits(0, 0, 0.2) && !Fits(1, 2, 0.2)
  {
    assert Pow2(0) == 1 && Pow2(1) == 2;
  }

  lemma HalfFull(size: nat, n: nat)
    ensures Fits(size, n, 0.5) <==> 2 * size <= n
  {
  }
}
