/** Unsigned machine words as naturals, with the bitwise operators of the source. */
module MachineBits {

  function Pow2(k: nat): (r: nat)
    ensures r > 0
  {
    if k == 0 then 1 else 2 * Pow2(k - 1)
  }

  /** v >> i */
  function Shr(v: nat, i: nat): (r: nat)
    ensures r <= v
  {
    if i == 0 then v else Shr(v / 2, i - 1)
  }

  function Bit(v: nat, j: nat): bool {
    if j == 0 then v % 2 == 1 else Bit(v / 2, j - 1)
  }

  function Or(a: nat, b: nat): nat {
    if a == 0 && b == 0 then 0
    else 2 * Or(a / 2, b / 2) + (if a % 2 == 1 || b % 2 == 1 then 1 else 0)
  }

  function And(a: nat, b: nat): nat {
    if a == 0 || b == 0 then 0
    else 2 * And(a / 2, b / 2) + (if a % 2 == 1 && b % 2 == 1 then 1 else 0)
  }

  lemma {:induction false} BitShr(v: nat, i: nat, j: nat)
    ensures Bit(Shr(v, i), j) == Bit(v, i + j)
  {
    if i > 0 {
      BitShr(v / 2, i - 1, j);
    }
  }

  lemma OrHalves(a: nat, b: nat)
    ensures Or(a, b) / 2 == Or(a / 2, b / 2)
    ensures Or(a, b) % 2 == if a % 2 == 1 || b % 2 == 1 then 1 else 0
  {
    var r := Or(a / 2, b / 2);
    assert (2 * r + 1) / 2 == r && (2 * r) / 2 == r;
  }

  lemma {:induction false} BitOr(a: nat, b: nat, j: nat)
    ensures Bit(Or(a, b), j) == (Bit(a, j) || Bit(b, j))
  {
    OrHalves(a, b);
    if j > 0 {
      BitOr(a / 2, b / 2, j - 1);
    }
  }

  lemma {:induction false} OrBelow(a: nat, b: nat, k: nat)
    requires a < Pow2(k) && b < Pow2(k)
    ensures Or(a, b) < Pow2(k)
  {
    if k > 0 {
      OrBelow(a / 2, b / 2, k - 1);
    }
  }

  lemma {:induction false} AllOnes(v: nat, k: nat)
    requires v < Pow2(k)
    requires forall j: nat | j < k :: Bit(v, j)
    ensures v == Pow2(k) - 1
  {
    if k > 0 {
      forall j: nat | j < k - 1
        ensures Bit(v / 2, j)
      {
        assert Bit(v, j + 1);
      }
      AllOnes(v / 2, k - 1);
      assert Bit(v, 0);
    }
  }

  lemma {:induction false} Pow2Monotone(i: nat, j: nat)
    ensures i <= j ==> Pow2(i) <= Pow2(j)
    ensures i < j ==> Pow2(i) < Pow2(j)
  {
    if j > 0 {
      Pow2Monotone(i, j - 1);
    }
  }

  lemma Double(h: nat, m: nat)
    requires m > 0
    ensures h % (2 * m) == 2 * ((h / 2) % m) + h % 2
  {
    var q, r := (h / 2) / m, (h / 2) % m;
    assert h == (2 * m) * q + (2 * r + h % 2);
    Remainder(h, 2 * m, q, 2 * r + h % 2);
  }

  lemma Remainder(h: int, m: nat, q: int, r: nat)
    requires h == m * q + r && r < m
    ensures h % m == r && h / m == q
  {
    var d := h / m - q;
    assert m * d == r - h % m by {
      assert h == m * (h / m) + h % m;
      assert m * (h / m) - m * q == m * d;
    }
    MulSign(m, d);
  }

  lemma MulSign(m: int, d: int)
    requires m > 0
    ensures d >= 1 ==> m * d >= m
    ensures d <= -1 ==> m * d <= 0 - m
  {
  }

  lemma AndOdd(h: nat, m: nat)
    requires m > 0
    ensures And(h, 2 * m - 1) == 2 * And(h / 2, m - 1) + h % 2
  {
    assert (2 * m - 1) / 2 == m - 1 && (2 * m - 1) % 2 == 1;
  }

  /** A mask of k low bits is a remainder modulo the k-th power of two. */
  lemma {:induction false} AndMask(h: nat, k: nat)
    ensures And(h, Pow2(k) - 1) == h % Pow2(k)
  {
    if k > 0 {
      AndMask(h / 2, k - 1);
      Double(h, Pow2(k - 1));
      AndOdd(h, Pow2(k - 1));
    }
  }

  lemma {:induction false} AndSelf(v: nat)
    ensures And(v, v) == v
  {
    if v > 0 {
      AndSelf(v / 2);
    }
  }

  ghost predicate IsPow2(v: nat) {
    exists k: nat :: v == Pow2(k)
  }

  lemma {:induction false} Pow2Sum(i: nat, j: nat)
    ensures Pow2(i) * Pow2(j) == Pow2(i + j)
  {
    if i > 0 {
      Pow2Sum(i - 1, j);
      TwiceProduct(Pow2(i - 1), Pow2(j));
    }
  }

  lemma TwiceProduct(a: nat, b: nat)
    ensures (2 * a) * b == 2 * (a * b)
  {
  }

  lemma ProductIsPow2(a: nat, b: nat)
    requires IsPow2(a) && IsPow2(b)
    ensures IsPow2(a * b)
  {
    var i: nat :| a == Pow2(i);
    var j: nat :| b == Pow2(j);
    Pow2Sum(i, j);
  }

  /** The source's test recognises exactly the powers of two. */
  predicate IsPowerOfTwo(v: nat) {
    v != 0 && And(v, v - 1) == 0
  }

  lemma {:induction false} PowerOfTwoTest(v: nat)
    ensures IsPowerOfTwo(v) <==> IsPow2(v)
  {
    if v == 1 {
      assert v == Pow2(0);
    } else if v > 0 && v % 2 == 1 {
      AndSelf(v / 2);
      assert (v - 1) / 2 == v / 2;
    } else if v > 0 {
      PowerOfTwoTest(v / 2);
      assert (v - 1) / 2 == v / 2 - 1;
      if k: nat :| v == Pow2(k) {
        assert v / 2 == Pow2(k - 1);
      }
      if k: nat :| v / 2 == Pow2(k) {
        assert v == Pow2(k + 1);
      }
    }
  }

  /** The highest i bits of the k-bit number v are set. */
  ghost predicate TopOnes(v: nat, k: nat, i: nat) {
    v < Pow2(k) && forall j: nat | j < k && k <= i + j :: Bit(v, j)
  }

  lemma SmearStep(v: nat, k: nat, i: nat)
    requires TopOnes(v, k, i)
    ensures TopOnes(Or(v, Shr(v, i)), k, 2 * i)
  {
    OrBelow(v, Shr(v, i), k);
    forall j: nat | j < k && k <= 2 * i + j
      ensures Bit(Or(v, Shr(v, i)), j)
    {
      BitOr(v, Shr(v, i), j);
      BitShr(v, i, j);
    }
  }

  lemma {:induction false} TopBit(v: nat) returns (k: nat)
    requires v > 0
    ensures k > 0 && Pow2(k - 1) <= v < Pow2(k) && Bit(v, k - 1)
  {
    if v == 1 {
      k := 1;
    } else {
      k := TopBit(v / 2);
      k := k + 1;
    }
  }

  /** The loop of shifts by 1, 2, 4 up to 32: every bit below the top one gets set. */
  method SmearTopBit(value: nat, ghost k: nat) returns (v: nat)
    requires TopOnes(value, k, 1) && k <= 64
    ensures v == Pow2(k) - 1
  {
    v := value;
    var i: nat := 1;
    while i < 64
      invariant i == 1 || i == 2 || i == 4 || i == 8 || i == 16 || i == 32 || i == 64
      invariant TopOnes(v, k, i)
      decreases 64 - i
    {
      SmearStep(v, k, i);
      v := Or(v, Shr(v, i));
      i := i * 2;
    }
    AllOnes(v, k);
  }

  /** Least power of two not below value, for every value the policy lets through (at most 2^63). */
  method RoundUpToPowerOfTwo(value: nat) returns (r: nat)
    requires value <= Pow2(63)
    ensures IsPow2(r) && value <= r
    ensures forall k: nat | value <= Pow2(k) :: r <= Pow2(k)
  {
    PowerOfTwoTest(value);
    if IsPowerOfTwo(value) {
      return value;
    }
    if value == 0 {
      assert Pow2(0) == 1;
      return 1;
    }
    assert value != 1 by { assert Pow2(0) == 1; }
    ghost var k: nat := TopBit(value - 1);
    Pow2Monotone(63, k - 1);
    var v := SmearTopBit(value - 1, k);
    LeastAbove(value - 1, k);
    r := v + 1;
  }

  lemma LeastAbove(v: nat, k: nat)
    requires k > 0 && Pow2(k - 1) <= v
    ensures forall m: nat | v < Pow2(m) :: Pow2(k) <= Pow2(m)
  {
    forall m: nat | v < Pow2(m)
      ensures Pow2(k) <= Pow2(m)
    {
      Pow2Monotone(k, m);
      Pow2Monotone(m, k - 1);
    }
  }
}

/** How bucket counts are chosen, and how a hash is turned into a bucket. */
module GrowthPolicies {
  import opened Wrappers
  import opened MachineBits

  const PRIMES: seq<nat> := [
    1, 5, 17, 29, 37, 53, 67, 79, 97, 131, 193, 257, 389, 521, 769, 1031,
    1543, 2053, 3079, 6151, 12289, 24593, 49157, 98317, 196613, 393241, 786433,
    1572869, 3145739, 6291469, 12582917, 25165843, 50331653, 100663319, 201326611,
    402653189, 805306457, 1610612741, 3221225473, 4294967291]

  /** power_of_two_growth_policy keeps a mask, prime_growth_policy the index of its prime. */
  datatype GrowthPolicy = PowerOfTwo(factor: nat, mask: nat) | PrimeTable(iprime: nat) {

    function MaxBucketCount(): nat {
      match this
      case PowerOfTwo(_, _) => Pow2(63)
      case PrimeTable(_) => PRIMES[|PRIMES| - 1]
    }

    function BucketForHash(hash: nat): nat
      requires WellFormed()
    {
      match this
      case PowerOfTwo(_, mask) => And(hash, mask)
      case PrimeTable(iprime) => hash % PRIMES[iprime]
    }

    /** The bucket count of the next growth, or None where the source throws. */
    function NextBucketCount(): Option<nat>
      requires WellFormed()
    {
      match this
      case PowerOfTwo(factor, mask) =>
        if mask + 1 > MaxBucketCount() / factor then None else Some((mask + 1) * factor)
      case PrimeTable(iprime) =>
        if iprime + 1 >= |PRIMES| then None else Some(PRIMES[iprime + 1])
    }

    ghost predicate WellFormed() {
      match this
      case PowerOfTwo(factor, mask) => factor >= 2 && IsPow2(factor) && IsPow2(mask + 1)
      case PrimeTable(iprime) => iprime < |PRIMES| && PRIMES[iprime] > 0
    }

    /** This policy was set up for a table of n buckets. */
    ghost predicate Serves(n: nat) {
      && WellFormed()
      && match this
         case PowerOfTwo(_, mask) => if n == 0 then mask == 0 else n == mask + 1
         case PrimeTable(iprime) => if n == 0 then iprime == 0 else n == PRIMES[iprime]
    }

    /** The same kind of policy, with the same growth factor. */
    predicate SameKind(other: GrowthPolicy) {
      && (PowerOfTwo? <==> other.PowerOfTwo?)
      && (PowerOfTwo? && other.PowerOfTwo? ==> factor == other.factor)
    }

    /** n is the least bucket count of this kind that is not below the one asked for: none for none. */
    ghost predicate Least(count: nat, n: nat) {
      && count <= n && (n == 0 <==> count == 0)
      && (n > 0 ==> Offers(n) && forall m: nat | Offers(m) && count <= m :: n <= m)
    }

    /** The bucket count that follows n: n times the factor, starting from one; or the next prime of the table,
        starting from the first one. */
    ghost predicate Follows(n: nat, next: nat) {
      match this
      case PowerOfTwo(factor, _) => next == if n == 0 then factor else n * factor
      case PrimeTable(_) =>
        next in PRIMES && next > n && next > PRIMES[0] && forall p | p in PRIMES && p > n && p > PRIMES[0] :: next <= p
    }

    /** The counts a policy of this kind hands out. */
    ghost predicate Offers(n: nat) {
      match this
      case PowerOfTwo(_, _) => IsPow2(n)
      case PrimeTable(_) => n in PRIMES
    }
  }

  lemma PrimesAscend(i: nat)
    requires i + 1 < |PRIMES|
    ensures 0 < PRIMES[i] < PRIMES[i + 1]
  {
  }

  lemma {:induction false} PrimesSorted(i: nat, j: nat)
    requires i <= j < |PRIMES|
    ensures 0 < PRIMES[i] <= PRIMES[j]
    decreases j - i
  {
    if i < j {
      PrimesAscend(i);
      PrimesSorted(i + 1, j);
    } else if i > 0 {
      PrimesAscend(i - 1);
    }
  }

  /** Every hash lands in the bucket that is its remainder modulo the bucket count. */
  lemma BucketIsRemainder(p: GrowthPolicy, hash: nat, n: nat)
    requires p.Serves(n)
    ensures n == 0 ==> p.BucketForHash(hash) == 0
    ensures n > 0 ==> p.BucketForHash(hash) == hash % n < n
  {
    match p
    case PowerOfTwo(_, mask) =>
      var k: nat :| mask + 1 == Pow2(k);
      AndMask(hash, k);
    case PrimeTable(iprime) =>
  }

  /** The hash kept in a bucket, cut to 32 bits, still selects the bucket of the full hash as long as
      bucket_count - 1 fits in 32 bits. */
  lemma TruncatedHashSuffices(hash: nat, n: nat)
    requires IsPow2(n) && n - 1 <= Pow2(32) - 1
    ensures (hash % Pow2(32)) % n == hash % n
  {
    var k: nat :| n == Pow2(k);
    if k > 32 { Pow2Monotone(32, k); }
    AndMask(hash, k);
    RemainderOfRemainder(hash, k, 32);
  }

  lemma {:induction false} RemainderOfRemainder(h: nat, k: nat, m: nat)
    requires k <= m
    ensures (h % Pow2(m)) % Pow2(k) == h % Pow2(k)
  {
    if k > 0 {
      var big, small := Pow2(m - 1), Pow2(k - 1);
      Double(h, big);
      Double(h, small);
      var r := h % (2 * big);
      Halves(r, (h / 2) % big, h % 2);
      Double(r, small);
      RemainderOfRemainder(h / 2, k - 1, m - 1);
    }
  }

  lemma Halves(x: nat, q: nat, r: nat)
    requires x == 2 * q + r && r < 2
    ensures x / 2 == q && x % 2 == r
  {
  }

  /** A growing table really grows. */
  lemma NextBucketCountGrows(p: GrowthPolicy, n: nat)
    requires p.Serves(n) && p.NextBucketCount().Some?
    ensures p.NextBucketCount().value > n && p.NextBucketCount().value >= 2
    ensures p.NextBucketCount().value <= p.MaxBucketCount()
  {
    match p
    case PowerOfTwo(factor, mask) =>
      QuotientBound(mask + 1, factor, p.MaxBucketCount());
    case PrimeTable(iprime) =>
      PrimesAscend(iprime);
      PrimesSorted(iprime + 1, |PRIMES| - 1);
  }

  /** The next bucket count, and when there is none. */
  lemma NextBucketCountFollows(p: GrowthPolicy, n: nat)
    requires p.Serves(n)
    ensures p.NextBucketCount().Some? ==> p.Follows(n, p.NextBucketCount().value)
    ensures p.NextBucketCount().None? <==>
            match p
            case PowerOfTwo(factor, _) => (if n == 0 then factor else n * factor) > p.MaxBucketCount()
            case PrimeTable(_) => forall q | q in PRIMES :: q <= n
  {
    match p
    case PowerOfTwo(factor, mask) =>
      QuotientIff(mask + 1, factor, p.MaxBucketCount());
    case PrimeTable(iprime) => NextPrimeFollows(iprime, n);
  }

  lemma NextPrimeFollows(i: nat, n: nat)
    requires PrimeTable(i).Serves(n)
    ensures i + 1 < |PRIMES| ==> PrimeTable(i).Follows(n, PRIMES[i + 1])
    ensures i + 1 >= |PRIMES| <==> forall q | q in PRIMES :: q <= n
  {
    PrimesAbove(i);
    PrimesSorted(0, i);
  }

  /** The primes above the one at index i begin with the next one. */
  lemma PrimesAbove(i: nat)
    requires i < |PRIMES|
    ensures i + 1 < |PRIMES| ==> PRIMES[i + 1] in PRIMES && PRIMES[i + 1] > PRIMES[i] && forall q | q in PRIMES && q > PRIMES[i] :: PRIMES[i + 1] <= q
    ensures i + 1 == |PRIMES| ==> forall q | q in PRIMES :: q <= PRIMES[i]
  {
    if i + 1 < |PRIMES| { PrimesAscend(i); }
    forall j | 0 <= j < |PRIMES|
      ensures j <= i ==> PRIMES[j] <= PRIMES[i]
      ensures j > i ==> PRIMES[j] >= PRIMES[i + 1]
    {
      if j <= i { PrimesSorted(j, i); } else { PrimesSorted(i + 1, j); }
    }
  }

  /** Such a count is one that the policy hands out. */
  /** The largest counts: the highest bit of a 64-bit word, and the last prime of the table. */
  lemma LargestCounts(p: GrowthPolicy)
    ensures p.MaxBucketCount() == if p.PowerOfTwo? then 9223372036854775808 else 4294967291
  {
    assert Pow2(7) == 128 && Pow2(8) == 256;
    Pow2Sum(8, 8);
    Pow2Sum(16, 8);
    Pow2Sum(24, 7);
    Pow2Sum(31, 32);
    Pow2Sum(16, 16);
  }

  lemma FollowsIsOffered(p: GrowthPolicy, n: nat, next: nat)
    requires p.Serves(n) && p.Follows(n, next)
    ensures next > n && p.Offers(next)
  {
    match p
    case PowerOfTwo(factor, _) =>
      if n > 0 {
        hide IsPow2;
        ProductIsPow2(n, factor);
        MulMonotone(2, factor, n);
      }
    case PrimeTable(_) =>
  }

  lemma OfferedIsLeast(p: GrowthPolicy, count: nat, n: nat)
    requires p.Offers(count) && p.Least(count, n)
    ensures n == count
  {
    hide GrowthPolicy.Offers;
  }

  lemma QuotientIff(a: nat, factor: nat, top: nat)
    requires factor > 0
    ensures a > top / factor <==> a * factor > top
  {
    assert top == factor * (top / factor) + top % factor;
    if a <= top / factor {
      MulMonotone(a, top / factor, factor);
    } else {
      MulMonotone(top / factor + 1, a, factor);
    }
  }

  /** Between two primes of the table lie at least eight numbers, but for the first two. */
  lemma PrimesApart(i: nat)
    requires 1 <= i && i + 1 < |PRIMES|
    ensures PRIMES[i] >= 5 && PRIMES[i + 1] >= PRIMES[i] + 8
  {
  }

  lemma QuotientBound(a: nat, factor: nat, top: nat)
    requires factor >= 2 && a <= top / factor
    ensures 2 * a <= a * factor <= top
  {
    assert top == factor * (top / factor) + top % factor;
    MulMonotone(a, top / factor, factor);
    MulMonotone(2, factor, a);
  }

  lemma MulMonotone(a: nat, b: nat, c: nat)
    requires a <= b
    ensures a * c <= b * c
  {
  }

  /** std::lower_bound: the first position from i on that is not below x. */
  function LowerBound(s: seq<nat>, x: nat, i: nat): (r: nat)
    requires i <= |s|
    ensures i <= r <= |s|
    ensures r < |s| ==> x <= s[r]
    ensures forall j | i <= j < r :: s[j] < x
    decreases |s| - i
  {
    if i == |s| || x <= s[i] then i else LowerBound(s, x, i + 1)
  }

  /** The policy's constructor: None where it throws, otherwise the policy and the least bucket count
      it offers that is not below the one asked for (none at all for none asked). */
  method CreatePolicy(kind: GrowthPolicy, count: nat) returns (r: Option<(GrowthPolicy, nat)>)
    requires kind.WellFormed()
    ensures r.None? <==> count > kind.MaxBucketCount()
    ensures r.Some? ==>
              var (p, n) := r.value;
              p.Serves(n) && p.SameKind(kind) && kind.Least(count, n)
  {
    match kind
    case PowerOfTwo(factor, _) =>
      if count > kind.MaxBucketCount() {
        return None;
      }
      if count > 0 {
        var n := RoundUpToPowerOfTwo(count);
        assert n - 1 + 1 == n;
        return Some((PowerOfTwo(factor, n - 1), n));
      } else {
        assert Pow2(0) == 1;
        return Some((PowerOfTwo(factor, 0), 0));
      }
    case PrimeTable(_) =>
      var i := LowerBound(PRIMES, count, 0);
      if i == |PRIMES| {
        return None;
      }
      PrimesSorted(i, |PRIMES| - 1);
      forall m | m in PRIMES && count <= m
        ensures PRIMES[i] <= m
      {
        var j :| 0 <= j < |PRIMES| && PRIMES[j] == m;
        PrimesSorted(i, j);
      }
      return Some((PrimeTable(i), if count > 0 then PRIMES[i] else 0));
  }
}
