/** The Robin Hood hash table, updated in place. */
module RobinHashTable {
  import opened Wrappers
  import opened Cyclic
  import opened FiniteSets
  import opened MachineBits
  import opened GrowthPolicies
  import opened LoadFactors
  import opened RobinHoodLayout

  const REHASH_ON_HIGH_NB_PROBES_NPROBES := 128
  const REHASH_ON_HIGH_NB_PROBES_MIN_LOAD_FACTOR := 0.15

  /** The keys' homes in a table of n buckets, and the 32 bits of the hash kept with them. */
  ghost function HashingFor<K>(hash: K -> nat, n: nat): Hashing<K> {
    Hashing(k => if n == 0 then 0 else hash(k) % n, k => hash(k) % Pow2(32))
  }

  lemma RemainderOfNext(i: nat, n: nat)
    requires i < n
    ensures (i + 1) % n == Next(i, n)
  {
  }

  lemma SomeEmptyBucket<K, V>(b: seq<Bucket<K, V>>, f: Hashing<K>, slot: map<K, nat>) returns (q: nat)
    requires RobinHood(b, f) && Indexed(b, slot) && |slot| < |b|
    ensures EmptyAt(b, q)
  {
    q := SomeEmpty(b, f, slot);
  }

  lemma ProbeStartsCarrying<K, V>(b: seq<Bucket<K, V>>, f: Hashing<K>, slot: map<K, nat>, kv: (K, V), h: nat)
    requires RobinHood(b, f) && Indexed(b, slot)
    requires kv.0 !in slot && f.home(kv.0) < |b| && h == f.stamp(kv.0)
    ensures Carrying(b, f, slot, kv, h, f.home(kv.0), 0)
  {
    ProbeStart(b, f, slot, kv.0);
  }

  /** next_bucket: masked for powers of two, compared otherwise. */
  function NextUnder(p: GrowthPolicy, i: nat, n: nat): (r: nat)
    requires p.Serves(n) && i < n
    ensures r == Next(i, n)
  {
    if p.PowerOfTwo? then
      BucketIsRemainder(p, i + 1, n);
      RemainderOfNext(i, n);
      And(i + 1, p.mask)
    else if i + 1 != n then i + 1 else 0
  }

  /** The growth policy, or the allocator, cannot provide count buckets: the source throws length_error. */
  ghost predicate Refused(kind: GrowthPolicy, count: nat, maxAllocation: nat) {
    || count > kind.MaxBucketCount()
    || (count > 0 && forall m: nat | kind.Offers(m) && count <= m :: m > maxAllocation)
  }

  lemma EmptyTable<K, V>(b: seq<Bucket<K, V>>, f: Hashing<K>)
    requires |b| > 0 && forall i | 0 <= i < |b| :: b[i] == Bucket(-1, i == |b| - 1, 0, None)
    ensures RobinHood(b, f) && Indexed(b, map[]) && Contents(b, map[]) == map[]
  {
  }

  lemma GoodAt<K, V>(b: seq<Bucket<K, V>>, j: nat, f: Hashing<K>)
    requires RobinHood(b, f) && j < |b|
    ensures GoodBucket(b[j], j, |b|, f)
  {
  }

  lemma ContentsKeys<K, V>(b: seq<Bucket<K, V>>, slot: map<K, nat>)
    requires Indexed(b, slot)
    ensures Contents(b, slot).Keys == slot.Keys && |Contents(b, slot)| == |slot|
  {
    assert |Contents(b, slot)| == |Contents(b, slot).Keys|;
  }

  lemma SomeElement<K, V>(slot: map<K, nat>, b: seq<Bucket<K, V>>, j: nat)
    requires Indexed(b, slot) && j < |b| && b[j].item.Some?
    ensures |slot| > 0
  {
    assert b[j].item.value.0 in slot;
  }

  lemma HoleClosed<K, V>(b: seq<Bucket<K, V>>, f: Hashing<K>, p: nat)
    requires HoleAt(b, f, p) && b[Next(p, |b|)].dist <= 0
    ensures RobinHood(b, f)
  {
    HoleCloses(b, f, p);
  }

  /** Between b0 and b an element has stolen a full bucket other than i0 after 128 probes or more. */
  ghost predicate StoleFar<K, V>(b0: seq<Bucket<K, V>>, b: seq<Bucket<K, V>>, i0: nat) {
    |b0| == |b| && exists x: nat :: x < |b| && StolenFar(b0, b, i0, x)
  }

  ghost predicate StolenFar<K, V>(b0: seq<Bucket<K, V>>, b: seq<Bucket<K, V>>, i0: nat, x: nat)
    requires x < |b0| == |b|
  {
    x != i0 && !b0[x].Empty() && b0[x].dist < b[x].dist && b[x].dist >= 128
  }

  /** The condition under which an insertion at i0 asks for growth: a steal after a long probe, in a table
      at least 15% full. */
  ghost predicate FarSteal<K, V>(load: real, b0: seq<Bucket<K, V>>, b: seq<Bucket<K, V>>, i0: nat) {
    load >= 0.15 && StoleFar(b0, b, i0)
  }

  /** Stealing only ever replaces an element by one farther from its home, in a bucket that was full before. */
  ghost predicate OnlySteals<K, V>(b0: seq<Bucket<K, V>>, b: seq<Bucket<K, V>>) {
    |b0| == |b| && forall x | 0 <= x < |b| :: b0[x].dist <= b[x].dist && (b[x].Empty() <==> b0[x].Empty())
  }

  lemma OneSteal<K, V>(b0: seq<Bucket<K, V>>, b: seq<Bucket<K, V>>, b': seq<Bucket<K, V>>, i0: nat, i: nat, d: nat)
    requires OnlySteals(b0, b) && i < |b| && !b[i].Empty() && d > b[i].dist && i != i0
    requires |b'| == |b| && b'[i].dist == d && !b'[i].Empty() && forall x | 0 <= x < |b| && x != i :: b'[x] == b[x]
    ensures OnlySteals(b0, b')
    ensures StoleFar(b0, b', i0) <==> StoleFar(b0, b, i0) || d >= REHASH_ON_HIGH_NB_PROBES_NPROBES
  {
    if d >= REHASH_ON_HIGH_NB_PROBES_NPROBES {
      assert StolenFar(b0, b', i0, i);
    } else {
      if x: nat :| x < |b| && StolenFar(b0, b, i0, x) {
        assert StolenFar(b0, b', i0, x);
      }
      if x: nat :| x < |b| && StolenFar(b0, b', i0, x) {
        assert StolenFar(b0, b, i0, x);
      }
    }
  }

  lemma FirstSteal<K, V>(b0: seq<Bucket<K, V>>, b: seq<Bucket<K, V>>, i0: nat, d: nat)
    requires |b| == |b0| && i0 < |b0| && !b0[i0].Empty() && d > b0[i0].dist
    requires b[i0].dist == d && !b[i0].Empty() && forall x | 0 <= x < |b| && x != i0 :: b[x] == b0[x]
    ensures OnlySteals(b0, b) && !StoleFar(b0, b, i0)
  {
  }

  lemma LastPlaced<K, V>(b0: seq<Bucket<K, V>>, b: seq<Bucket<K, V>>, b': seq<Bucket<K, V>>, i0: nat, i: nat)
    requires OnlySteals(b0, b) && i < |b| == |b'| && b[i].Empty() && forall x | 0 <= x < |b| && x != i :: b'[x] == b[x]
    ensures StoleFar(b0, b', i0) <==> StoleFar(b0, b, i0)
  {
    if x: nat :| x < |b| && StolenFar(b0, b, i0, x) {
      assert StolenFar(b0, b', i0, x);
    }
    if x: nat :| x < |b| && StolenFar(b0, b', i0, x) {
      assert StolenFar(b0, b, i0, x);
    }
  }

  /** Filling an empty bucket steals nothing. */
  lemma OnlyPlaced<K, V>(b0: seq<Bucket<K, V>>, b: seq<Bucket<K, V>>, i0: nat)
    requires |b| == |b0| && forall x | 0 <= x < |b| && x != i0 :: b[x] == b0[x]
    ensures !StoleFar(b0, b, i0)
  {
  }

  /** A stored key gets another value. */
  lemma ValueReplaced<K, V>(b: seq<Bucket<K, V>>, f: Hashing<K>, slot: map<K, nat>, i: nat, value: V)
    requires RobinHood(b, f) && Indexed(b, slot) && i < |b| && b[i].item.Some?
    ensures var key, b' := b[i].item.value.0, b[i := b[i].(item := Some((b[i].item.value.0, value)))];
            RobinHood(b', f) && Indexed(b', slot) && Contents(b', slot) == Contents(b, slot)[key := value]
  {
    var b' := b[i := b[i].(item := Some((b[i].item.value.0, value)))];
    forall x | 0 <= x < |b|
      ensures GoodBucket(b'[x], x, |b|, f)
      ensures b'[Next(x, |b|)].dist <= b'[x].dist + 1
    {
      assert GoodBucket(b[x], x, |b|, f) && b[Next(x, |b|)].dist <= b[x].dist + 1;
    }
    assert Contents(b', slot) == Contents(b, slot)[b[i].item.value.0 := value];
  }

  /** The map after inserting a range: the first value for each key stays. */
  ghost function AllInserted<K, V>(m: map<K, V>, items: seq<(K, V)>): map<K, V> {
    if items == [] then m
    else
      var m', kv := AllInserted(m, items[..|items| - 1]), items[|items| - 1];
      if kv.0 in m' then m' else m'[kv.0 := kv.1]
  }

  lemma OneMoreInserted<K, V>(m: map<K, V>, items: seq<(K, V)>, i: nat)
    requires i < |items|
    ensures var m', kv := AllInserted(m, items[..i]), items[i];
            AllInserted(m, items[..i + 1]) == if kv.0 in m' then m' else m'[kv.0 := kv.1]
  {
    assert items[..i + 1][..i] == items[..i];
  }

  /** No element before pos is one the loop drops. */
  ghost predicate NoneDropped<K, V>(b: seq<Bucket<K, V>>, drop: (K, V) -> bool, pos: nat) {
    pos <= |b| && forall x | 0 <= x < pos && b[x].item.Some? :: !drop(b[x].item.value.0, b[x].item.value.1)
  }

  lemma DroppedNext<K, V>(b: seq<Bucket<K, V>>, b': seq<Bucket<K, V>>, drop: (K, V) -> bool, pos: nat, next: nat)
    requires NoneDropped(b, drop, pos) && KeptBefore(b, b', pos)
    requires pos <= next <= |b| && forall x | pos <= x < next :: b'[x].item.None?
    ensures NoneDropped(b', drop, next)
  {
    forall x | 0 <= x < next && b'[x].item.Some?
      ensures !drop(b'[x].item.value.0, b'[x].item.value.1)
    {
      assert x < pos;
      assert x + 1 < pos && b[x + 1].item.Some? ==> !drop(b[x + 1].item.value.0, b[x + 1].item.value.1);
    }
  }

  lemma ClearedTable<K, V>(b: seq<Bucket<K, V>>, c: seq<Bucket<K, V>>, f: Hashing<K>, slot: map<K, nat>, j: nat)
    requires RobinHood(b, f) && Indexed(b, slot) && ClearedRange(b, c, 0, j)
    requires j == |b| || |slot| == 0
    ensures RobinHood(c, f) && Indexed(c, map[]) && Contents(c, map[]) == map[]
  {
    forall x | 0 <= x < |c|
      ensures GoodBucket(c[x], x, |c|, f) && c[x].Empty()
    {
      assert GoodBucket(b[x], x, |b|, f);
      assert |slot| == 0 ==> b[x].item.None? by { if b[x].item.Some? { assert b[x].item.value.0 in slot; } }
    }
  }

  /** What a partial run of the loop has left: all the elements it must keep, and no others than it had. */
  ghost predicate Remaining<K, V>(m: map<K, V>, m': map<K, V>, drop: (K, V) -> bool) {
    && (forall k | k in m' :: k in m && m'[k] == m[k])
    && (forall k | k in m && !drop(k, m[k]) :: k in m')
  }

  lemma StoredInModel<K, V>(b: seq<Bucket<K, V>>, slot: map<K, nat>, x: nat)
    requires Indexed(b, slot) && x < |b| && b[x].item.Some?
    ensures b[x].item.value.0 in Contents(b, slot) && Contents(b, slot)[b[x].item.value.0] == b[x].item.value.1
  {
  }

  lemma AllDropped<K, V>(b: seq<Bucket<K, V>>, slot: map<K, nat>, drop: (K, V) -> bool, m: map<K, V>, pos: nat)
    requires Indexed(b, slot) && NoneDropped(b, drop, pos) && Remaining(m, Contents(b, slot), drop)
    requires pos == |b| || |slot| == 0
    ensures Contents(b, slot) == map k | k in m && !drop(k, m[k]) :: m[k]
  {
    forall k | k in Contents(b, slot)
      ensures !drop(k, m[k])
    {
      assert b[slot[k]].item.value == (k, m[k]);
    }
  }

  lemma SlotsOutsideNone<K>(slot: map<K, nat>, first: nat)
    ensures SlotsOutside(slot, first, first) == slot
  {
  }

  lemma SlotsOutsideFewer<K>(slot: map<K, nat>, first: nat, last: nat)
    ensures |SlotsOutside(slot, first, last)| <= |slot|
  {
    SubsetCount(SlotsOutside(slot, first, last).Keys, slot.Keys);
  }

  lemma ContentsOutsideNone<K, V>(b: seq<Bucket<K, V>>, slot: map<K, nat>, first: nat)
    requires Indexed(b, slot)
    ensures ContentsOutside(b, slot, first, first) == Contents(b, slot)
  {
  }

  /** The array after a range erase: valid exactly for detached ranges, and otherwise missing an element. */
  lemma RangeShiftSettled<K, V>(b: seq<Bucket<K, V>>, c: seq<Bucket<K, V>>, f: Hashing<K>, first: nat, last: nat, closer: nat, to: nat, q: nat)
    requires RobinHood(b, f) && EmptyAt(b, q) && first < last
    requires RangeShifting(b, c, f, first, last, closer, to)
    requires forall j | last <= j < to :: b[j].dist > 0
    requires to == |b| || c[to].dist <= 0
    ensures |c| == |b| && (RobinHood(c, f) <==> RangeDetached(b, first, last))
    ensures !RangeDetached(b, first, last) ==>
              c[0].item.Some? && f.home(c[0].item.value.0) < |c| && !Findable(c, f, 0)
  {
    RangeShiftEnds(b, c, f, first, last, closer, to, q);
    if !RangeDetached(b, first, last) {
      LostAtTheStart(c, f);
    }
  }

  lemma RangeAt<K, V>(b: seq<Bucket<K, V>>, c: seq<Bucket<K, V>>, f: Hashing<K>, first: nat, last: nat, closer: nat, to: nat)
    requires RobinHood(b, f) && last < |b| && RangeShifting(b, c, f, first, last, closer, to)
    ensures first <= closer < to <= |b| == |c| && last <= to
    ensures (closer == first <==> to == last) && b[last].dist >= -1 && (b[last].dist == -1 <==> b[last].item.None?)
    ensures to < |b| ==> c[to] == b[to]
    ensures forall x | closer <= x < to :: c[x].item.None?
  {
    assert GoodBucket(b[last], last, |b|, f);
    forall x | closer <= x < to
      ensures c[x].item.None?
    {
      assert GoodBucket(c[x], x, |c|, f);
    }
  }

  /** The elements found in the first j buckets. */
  ghost function FirstBuckets<K, V>(b: seq<Bucket<K, V>>, slot: map<K, nat>, j: nat): map<K, V>
    requires Indexed(b, slot)
  {
    map k | k in slot && slot[k] < j :: b[slot[k]].item.value.1
  }

  lemma FirstBucketsNext<K, V>(b: seq<Bucket<K, V>>, slot: map<K, nat>, j: nat)
    requires Indexed(b, slot) && j < |b|
    ensures b[j].item.None? ==> FirstBuckets(b, slot, j + 1) == FirstBuckets(b, slot, j)
    ensures b[j].item.Some? ==> b[j].item.value.0 !in FirstBuckets(b, slot, j)
    ensures b[j].item.Some? ==> FirstBuckets(b, slot, j + 1) == FirstBuckets(b, slot, j)[b[j].item.value.0 := b[j].item.value.1]
  {
  }

  lemma FewerFirst<K, V>(b: seq<Bucket<K, V>>, slot: map<K, nat>, j: nat, c: seq<Bucket<K, V>>, s: map<K, nat>)
    requires Indexed(b, slot) && Indexed(c, s) && Contents(c, s) == FirstBuckets(b, slot, j)
    ensures s.Keys == FirstBuckets(b, slot, j).Keys && |s| <= |slot|
    ensures (forall k | k in slot :: slot[k] < j) ==> Contents(c, s) == Contents(b, slot) && |s| == |slot|
  {
    assert s.Keys == Contents(c, s).Keys;
    SubsetCount(s.Keys, slot.Keys);
    assert (forall k | k in slot :: slot[k] < j) ==> s.Keys == slot.Keys;
  }

  /** Rehashing from the stored hash sends a key where its full hash would. */
  lemma StoredHashAgrees(p: GrowthPolicy, h: nat, n: nat)
    requires p.Serves(n) && p.PowerOfTwo? && n > 0 && n - 1 <= Pow2(32) - 1
    ensures p.BucketForHash(h % Pow2(32)) == h % n
    ensures (h % Pow2(32)) % Pow2(32) == h % Pow2(32)
  {
    BucketIsRemainder(p, h % Pow2(32), n);
    TruncatedHashSuffices(h, n);
    RemainderOfRemainder(h, 32, 32);
  }

  class RobinHash<K(==), V> {
    const hash: K -> nat
    const storeHash: bool
    const lookupByHash: bool
    const maxAllocation: nat

    var policy: GrowthPolicy
    var buckets: array<Bucket<K, V>>
    var bucketCount: nat
    var nbElements: nat
    var loadThreshold: nat
    var maxLoadFactor: real
    var minLoadFactor: real
    var growOnNextInsert: bool
    var tryShrinkOnNextInsert: bool
    ghost var slot: map<K, nat>

    /** A table without buckets points to one static empty bucket. */
    ghost predicate Valid()
      reads this, buckets
    {
      && policy.Serves(bucketCount)
      && buckets.Length == (if bucketCount == 0 then 1 else bucketCount)
      && RobinHood(buckets[..], HashingFor(hash, bucketCount))
      && Indexed(buckets[..], slot)
      && nbElements == |slot| < buckets.Length
      && ValidFactors()
    }

    ghost predicate ValidFactors()
      reads this
    {
      && MINIMUM_MAX_LOAD_FACTOR <= maxLoadFactor <= MAXIMUM_MAX_LOAD_FACTOR
      && MINIMUM_MIN_LOAD_FACTOR <= minLoadFactor <= MAXIMUM_MIN_LOAD_FACTOR
      && loadThreshold == Threshold(bucketCount, maxLoadFactor)
    }

    /** The finite map the table stands for. */
    ghost function Model(): map<K, V>
      requires Indexed(buckets[..], slot)
      reads this, buckets
    {
      Contents(buckets[..], slot)
    }

    // -------------------------------------------------------------- bucket arithmetic

    /** bucket_for_hash */
    function BucketFor(h: nat): (i: nat)
      requires policy.Serves(bucketCount)
      reads this
      ensures i == if bucketCount == 0 then 0 else h % bucketCount
    {
      BucketIsRemainder(policy, h, bucketCount);
      policy.BucketForHash(h)
    }

    function NextBucket(i: nat): (r: nat)
      requires policy.Serves(bucketCount) && i < bucketCount
      reads this
      ensures r == Next(i, bucketCount)
    {
      NextUnder(policy, i, bucketCount)
    }

    function LoadFactor(): real
      reads this
    {
      LoadOf(nbElements, bucketCount)
    }

    // -------------------------------------------------------------- lookup

    /** The search loop shared by find and insert: stops at the key, or at the first bucket whose
        resident is closer to its home than the key would be. */
    method Probe(key: K) returns (found: bool, i: nat, d: nat)
      requires Valid()
      ensures i < buckets.Length
      ensures found <==> key in slot
      ensures found ==> bucketCount > 0 && slot[key] == i && buckets[i].item == Some((key, Model()[key]))
      ensures !found ==> d > buckets[i].dist
      ensures Probing(buckets[..], HashingFor(hash, bucketCount), slot, key, i, d)
    {
      ghost var b, f := buckets[..], HashingFor(hash, bucketCount);
      ghost var q := SomeEmpty(b, f, slot);
      i, d := BucketFor(hash(key)), 0;
      ProbeStart(b, f, slot, key);
      while d <= buckets[i].dist
        invariant i < |b| && Probing(b, f, slot, key, i, d)
        decreases Dist(i, q, |b|)
      {
        assert GoodBucket(b[i], i, |b|, f);
        if (!lookupByHash || buckets[i].hash == hash(key) % Pow2(32)) && buckets[i].item.value.0 == key {
          return true, i, d;
        }
        Climb(b, q, i);
        ProbeStep(b, f, slot, key, i, d, q);
        i := NextBucket(i);
        d := d + 1;
      }
      ProbeStop(b, f, slot, key, i, d);
      found := false;
    }

    /** find: the bucket of the key, or the end position. */
    method Find(key: K) returns (pos: nat)
      requires Valid()
      ensures key in Model() ==> pos < bucketCount && buckets[pos].item == Some((key, Model()[key]))
      ensures key !in Model() ==> pos == bucketCount
    {
      var found, i, d := Probe(key);
      pos := if found then i else bucketCount;
    }

    // -------------------------------------------------------------- insertion

    /** swap_with_value_in_bucket: the carried element and the resident change places. */
    method SwapWithBucket(i: nat, d: nat, h: nat, kv: (K, V), ghost f: Hashing<K>, ghost q: nat)
      returns (d': nat, h': nat, kv': (K, V))
      requires RobinHood(buckets[..], f) && Indexed(buckets[..], slot) && EmptyAt(buckets[..], q)
      requires Carrying(buckets[..], f, slot, kv, h, i, d)
      requires !buckets[i].Empty() && d > buckets[i].dist
      modifies buckets, `slot
      ensures buckets[..] == old(buckets[..])[i := old(buckets[i]).Holding(d, h, kv)]
      ensures RobinHood(buckets[..], f) && Indexed(buckets[..], slot) && EmptyAt(buckets[..], q)
      ensures Carrying(buckets[..], f, slot, kv', h', Next(i, buckets.Length), d' + 1)
      ensures Model()[kv'.0 := kv'.1] == old(Model())[kv.0 := kv.1]
      ensures Dist(Next(i, buckets.Length), q, buckets.Length) < Dist(i, q, buckets.Length)
    {
      var resident := buckets[i];
      ghost var b, s := CarrySwap(buckets[..], f, slot, kv, h, i, d, q);
      assert GoodBucket(resident, i, buckets.Length, f) by { assert buckets[..][i] == resident; }
      buckets[i] := resident.Holding(d, h, kv);
      slot := s;
      assert buckets[..] == b;
      return resident.dist, resident.hash, resident.item.value;
    }

    /** set_value_of_empty_bucket */
    method PlaceInBucket(i: nat, d: nat, h: nat, kv: (K, V), ghost f: Hashing<K>)
      requires RobinHood(buckets[..], f) && Indexed(buckets[..], slot)
      requires Carrying(buckets[..], f, slot, kv, h, i, d) && buckets[i].Empty()
      modifies buckets, `slot
      ensures buckets[..] == old(buckets[..])[i := old(buckets[i]).Holding(d, h, kv)]
      ensures RobinHood(buckets[..], f) && Indexed(buckets[..], slot)
      ensures Model() == old(Model())[kv.0 := kv.1]
    {
      ghost var b, s := CarryPlace(buckets[..], f, slot, kv, h, i, d);
      buckets[i] := buckets[i].Holding(d, h, kv);
      slot := s;
      assert buckets[..] == b;
    }

    /** The growth flag is set when it was, or when an element has stolen a bucket after a long probe in a
        table that is not nearly empty. */
    ghost predicate GrowthFlagged(before: bool, b0: seq<Bucket<K, V>>, i0: nat)
      reads this, buckets
    {
      growOnNextInsert <==>
      before || (LoadFactor() >= 0.15 && StoleFar(b0, buckets[..], i0))
    }

    /** Body of the loop of insert_value_impl: the carried element steals a full bucket or goes past it. */
    method Displace(i: nat, d: nat, h: nat, kv: (K, V), ghost f: Hashing<K>, ghost q: nat, ghost before: bool, ghost b0: seq<Bucket<K, V>>, ghost i0: nat)
      returns (d': nat, h': nat, kv': (K, V))
      requires RobinHood(buckets[..], f) && Indexed(buckets[..], slot) && EmptyAt(buckets[..], q)
      requires Carrying(buckets[..], f, slot, kv, h, i, d) && !buckets[i].Empty() && i != i0
      requires OnlySteals(b0, buckets[..]) && GrowthFlagged(before, b0, i0)
      modifies buckets, `slot, `growOnNextInsert
      ensures RobinHood(buckets[..], f) && Indexed(buckets[..], slot) && EmptyAt(buckets[..], q)
      ensures Carrying(buckets[..], f, slot, kv', h', Next(i, buckets.Length), d' + 1)
      ensures Model()[kv'.0 := kv'.1] == old(Model())[kv.0 := kv.1]
      ensures Dist(Next(i, buckets.Length), q, buckets.Length) < Dist(i, q, buckets.Length)
      ensures OnlySteals(b0, buckets[..]) && GrowthFlagged(before, b0, i0)
      ensures forall x | 0 <= x < buckets.Length && x != i :: buckets[x] == old(buckets[x])
    {
      hide RobinHood, Indexed, Contents, OnlySteals, StoleFar;
      d', h', kv' := d, h, kv;
      if d > buckets[i].dist {
        if d >= REHASH_ON_HIGH_NB_PROBES_NPROBES && LoadFactor() >= REHASH_ON_HIGH_NB_PROBES_MIN_LOAD_FACTOR {
          growOnNextInsert := true;
        }
        ghost var b := buckets[..];
        d', h', kv' := SwapWithBucket(i, d, h, kv, f, q);
        OneSteal(b0, b, buckets[..], i0, i, d);
      } else {
        CarrySkip(buckets[..], f, slot, kv, h, i, d, q);
      }
    }

    /** Steals bucket i0 for kv0 and carries the displaced residents on to the next empty bucket. */
    method InsertValue(i0: nat, d0: nat, h0: nat, kv0: (K, V), ghost q: nat)
      requires policy.Serves(bucketCount) && buckets.Length == bucketCount
      requires RobinHood(buckets[..], HashingFor(hash, bucketCount)) && Indexed(buckets[..], slot) && EmptyAt(buckets[..], q)
      requires Carrying(buckets[..], HashingFor(hash, bucketCount), slot, kv0, h0, i0, d0)
      requires !buckets[i0].Empty() && d0 > buckets[i0].dist
      modifies buckets, `slot, `growOnNextInsert
      ensures RobinHood(buckets[..], HashingFor(hash, bucketCount)) && Indexed(buckets[..], slot)
      ensures Model() == old(Model())[kv0.0 := kv0.1]
      ensures buckets[i0].item == Some(kv0)
      ensures GrowthFlagged(old(growOnNextInsert), old(buckets[..]), i0)
    {
      hide RobinHood, Indexed, Contents, OnlySteals, StoleFar, HashingFor;
      ghost var b0, before := buckets[..], growOnNextInsert;
      ghost var f, n, goal := HashingFor(hash, bucketCount), bucketCount, Model()[kv0.0 := kv0.1];
      var d: nat, h: nat, kv := SwapWithBucket(i0, d0, h0, kv0, f, q);
      var i: nat := NextBucket(i0);
      FirstSteal(b0, buckets[..], i0, d0);
      d := d + 1;
      while !buckets[i].Empty()
        invariant i < n == buckets.Length && OnlySteals(b0, buckets[..]) && GrowthFlagged(before, b0, i0)
        invariant RobinHood(buckets[..], f) && Indexed(buckets[..], slot) && EmptyAt(buckets[..], q)
        invariant Carrying(buckets[..], f, slot, kv, h, i, d)
        invariant Model()[kv.0 := kv.1] == goal
        invariant Dist(i, q, n) < Dist(i0, q, n) && buckets[i0].item == Some(kv0)
        decreases Dist(i, q, n)
      {
        hide RobinHash.GrowthFlagged;
        d, h, kv := Displace(i, d, h, kv, f, q, before, b0, i0);
        i := NextBucket(i);
        d := d + 1;
      }
      ghost var b := buckets[..];
      PlaceInBucket(i, d, h, kv, f);
      LastPlaced(b0, b, buckets[..], i0, i);
    }

    // -------------------------------------------------------------- rehashing

    /** insert_value_on_rehash: one element finds its place in the new array a, from its home on. */
    static method InsertOnRehash(a: array<Bucket<K, V>>, home: nat, h0: nat, kv0: (K, V), p: GrowthPolicy,
                                 ghost f: Hashing<K>, ghost s0: map<K, nat>)
      returns (ghost s: map<K, nat>)
      requires RobinHood(a[..], f) && Indexed(a[..], s0) && |s0| < a.Length
      requires p.Serves(a.Length)
      requires kv0.0 !in s0 && home == f.home(kv0.0) < a.Length && h0 == f.stamp(kv0.0)
      modifies a
      ensures RobinHood(a[..], f) && Indexed(a[..], s)
      ensures Contents(a[..], s) == Contents(old(a[..]), s0)[kv0.0 := kv0.1]
    {
      hide RobinHood, Indexed, Contents;
      s := s0;
      ghost var n, goal := a.Length, Contents(a[..], s0)[kv0.0 := kv0.1];
      ghost var q := SomeEmptyBucket(a[..], f, s);
      ProbeStartsCarrying(a[..], f, s, kv0, h0);
      var i: nat, d: nat, h: nat, kv := home, 0, h0, kv0;
      while true
        invariant i < n
        invariant RobinHood(a[..], f) && Indexed(a[..], s) && EmptyAt(a[..], q)
        invariant Carrying(a[..], f, s, kv, h, i, d)
        invariant Contents(a[..], s)[kv.0 := kv.1] == goal
        decreases Dist(i, q, n)
      {
        if d > a[i].dist {
          if a[i].Empty() {
            ghost var b;
            b, s := CarryPlace(a[..], f, s, kv, h, i, d);
            a[i] := a[i].Holding(d, h, kv);
            assert a[..] == b;
            return;
          } else {
            ghost var b, s' := CarrySwap(a[..], f, s, kv, h, i, d, q);
            var resident := a[i];
            a[i] := resident.Holding(d, h, kv);
            s := s';
            assert a[..] == b;
            d, h, kv := resident.dist, resident.hash, resident.item.value;
          }
        } else {
          CarrySkip(a[..], f, s, kv, h, i, d, q);
        }
        d := d + 1;
        i := NextUnder(p, i, a.Length);
      }
    }

    static method NewBuckets(n: nat, ghost f: Hashing<K>) returns (a: array<Bucket<K, V>>)
      requires n > 0
      ensures fresh(a) && a.Length == n
      ensures RobinHood(a[..], f) && Indexed(a[..], map[]) && Contents(a[..], map[]) == map[]
    {
      a := new Bucket<K, V>[n](j => Bucket(-1, j == n - 1, 0, None));
      EmptyTable(a[..], f);
    }

    /** Body of the loop of rehash_impl: the element of bucket j goes to the new array, its home found
        from the stored hash when that is long enough. */
    method MoveElement(j: nat, a: array<Bucket<K, V>>, p: GrowthPolicy, ghost s: map<K, nat>) returns (ghost s': map<K, nat>)
      requires Valid() && a != buckets && p.Serves(a.Length) && |slot| < a.Length
      requires j < bucketCount && buckets[j].item.Some?
      requires RobinHood(a[..], HashingFor(hash, a.Length)) && Indexed(a[..], s)
      requires Contents(a[..], s) == FirstBuckets(buckets[..], slot, j)
      modifies a
      ensures RobinHood(a[..], HashingFor(hash, a.Length)) && Indexed(a[..], s')
      ensures Contents(a[..], s') == FirstBuckets(buckets[..], slot, j + 1)
    {
      ghost var b := buckets[..];
      GoodAt(b, j, HashingFor(hash, bucketCount));
      FirstBucketsNext(b, slot, j);
      FewerFirst(b, slot, j, a[..], s);
      hide RobinHood, Indexed, Contents, FirstBuckets;
      var n := a.Length;
      var kv := buckets[j].item.value;
      var useStoredHash := storeHash && p.PowerOfTwo? && n - 1 <= Pow2(32) - 1;
      var h := if useStoredHash then buckets[j].hash else hash(kv.0);
      if useStoredHash { StoredHashAgrees(p, hash(kv.0), n); } else { BucketIsRemainder(p, h, n); }
      s' := InsertOnRehash(a, p.BucketForHash(h), h % Pow2(32), kv, p, HashingFor(hash, n), s);
    }

    /** The loop of rehash_impl: every element is moved into a new array of n buckets. */
    method MoveElements(p: GrowthPolicy, n: nat) returns (a: array<Bucket<K, V>>, ghost s: map<K, nat>)
      requires Valid() && p.Serves(n) && (nbElements < n || nbElements == 0)
      ensures fresh(a) && a.Length == (if n == 0 then 1 else n)
      ensures RobinHood(a[..], HashingFor(hash, n)) && Indexed(a[..], s)
      ensures Contents(a[..], s) == Model() && |s| == |slot|
    {
      a := NewBuckets(if n == 0 then 1 else n, HashingFor(hash, n));
      s := map[];
      ghost var b := buckets[..];
      for j := 0 to bucketCount
        invariant RobinHood(a[..], HashingFor(hash, n)) && Indexed(a[..], s)
        invariant Contents(a[..], s) == FirstBuckets(b, slot, j)
        invariant buckets[..] == b
      {
        hide RobinHood, Indexed, Contents, FirstBuckets;
        GoodAt(b, j, HashingFor(hash, bucketCount));
        if buckets[j].Empty() {
          FirstBucketsNext(b, slot, j);
        } else {
          SomeElement(slot, b, j);
          s := MoveElement(j, a, p, s);
        }
      }
      FewerFirst(b, slot, bucketCount, a[..], s);
    }

    /** rehash_impl: builds a table of at least count buckets and moves every element into it. */
    method RehashImpl(count: nat) returns (ok: bool)
      requires Valid() && (nbElements < count || nbElements == 0)
      modifies this
      ensures Valid() && Model() == old(Model())
      ensures ok <==> !Refused(old(policy), count, maxAllocation)
      ensures !ok ==> unchanged(this)
      ensures ok ==> fresh(buckets) && old(policy).Least(count, bucketCount) && !growOnNextInsert && !tryShrinkOnNextInsert
      ensures policy.SameKind(old(policy))
      ensures maxLoadFactor == old(maxLoadFactor) && minLoadFactor == old(minLoadFactor) && nbElements == old(nbElements)
    {
      hide Threshold, RobinHood, Indexed, Contents, HashingFor, IsPow2, GrowthPolicy.Offers, GrowthPolicy.Least;
      var created := CreatePolicy(policy, count);
      if created.None? {
        return false;
      }
      var (p, n) := created.value;
      if n > maxAllocation && n > 0 {
        return false;
      }
      ghost var s;
      var a;
      a, s := MoveElements(p, n);
      policy, buckets, bucketCount, slot := p, a, n, s;
      growOnNextInsert, tryShrinkOnNextInsert := false, false;
      loadThreshold := Threshold(n, maxLoadFactor);
      ok := true;
    }

    /** rehash(count): never below what the elements need. */
    function BucketsNeeded(elements: nat): (c: nat)
      requires ValidFactors()
      reads this
      ensures c >= elements && (elements > 0 ==> c > elements)
      ensures Fits(elements, c, maxLoadFactor) && forall k: nat | Fits(elements, k, maxLoadFactor) :: c <= k
    {
      BucketsFor(elements, maxLoadFactor)
    }

    function RehashCount(count: nat): (c: nat)
      requires ValidFactors()
      reads this
      ensures count <= c && BucketsNeeded(nbElements) <= c
    {
      if count >= BucketsNeeded(nbElements) then count else BucketsNeeded(nbElements)
    }

    method Rehash(count: nat) returns (ok: bool)
      requires Valid()
      modifies this
      ensures Valid() && Model() == old(Model())
      ensures ok <==> !Refused(old(policy), old(RehashCount(count)), maxAllocation)
      ensures !ok ==> unchanged(this)
      ensures ok ==> fresh(buckets) && old(policy).Least(old(RehashCount(count)), bucketCount) && !growOnNextInsert && !tryShrinkOnNextInsert
      ensures policy.SameKind(old(policy))
      ensures maxLoadFactor == old(maxLoadFactor) && minLoadFactor == old(minLoadFactor) && nbElements == old(nbElements)
      ensures ok ==> count <= bucketCount && Fits(nbElements, bucketCount, maxLoadFactor)
      ensures ok ==> forall k: nat | (k == 0 || policy.Offers(k)) && count <= k && Fits(nbElements, k, maxLoadFactor) :: bucketCount <= k
    {
      ghost var policy0 := policy;
      ok := RehashImpl(RehashCount(count));
      if ok { LeastThatFits(policy0, count, nbElements, maxLoadFactor, bucketCount); }
    }

    method Reserve(count: nat) returns (ok: bool)
      requires Valid()
      modifies this
      ensures Valid() && Model() == old(Model())
      ensures ok <==> !Refused(old(policy), old(RehashCount(BucketsNeeded(count))), maxAllocation)
      ensures !ok ==> unchanged(this)
      ensures ok ==> fresh(buckets) && old(policy).Least(old(RehashCount(BucketsNeeded(count))), bucketCount) && !growOnNextInsert && !tryShrinkOnNextInsert
      ensures policy.SameKind(old(policy))
      ensures maxLoadFactor == old(maxLoadFactor) && minLoadFactor == old(minLoadFactor) && nbElements == old(nbElements)
      ensures ok ==> Fits(count, bucketCount, maxLoadFactor) && Fits(nbElements, bucketCount, maxLoadFactor)
      ensures ok ==>
                forall k: nat | (k == 0 || policy.Offers(k)) && Fits(count, k, maxLoadFactor) && Fits(nbElements, k, maxLoadFactor) :: bucketCount <= k
    {
      hide RobinHood, Indexed, Contents, HashingFor, Threshold, Fits;
      ghost var needed := BucketsNeeded(count);
      ok := Rehash(BucketsNeeded(count));
      if ok { FitsInMore(count, needed, bucketCount, maxLoadFactor); }
    }

    /** The next insertion grows the table. */
    predicate GrowthDue()
      reads this
    {
      growOnNextInsert || nbElements >= loadThreshold
    }

    /** The next insertion shrinks the table. */
    predicate ShrinkDue()
      reads this
    {
      !GrowthDue() && tryShrinkOnNextInsert && minLoadFactor != 0.0 && LoadFactor() < minLoadFactor
    }

    /** The rehash that is due cannot get the buckets it asks for: the source throws. */
    ghost predicate Stuck()
      requires policy.WellFormed() && ValidFactors()
      reads this
    {
      || (GrowthDue() && (policy.NextBucketCount().None? || Refused(policy, policy.NextBucketCount().value, maxAllocation)))
      || (ShrinkDue() && Refused(policy, RehashCount(BucketsNeeded(nbElements + 1)), maxAllocation))
    }

    /** The same, whether or not an element was erased since: what is left of Stuck after the flag that
        asks for shrinking has been taken back. */
    ghost predicate StuckWithoutFlag()
      requires policy.WellFormed() && ValidFactors()
      reads this
    {
      || (GrowthDue() && (policy.NextBucketCount().None? || Refused(policy, policy.NextBucketCount().value, maxAllocation)))
      || (!GrowthDue() && minLoadFactor != 0.0 && LoadFactor() < minLoadFactor
          && Refused(policy, RehashCount(BucketsNeeded(nbElements + 1)), maxAllocation))
    }

    /** The first half of rehash_on_extreme_load. */
    method Grow() returns (ok: bool)
      requires Valid() && GrowthDue()
      modifies this
      ensures Valid() && Model() == old(Model()) && nbElements == old(nbElements)
      ensures ok <==> old(policy.NextBucketCount().Some? && !Refused(policy, policy.NextBucketCount().value, maxAllocation))
      ensures !ok ==> unchanged(this)
      ensures ok ==>
                && fresh(buckets) && bucketCount > old(bucketCount) && nbElements + 1 < bucketCount
                && old(policy).Least(old(policy.NextBucketCount()).value, bucketCount) && old(policy).Follows(old(bucketCount), bucketCount)
                && !growOnNextInsert && !tryShrinkOnNextInsert
      ensures policy.SameKind(old(policy)) && maxLoadFactor == old(maxLoadFactor) && minLoadFactor == old(minLoadFactor)
    {
      hide RobinHood, Indexed, Contents, Threshold, Refused, HashingFor, IsPow2;
      var next := policy.NextBucketCount();
      if next.None? {
        return false;
      }
      NextBucketCountGrows(policy, bucketCount);
      NextBucketCountFollows(policy, bucketCount);
      FollowsIsOffered(policy, bucketCount, next.value);
      ghost var policy0 := policy;
      ok := RehashImpl(next.value);
      if ok {
        OfferedIsLeast(policy0, next.value, bucketCount);
        growOnNextInsert := false;
      }
    }

    /** rehash_on_extreme_load: None where the source throws. Afterwards one more element leaves a
        bucket empty. */
    method RehashOnExtremeLoad() returns (rehashed: Option<bool>)
      requires Valid()
      modifies this
      ensures Valid() && Model() == old(Model())
      ensures rehashed == None <==> old(Stuck())
      ensures rehashed == None ==> buckets == old(buckets) && bucketCount == old(bucketCount) && policy == old(policy) && StuckWithoutFlag()
      ensures rehashed == Some(true) ==> old(GrowthDue() || ShrinkDue()) && fresh(buckets)
      ensures rehashed == Some(true) && old(GrowthDue()) ==>
                && bucketCount > old(bucketCount) && old(policy.NextBucketCount()).Some?
                && old(policy).Least(old(policy.NextBucketCount()).value, bucketCount)
      ensures rehashed == Some(true) && old(ShrinkDue()) ==>
                old(policy).Least(old(RehashCount(BucketsNeeded(nbElements + 1))), bucketCount)
      ensures rehashed.Some? ==>
                Resized(old(policy), old(bucketCount), bucketCount, nbElements + 1, maxLoadFactor, old(growOnNextInsert),
                        old(tryShrinkOnNextInsert && minLoadFactor != 0.0 && LoadFactor() < minLoadFactor))
      ensures maxLoadFactor == old(maxLoadFactor) && minLoadFactor == old(minLoadFactor) && nbElements == old(nbElements)
      ensures rehashed.Some? ==> !growOnNextInsert && !tryShrinkOnNextInsert
      ensures policy.SameKind(old(policy))
      ensures rehashed == Some(false) ==> !old(GrowthDue() || ShrinkDue()) && buckets == old(buckets) && slot == old(slot) && bucketCount == old(bucketCount)
      ensures rehashed.Some? ==> bucketCount > 0 && nbElements + 1 < bucketCount
    {
      hide RobinHood, Indexed, Contents, Threshold, Refused, HashingFor, IsPow2, GrowthPolicy.Least, GrowthPolicy.Serves;
      if growOnNextInsert || nbElements >= loadThreshold {
        var ok := Grow();
        return if ok then Some(true) else None;
      }
      if tryShrinkOnNextInsert {
        tryShrinkOnNextInsert := false;
        if minLoadFactor != 0.0 && LoadFactor() < minLoadFactor {
          var ok := Reserve(nbElements + 1);
          return if ok then Some(true) else None;
        }
      }
      return Some(false);
    }

    /** The second search of insert_impl, for a key known to be absent. */
    method SeekPlace(key: K) returns (i: nat, d: nat)
      requires Valid() && key !in slot
      ensures Probing(buckets[..], HashingFor(hash, bucketCount), slot, key, i, d) && d > buckets[i].dist
    {
      ghost var b, f := buckets[..], HashingFor(hash, bucketCount);
      ghost var q := SomeEmpty(b, f, slot);
      i, d := BucketFor(hash(key)), 0;
      ProbeStart(b, f, slot, key);
      while d <= buckets[i].dist
        invariant i < |b| && Probing(b, f, slot, key, i, d)
        decreases Dist(i, q, |b|)
      {
        assert GoodBucket(b[i], i, |b|, f);
        Climb(b, q, i);
        ProbeStep(b, f, slot, key, i, d, q);
        i := NextBucket(i);
        d := d + 1;
      }
    }

    /** Bucket i gets the element, whether empty or stolen from its resident. */
    method PlaceOrSteal(i: nat, d: nat, h: nat, kv: (K, V), ghost q: nat)
      requires policy.Serves(bucketCount) && buckets.Length == bucketCount
      requires RobinHood(buckets[..], HashingFor(hash, bucketCount)) && Indexed(buckets[..], slot) && EmptyAt(buckets[..], q)
      requires Carrying(buckets[..], HashingFor(hash, bucketCount), slot, kv, h, i, d) && d > buckets[i].dist
      modifies buckets, `slot, `growOnNextInsert
      ensures RobinHood(buckets[..], HashingFor(hash, bucketCount)) && Indexed(buckets[..], slot)
      ensures Model() == old(Model())[kv.0 := kv.1]
      ensures buckets[i].item == Some(kv)
      ensures GrowthFlagged(old(growOnNextInsert), old(buckets[..]), i)
    {
      hide RobinHood, Indexed, Contents, StoleFar;
      if buckets[i].Empty() {
        ghost var b0 := buckets[..];
        PlaceInBucket(i, d, h, kv, HashingFor(hash, bucketCount));
        OnlyPlaced(b0, buckets[..], i);
      } else {
        InsertValue(i, d, h, kv, q);
      }
    }

    /** Body of insert_impl once the place is found. */
    method InsertAt(i: nat, d: nat, key: K, value: V)
      requires Valid() && key !in slot && bucketCount > 0 && nbElements + 1 < bucketCount
      requires Probing(buckets[..], HashingFor(hash, bucketCount), slot, key, i, d) && d > buckets[i].dist
      modifies buckets, `slot, `growOnNextInsert, `nbElements
      ensures Valid()
      ensures Model() == old(Model())[key := value] && nbElements == old(nbElements) + 1
      ensures buckets[i].item == Some((key, value))
      ensures growOnNextInsert <==> old(growOnNextInsert) || FarSteal(old(LoadFactor()), old(buckets[..]), buckets[..], i)
    {
      hide RobinHood, Indexed, Contents, Threshold, StoleFar;
      ContentsKeys(buckets[..], slot);
      ghost var q := SomeEmptyBucket(buckets[..], HashingFor(hash, bucketCount), slot);
      PlaceOrSteal(i, d, hash(key) % Pow2(32), (key, value), q);
      ContentsKeys(buckets[..], slot);
      assert |old(Model())[key := value]| == |old(Model())| + 1;
      nbElements := nbElements + 1;
    }

    /** insert and try_emplace: an existing key keeps its value; None where the source throws. before are
        the buckets just before the element is placed, after the rehash if there is one. */
    method Insert(key: K, value: V) returns (r: Option<(nat, bool)>, ghost before: seq<Bucket<K, V>>)
      requires Valid()
      modifies this, buckets
      ensures Valid() && (buckets == old(buckets) || fresh(buckets))
      ensures r == None <==> key !in old(Model()) && old(Stuck())
      ensures r == None ==> Model() == old(Model()) && nbElements == old(nbElements) && bucketCount == old(bucketCount) && policy == old(policy) && StuckWithoutFlag()
      ensures policy.SameKind(old(policy)) && maxLoadFactor == old(maxLoadFactor) && minLoadFactor == old(minLoadFactor)
      ensures r.Some? ==> (r.value.1 <==> key !in old(Model()))
      ensures r.Some? ==> Model() == if key in old(Model()) then old(Model()) else old(Model())[key := value]
      ensures r.Some? ==> r.value.0 < bucketCount && buckets[r.value.0].item == Some((key, Model()[key]))
      ensures r.Some? && !r.value.1 ==> unchanged(this) && unchanged(buckets)
      ensures r.Some? && r.value.1 ==>
                && (buckets == old(buckets) ==> before == old(buckets[..]))
                && (growOnNextInsert <==> FarSteal(LoadOf(old(nbElements), bucketCount), before, buckets[..], r.value.0))
                && !tryShrinkOnNextInsert
      ensures r.Some? && r.value.1 ==>
                && nbElements == old(nbElements) + 1
                && Resized(old(policy), old(bucketCount), bucketCount, nbElements, maxLoadFactor, old(growOnNextInsert),
                           old(tryShrinkOnNextInsert && minLoadFactor != 0.0 && LoadFactor() < minLoadFactor))
      ensures r.Some? && r.value.1 && old(Fits(nbElements, bucketCount, maxLoadFactor)) ==>
                (Fits(nbElements, bucketCount, maxLoadFactor) <==> Fits(1, bucketCount, maxLoadFactor))
    {
      hide RobinHood, Indexed, StoleFar, Threshold, GrowthPolicy.Serves, GrowthPolicy.Least, Refused, HashingFor, Fits, Resized, LoadOf;
      ContentsKeys(buckets[..], slot);
      before := buckets[..];
      var found, i, d := Probe(key);
      if found {
        return Some((i, false)), before;
      }
      r, before := InsertAbsent(key, value, i, d);
    }

    /** insert_impl once the key is known to be absent. */
    method InsertAbsent(key: K, value: V, i0: nat, d0: nat) returns (r: Option<(nat, bool)>, ghost before: seq<Bucket<K, V>>)
      requires Valid() && key !in slot && i0 < buckets.Length
      requires Probing(buckets[..], HashingFor(hash, bucketCount), slot, key, i0, d0) && d0 > buckets[i0].dist
      modifies this, buckets
      ensures Valid() && (buckets == old(buckets) || fresh(buckets))
      ensures r == None <==> old(Stuck())
      ensures r == None ==> Model() == old(Model()) && nbElements == old(nbElements) && bucketCount == old(bucketCount) && policy == old(policy) && StuckWithoutFlag()
      ensures policy.SameKind(old(policy)) && maxLoadFactor == old(maxLoadFactor) && minLoadFactor == old(minLoadFactor)
      ensures r.Some? ==>
                && r.value.1 && r.value.0 < bucketCount && buckets[r.value.0].item == Some((key, value))
                && Model() == old(Model())[key := value] && nbElements == old(nbElements) + 1
                && (buckets == old(buckets) ==> before == old(buckets[..]))
                && (growOnNextInsert <==> FarSteal(LoadOf(old(nbElements), bucketCount), before, buckets[..], r.value.0))
                && !tryShrinkOnNextInsert
      ensures r.Some? ==>
                && Resized(old(policy), old(bucketCount), bucketCount, nbElements, maxLoadFactor, old(growOnNextInsert),
                           old(tryShrinkOnNextInsert && minLoadFactor != 0.0 && LoadFactor() < minLoadFactor))
      ensures r.Some? && old(Fits(nbElements, bucketCount, maxLoadFactor)) ==>
                (Fits(nbElements, bucketCount, maxLoadFactor) <==> Fits(1, bucketCount, maxLoadFactor))
    {
      hide RobinHood, Indexed, Probing, StoleFar, Threshold, GrowthPolicy.Serves, GrowthPolicy.Least, Refused, HashingFor, Fits, Resized, LoadOf;
      ContentsKeys(buckets[..], slot);
      ghost var shrink := tryShrinkOnNextInsert && minLoadFactor != 0.0 && LoadFactor() < minLoadFactor;
      ghost var policy0, count0, grow := policy, bucketCount, growOnNextInsert;
      before := buckets[..];
      var rehashed := RehashOnExtremeLoad();
      if rehashed.None? {
        return None, before;
      }
      ContentsKeys(buckets[..], slot);
      if old(Fits(nbElements, bucketCount, maxLoadFactor)) {
        ResizedFits(policy0, count0, bucketCount, nbElements, maxLoadFactor, grow, shrink);
      }
      var pos;
      pos, before := PlaceAbsent(key, value, rehashed.value, i0, d0);
      return Some((pos, true)), before;
    }

    /** The rest of insert_impl: after a rehash the place is sought again. */
    method PlaceAbsent(key: K, value: V, rehashed: bool, i0: nat, d0: nat) returns (i: nat, ghost before: seq<Bucket<K, V>>)
      requires Valid() && key !in slot && bucketCount > 0 && nbElements + 1 < bucketCount
      requires !rehashed ==> i0 < buckets.Length && Probing(buckets[..], HashingFor(hash, bucketCount), slot, key, i0, d0) && d0 > buckets[i0].dist
      modifies buckets, `slot, `growOnNextInsert, `nbElements
      ensures Valid() && before == old(buckets[..])
      ensures i < bucketCount && buckets[i].item == Some((key, value))
      ensures Model() == old(Model())[key := value] && nbElements == old(nbElements) + 1
      ensures growOnNextInsert <==> old(growOnNextInsert) || FarSteal(old(LoadFactor()), before, buckets[..], i)
    {
      hide RobinHood, Indexed, Contents, StoleFar, Threshold, HashingFor, LoadOf;
      before := buckets[..];
      var d;
      i, d := i0, d0;
      if rehashed {
        i, d := SeekPlace(key);
      }
      InsertAt(i, d, key, value);
    }

    /** insert_or_assign: a present key gets the new value. */
    method InsertOrAssign(key: K, value: V) returns (r: Option<(nat, bool)>)
      requires Valid()
      modifies this, buckets
      ensures Valid() && (buckets == old(buckets) || fresh(buckets))
      ensures r == None <==> key !in old(Model()) && old(Stuck())
      ensures r == None ==> Model() == old(Model()) && StuckWithoutFlag()
      ensures r.Some? ==> (r.value.1 <==> key !in old(Model())) && Model() == old(Model())[key := value]
      ensures r.Some? ==> r.value.0 < bucketCount && buckets[r.value.0].item == Some((key, value))
    {
      hide RobinHood, Indexed, Contents, StoleFar, Threshold, GrowthPolicy.Serves;
      ghost var before;
      r, before := Insert(key, value);
      if r.Some? && !r.value.1 {
        ghost var b := buckets[..];
        var i := r.value.0;
        ValueReplaced(b, HashingFor(hash, bucketCount), slot, i, value);
        buckets[i] := buckets[i].(item := Some((key, value)));
        assert buckets[..] == b[i := b[i].(item := Some((key, value)))];
      }
    }

    /** insert_hint: a hint that points to the key is returned at once, any other is ignored. */
    method InsertHint(hint: nat, key: K, value: V) returns (pos: Option<nat>)
      requires Valid() && hint <= bucketCount && (hint < bucketCount ==> buckets[hint].item.Some?)
      modifies this, buckets
      ensures Valid() && (buckets == old(buckets) || fresh(buckets))
      ensures pos == None <==> key !in old(Model()) && old(Stuck())
      ensures Model() == if pos == None || key in old(Model()) then old(Model()) else old(Model())[key := value]
      ensures pos.Some? ==> pos.value < bucketCount && buckets[pos.value].item == Some((key, Model()[key]))
    {
      if hint != bucketCount && buckets[hint].item.value.0 == key {
        return Some(hint);
      }
      hide RobinHood, Indexed, Contents, StoleFar, Threshold, GrowthPolicy.Serves;
      var r;
      ghost var before;
      r, before := Insert(key, value);
      pos := if r.Some? then Some(r.value.0) else None;
    }

    /** insert(first, last), for iterators whose distance is known: room is reserved for all elements, unless
        the threshold has fallen below the size; then they are inserted one by one. It stops at the first
        rehash that is refused. */
    method InsertRange(items: seq<(K, V)>) returns (ok: bool, inserted: nat)
      requires Valid()
      modifies this, buckets
      ensures Valid() && (buckets == old(buckets) || fresh(buckets))
      ensures inserted <= |items| && Model() == AllInserted(old(Model()), items[..inserted])
      ensures ok ==> inserted == |items|
      ensures !ok ==>
                || (inserted == 0 && Refused(policy, RehashCount(BucketsNeeded(nbElements + |items|)), maxAllocation))
                || (inserted < |items| && items[inserted].0 !in Model() && StuckWithoutFlag())
      ensures maxLoadFactor == old(maxLoadFactor)
      ensures ok && old(Fits(nbElements, bucketCount, maxLoadFactor) && !Fits(nbElements + |items|, bucketCount, maxLoadFactor)) ==>
                Fits(old(nbElements) + |items|, bucketCount, maxLoadFactor)
    {
      hide RobinHood, Indexed, Contents, StoleFar, Threshold, GrowthPolicy.Serves, HashingFor, Fits;
      ghost var room := nbElements + |items|;
      if |items| > 0 && loadThreshold >= nbElements && loadThreshold - nbElements < |items| {
        ok := Reserve(nbElements + |items|);
        if !ok {
          return false, 0;
        }
      }
      ghost var count := bucketCount;
      ok, inserted := InsertEach(items);
      if ok && Fits(room, count, maxLoadFactor) && count <= bucketCount {
        FitsInMore(room, count, bucketCount, maxLoadFactor);
      }
    }

    /** The loop over the range. */
    method InsertEach(items: seq<(K, V)>) returns (ok: bool, inserted: nat)
      requires Valid()
      modifies this, buckets
      ensures Valid() && (buckets == old(buckets) || fresh(buckets))
      ensures inserted <= |items| && Model() == AllInserted(old(Model()), items[..inserted])
      ensures ok ==> inserted == |items|
      ensures !ok ==> inserted < |items| && items[inserted].0 !in Model() && StuckWithoutFlag()
      ensures maxLoadFactor == old(maxLoadFactor)
      ensures !old(tryShrinkOnNextInsert) ==> bucketCount >= old(bucketCount)
    {
      hide RobinHood, Indexed, Contents, StoleFar, Threshold, GrowthPolicy.Serves, HashingFor, Resized, Fits, LoadOf;
      inserted := 0;
      ghost var m := Model();
      assert Model() == AllInserted(m, items[..0]);
      hide AllInserted;
      while inserted < |items|
        invariant inserted <= |items| && Valid() && Model() == AllInserted(m, items[..inserted])
        invariant buckets == old(buckets) || fresh(buckets)
        invariant maxLoadFactor == old(maxLoadFactor)
        invariant !old(tryShrinkOnNextInsert) ==> !tryShrinkOnNextInsert && bucketCount >= old(bucketCount)
      {
        var r;
        ghost var before;
        ghost var policy0, count, grow := policy, bucketCount, growOnNextInsert;
        r, before := Insert(items[inserted].0, items[inserted].1);
        if r.None? {
          return false, inserted;
        }
        if !old(tryShrinkOnNextInsert) && r.value.1 {
          NeverSmaller(policy0, count, bucketCount, nbElements, maxLoadFactor, grow);
        }
        OneMoreInserted(m, items, inserted);
        inserted := inserted + 1;
      }
      ok := true;
    }

    // -------------------------------------------------------------- erasure

    /** One round of the loop of erase_from_bucket. */
    method ShiftOneBack(p: nat, i: nat, ghost f: Hashing<K>, ghost pos: nat, ghost b0: seq<Bucket<K, V>>, ghost q: nat)
      requires Shifting(b0, buckets[..], f, pos, p, q) && Indexed(buckets[..], slot)
      requires i == Next(p, buckets.Length) && buckets[i].dist > 0
      modifies buckets, `slot
      ensures Shifting(b0, buckets[..], f, pos, i, q) && Indexed(buckets[..], slot)
      ensures Model() == old(Model()) && |slot| == |old(slot)|
      ensures Dist(i, q, |b0|) < Dist(p, q, |b0|)
    {
      ghost var b := buckets[..];
      ShiftingNext(b0, b, f, slot, pos, p, q);
      hide Contents, Indexed, HoleAt, ShiftedBack;
      slot := slot[b[i].item.value.0 := p];
      MoveBack(p, i);
    }

    method MoveBack(p: nat, i: nat)
      requires p < buckets.Length && i == Next(p, buckets.Length) && i != p && buckets[i].item.Some?
      modifies buckets
      ensures buckets[..] == OneBack(old(buckets[..]), p)
    {
      buckets[p] := buckets[p].Holding(buckets[i].dist - 1, buckets[i].hash, buckets[i].item.value);
      buckets[i] := buckets[i].Cleared();
    }

    /** Clearing the bucket of the erased element opens the hole. */
    method OpenHole(pos: nat, ghost f: Hashing<K>, ghost q: nat)
      requires RobinHood(buckets[..], f) && Indexed(buckets[..], slot) && EmptyAt(buckets[..], q)
      requires pos < buckets.Length && buckets[pos].item.Some?
      modifies buckets, `slot
      ensures Shifting(old(buckets[..]), buckets[..], f, pos, pos, q) && Indexed(buckets[..], slot)
      ensures Model() == old(Model()) - {old(buckets[pos]).item.value.0} && |slot| == |old(slot)| - 1
    {
      ghost var b := buckets[..];
      HoleOpens(b, f, slot, pos, q);
      ShiftedBackStart(b, pos);
      ghost var key := b[pos].item.value.0;
      assert key in slot;
      hide HoleAt, ShiftedBack, Contents, RobinHood;
      assert |slot - {key}| == |slot| - 1 by { assert slot == (slot - {key})[key := slot[key]]; }
      slot := slot - {key};
      buckets[pos] := buckets[pos].Cleared();
      assert buckets[..] == b[pos := b[pos].Cleared()];
    }

    /** erase_from_bucket: backward shift until an empty bucket or an element already at home. */
    method EraseFromBucket(pos: nat) returns (ghost stop: nat)
      requires Valid() && pos < bucketCount && buckets[pos].item.Some?
      modifies buckets, `slot, `nbElements
      ensures Valid()
      ensures Model() == old(Model()) - {old(buckets[pos]).item.value.0}
      ensures nbElements == old(nbElements) - 1
      ensures ShiftedBack(old(buckets[..]), buckets[..], pos, stop)
    {
      hide RobinHood, Indexed, Contents, HoleAt, ShiftedBack, Threshold;
      ghost var f, b0 := HashingFor(hash, bucketCount), buckets[..];
      ghost var q := SomeEmptyBucket(b0, f, slot);
      OpenHole(pos, f, q);
      nbElements := nbElements - 1;
      var previous: nat := pos;
      var i: nat := NextBucket(previous);
      while buckets[i].dist > 0
        invariant previous < bucketCount && i == Next(previous, bucketCount)
        invariant Shifting(b0, buckets[..], f, pos, previous, q) && Indexed(buckets[..], slot)
        invariant Model() == old(Model()) - {old(buckets[pos]).item.value.0}
        invariant |slot| == nbElements == old(nbElements) - 1
        decreases Dist(previous, q, bucketCount)
      {
        ShiftOneBack(previous, i, f, pos, b0, q);
        previous := i;
        i := NextBucket(i);
      }
      stop := previous;
      HoleClosed(buckets[..], f, previous);
    }

    /** erase(key) */
    method EraseKey(key: K) returns (count: nat)
      requires Valid()
      modifies buckets, `slot, `nbElements, `tryShrinkOnNextInsert
      ensures Valid() && buckets == old(buckets)
      ensures Model() == old(Model()) - {key}
      ensures count == if key in old(Model()) then 1 else 0
      ensures tryShrinkOnNextInsert == (old(tryShrinkOnNextInsert) || count == 1) && growOnNextInsert == old(growOnNextInsert)
      ensures policy == old(policy) && bucketCount == old(bucketCount)
    {
      hide RobinHood, Indexed, Contents, ShiftedBack, Threshold, GrowthPolicy.Serves, HashingFor;
      var pos := Find(key);
      if pos != bucketCount {
        ghost var stop := EraseFromBucket(pos);
        tryShrinkOnNextInsert := true;
        return 1;
      }
      return 0;
    }

    // -------------------------------------------------------------- iteration

    method Begin() returns (pos: nat)
      requires Valid()
      ensures pos <= bucketCount
      ensures forall x | 0 <= x < pos :: buckets[x].item.None?
      ensures pos < bucketCount ==> buckets[pos].item.Some?
    {
      hide RobinHood, Indexed, Contents, Threshold, GrowthPolicy.Serves, HashingFor;
      ghost var b, f := buckets[..], HashingFor(hash, bucketCount);
      pos := 0;
      while pos < bucketCount && buckets[pos].Empty()
        invariant pos <= bucketCount
        invariant forall x | 0 <= x < pos :: buckets[x].item.None?
      {
        GoodAt(b, pos, f);
        pos := pos + 1;
      }
      if pos < bucketCount {
        GoodAt(b, pos, f);
      }
    }

    /** operator++: only the last-bucket marker tells where to stop. */
    method Increment(pos: nat) returns (next: nat)
      requires Valid() && pos < bucketCount
      ensures pos < next <= bucketCount
      ensures forall x | pos < x < next :: buckets[x].item.None?
      ensures next < bucketCount ==> buckets[next].item.Some?
    {
      hide RobinHood, Indexed, Contents, Threshold, GrowthPolicy.Serves, HashingFor;
      next := pos;
      while true
        invariant pos <= next < bucketCount
        invariant forall x | pos < x <= next :: buckets[x].item.None?
        decreases bucketCount - next
      {
        GoodAt(buckets[..], next, HashingFor(hash, bucketCount));
        if buckets[next].last {
          next := next + 1;
          return;
        }
        next := next + 1;
        GoodAt(buckets[..], next, HashingFor(hash, bucketCount));
        if !buckets[next].Empty() {
          return;
        }
      }
    }

    /** erase(iterator): the position of the next element, which the shift may have brought here. */
    method EraseIterator(pos: nat) returns (next: nat)
      requires Valid() && pos < bucketCount && buckets[pos].item.Some?
      modifies buckets, `slot, `nbElements, `tryShrinkOnNextInsert
      ensures Valid() && buckets == old(buckets) && bucketCount == old(bucketCount)
      ensures Model() == old(Model()) - {old(buckets[pos]).item.value.0}
      ensures nbElements == old(nbElements) - 1
      ensures pos <= next <= bucketCount
      ensures forall x | pos <= x < next :: buckets[x].item.None?
      ensures next < bucketCount ==> buckets[next].item.Some?
      ensures KeptBefore(old(buckets[..]), buckets[..], pos)
      ensures tryShrinkOnNextInsert && growOnNextInsert == old(growOnNextInsert) && policy == old(policy)
    {
      hide RobinHood, Indexed, Contents, ShiftedBack, Threshold, GrowthPolicy.Serves, HashingFor;
      ghost var b0 := buckets[..];
      ghost var stop := EraseFromBucket(pos);
      ShiftKeepsBefore(b0, buckets[..], pos, stop);
      GoodAt(buckets[..], pos, HashingFor(hash, bucketCount));
      next := pos;
      if buckets[next].Empty() {
        next := Increment(next);
      }
      tryShrinkOnNextInsert := true;
    }

    /** The buckets from begin to end through operator++, each full bucket once and in order. */
    method Traverse() returns (visited: seq<nat>)
      requires Valid()
      ensures forall i, j | 0 <= i < j < |visited| :: visited[i] < visited[j]
      ensures forall x: nat :: x in visited <==> x < bucketCount && buckets[x].item.Some?
    {
      hide RobinHood, Indexed, Contents, Threshold, GrowthPolicy.Serves, HashingFor;
      visited := [];
      var pos: nat := Begin();
      while pos < bucketCount
        invariant pos <= bucketCount
        invariant pos < bucketCount ==> buckets[pos].item.Some?
        invariant forall i, j | 0 <= i < j < |visited| :: visited[i] < visited[j]
        invariant forall x: nat :: x in visited <==> x < pos && buckets[x].item.Some?
        invariant forall i | 0 <= i < |visited| :: visited[i] < pos
        decreases bucketCount - pos
      {
        visited := visited + [pos];
        pos := Increment(pos);
      }
    }

    /** Erasing while iterating: the loop that continues from what erase(iterator) returns ends, and
        misses no element, even when a shift goes round the array end. */
    method EraseIf(drop: (K, V) -> bool)
      requires Valid()
      modifies buckets, `slot, `nbElements, `tryShrinkOnNextInsert
      ensures Valid() && buckets == old(buckets)
      ensures Model() == map k | k in old(Model()) && !drop(k, old(Model())[k]) :: old(Model())[k]
      ensures tryShrinkOnNextInsert == (old(tryShrinkOnNextInsert) || nbElements < old(nbElements))
    {
      hide RobinHood, Indexed, Contents, Threshold, GrowthPolicy.Serves, HashingFor;
      ghost var m := Model();
      var pos: nat := Begin();
      while pos < bucketCount
        invariant Valid() && buckets == old(buckets) && pos <= bucketCount == old(bucketCount)
        invariant pos < bucketCount ==> buckets[pos].item.Some?
        invariant NoneDropped(buckets[..], drop, pos)
        invariant Remaining(m, Model(), drop)
        invariant nbElements <= old(nbElements)
        invariant tryShrinkOnNextInsert == (old(tryShrinkOnNextInsert) || nbElements < old(nbElements))
        decreases nbElements, bucketCount - pos
      {
        ghost var b0 := buckets[..];
        var kv := buckets[pos].item.value;
        StoredInModel(b0, slot, pos);
        if drop(kv.0, kv.1) {
          var next := EraseIterator(pos);
          DroppedNext(b0, buckets[..], drop, pos, next);
          pos := next;
        } else {
          var next := Increment(pos);
          pos := next;
        }
      }
      AllDropped(buckets[..], slot, drop, m, pos);
    }

    /** clear */
    method Clear()
      requires Valid()
      modifies buckets, `slot, `nbElements, `growOnNextInsert
      ensures Valid() && buckets == old(buckets) && Model() == map[] && nbElements == 0
      ensures !growOnNextInsert && tryShrinkOnNextInsert == old(tryShrinkOnNextInsert)
      ensures policy == old(policy) && bucketCount == old(bucketCount)
    {
      hide RobinHood, Indexed, Contents, Threshold, GrowthPolicy.Serves, HashingFor;
      ghost var b, f := buckets[..], HashingFor(hash, bucketCount);
      for i := 0 to bucketCount
        invariant buckets == old(buckets) && ClearedRange(b, buckets[..], 0, i)
        invariant policy == old(policy) && bucketCount == old(bucketCount) && slot == old(slot) && ValidFactors()
        invariant tryShrinkOnNextInsert == old(tryShrinkOnNextInsert)
      {
        GoodAt(b, i, f);
        if !buckets[i].Empty() {
          buckets[i] := buckets[i].Cleared();
        }
      }
      ClearedTable(b, buckets[..], f, slot, bucketCount);
      slot := map[];
      nbElements := 0;
      growOnNextInsert := false;
    }

    // -------------------------------------------------------------- range erasure

    /** The first loop of erase(first, last). */
    method ClearBuckets(first: nat, last: nat)
      requires Valid() && first <= last <= bucketCount
      modifies buckets, `slot, `nbElements
      ensures ClearedRange(old(buckets[..]), buckets[..], first, last)
      ensures slot == SlotsOutside(old(slot), first, last) && nbElements == |slot|
    {
      hide RobinHood, Indexed, Contents, Threshold, GrowthPolicy.Serves, HashingFor, SlotsOutside;
      ghost var b, f := buckets[..], HashingFor(hash, bucketCount);
      SlotsOutsideNone(slot, first);
      for i := first to last
        invariant ClearedRange(b, buckets[..], first, i)
        invariant nbElements == |SlotsOutside(slot, first, i)| && slot == old(slot)
      {
        GoodAt(b, i, f);
        SlotsOutsideNext(b, slot, first, i);
        if !buckets[i].Empty() {
          buckets[i] := buckets[i].Cleared();
          nbElements := nbElements - 1;
        }
      }
      slot := SlotsOutside(slot, first, last);
    }

    /** The second loop of erase(first, last): it stops at the array end. */
    method ShiftAfterRange(first: nat, last: nat, ghost b: seq<Bucket<K, V>>, ghost f: Hashing<K>)
      returns (ghost closer: nat, ghost to: nat)
      requires RobinHood(b, f) && RangeShifting(b, buckets[..], f, first, last, first, last)
      requires Indexed(buckets[..], slot) && bucketCount == buckets.Length == |b| && last < bucketCount && buckets[last].item.Some?
      modifies buckets, `slot
      ensures Indexed(buckets[..], slot) && Model() == old(Model()) && |slot| == |old(slot)|
      ensures RangeShifting(b, buckets[..], f, first, last, closer, to)
      ensures forall j | last <= j < to :: b[j].dist > 0
      ensures last <= to <= bucketCount && (to == bucketCount || buckets[to].dist <= 0)
      ensures b[last].dist >= 0
      ensures var pos := CloserBucket(first, last, b[last].dist);
              buckets[pos].item == b[last].item && forall x | first <= x < pos :: buckets[x].item.None?
    {
      hide RobinHood, Indexed, Contents, RangeShifting;
      var icloser: nat, ito: nat := first, last;
      ghost var n := bucketCount;
      RangeAt(b, buckets[..], f, first, last, icloser, ito);
      ghost var pos := CloserBucket(first, last, b[last].dist);
      while ito < bucketCount && buckets[ito].dist > 0
        invariant RangeShifting(b, buckets[..], f, first, last, icloser, ito)
        invariant first <= icloser < ito <= n && last <= ito
        invariant Indexed(buckets[..], slot) && Model() == old(Model()) && |slot| == |old(slot)|
        invariant forall j | last <= j < ito :: b[j].dist > 0
        invariant ito == last ==> buckets[last] == b[last]
        invariant ito > last ==> pos < icloser && buckets[pos].item == b[last].item
        invariant forall x | first <= x < pos :: buckets[x].item.None?
        decreases n - ito
      {
        ghost var c := buckets[..];
        RangeAt(b, c, f, first, last, icloser, ito);
        RangeShiftNext(b, c, f, first, last, icloser, ito);
        icloser := CloserBucket(icloser, ito, buckets[ito].dist);
        MovedCloserContents(c, slot, icloser, ito);
        slot := slot[c[ito].item.value.0 := icloser];
        MoveCloser(icloser, ito);
        icloser := icloser + 1;
        ito := ito + 1;
      }
      closer, to := icloser, ito;
    }

    method MoveCloser(t: nat, to: nat)
      requires t < to < buckets.Length && buckets[to].item.Some?
      modifies buckets
      ensures buckets[..] == MovedCloser(old(buckets[..]), t, to)
    {
      buckets[t] := buckets[t].Holding(buckets[to].dist - (to - t), buckets[to].hash, buckets[to].item.value);
      buckets[to] := buckets[to].Cleared();
    }

    /** Body of erase(first, last) for a range that is not empty. */
    method RemoveRange(first: nat, last: nat, ghost f: Hashing<K>) returns (pos: nat)
      requires Valid() && first < last <= bucketCount && f == HashingFor(hash, bucketCount)
      requires last < bucketCount ==> buckets[last].item.Some?
      modifies buckets, `slot, `nbElements, `tryShrinkOnNextInsert
      ensures Indexed(buckets[..], slot) && nbElements == |slot| <= old(nbElements)
      ensures Model() == ContentsOutside(old(buckets[..]), old(slot), first, last)
      ensures RobinHood(buckets[..], f) <==> RangeDetached(old(buckets[..]), first, last)
      ensures !RobinHood(buckets[..], f) ==> buckets[0].item.Some? && f.home(buckets[0].item.value.0) < buckets.Length && !Findable(buckets[..], f, 0)
      ensures last == bucketCount ==> pos == bucketCount
      ensures last < bucketCount ==> first <= pos < buckets.Length && buckets[pos].item == old(buckets[..])[last].item
      ensures last < bucketCount ==> forall x | first <= x < pos :: buckets[x].item.None?
      ensures tryShrinkOnNextInsert == (last < bucketCount || old(tryShrinkOnNextInsert))
    {
      hide RobinHood, Indexed, Contents, Threshold, RangeShifting, RangeDetached, Findable, GrowthPolicy.Serves, HashingFor;
      ghost var b, s := buckets[..], slot;
      ghost var q := SomeEmptyBucket(b, f, s);
      SlotsOutsideFewer(s, first, last);
      ClearBuckets(first, last);
      RangeShiftStarts(b, buckets[..], f, first, last);
      ClearedContents(b, buckets[..], s, first, last);
      if last == bucketCount {
        RangeShiftSettled(b, buckets[..], f, first, last, first, last, q);
        return bucketCount;
      }
      RangeAt(b, buckets[..], f, first, last, first, last);
      pos := CloserBucket(first, last, buckets[last].dist);
      ghost var closer, to := ShiftAfterRange(first, last, b, f);
      RangeShiftSettled(b, buckets[..], f, first, last, closer, to, q);
      tryShrinkOnNextInsert := true;
    }

    /** erase(first, last): removes exactly the elements of the range; the table stays valid exactly when
        the range is detached, otherwise the element at the array start is lost to find. */
    method EraseRange(first: nat, last: nat) returns (pos: nat)
      requires Valid() && first <= last <= bucketCount
      requires last < bucketCount ==> buckets[last].item.Some?
      modifies buckets, `slot, `nbElements, `tryShrinkOnNextInsert
      ensures buckets == old(buckets) && bucketCount == old(bucketCount)
      ensures Indexed(buckets[..], slot) && nbElements == |slot|
      ensures Model() == ContentsOutside(old(buckets[..]), old(slot), first, last)
      ensures Valid() <==> first == last || RangeDetached(old(buckets[..]), first, last)
      ensures !Valid() ==> LosesItsFirst()
      ensures first == last ==> pos == first && unchanged(this) && unchanged(buckets)
      ensures last == bucketCount ==> pos == bucketCount && tryShrinkOnNextInsert == old(tryShrinkOnNextInsert)
      ensures first < last < bucketCount ==> tryShrinkOnNextInsert
      ensures last < bucketCount ==> first <= pos < buckets.Length && buckets[pos].item == old(buckets[..])[last].item
      ensures last < bucketCount ==> forall x | first <= x < pos :: buckets[x].item.None?
    {
      hide RobinHood, Indexed, Contents, Threshold, RangeDetached, Findable, GrowthPolicy.Serves;
      if first == last {
        ContentsOutsideNone(buckets[..], slot, first);
        return first;
      }
      pos := RemoveRange(first, last, HashingFor(hash, bucketCount));
    }

    /** The element in bucket 0 is stored but find stops before it. */
    ghost predicate LosesItsFirst()
      reads this, buckets
    {
      && bucketCount == buckets.Length > 0
      && buckets[0].item.Some?
      && !Findable(buckets[..], HashingFor(hash, bucketCount), 0)
    }

    // -------------------------------------------------------------- creation and load factors

    constructor (hash: K -> nat, storeHash: bool, lookupByHash: bool, maxAllocation: nat,
                 policy: GrowthPolicy, bucketCount: nat, minLoadFactor: real, maxLoadFactor: real)
      requires policy.Serves(bucketCount)
      ensures Valid() && fresh(buckets) && Model() == map[]
      ensures this.hash == hash && this.policy == policy && this.bucketCount == bucketCount && this.maxAllocation == maxAllocation
      ensures this.storeHash == storeHash && this.lookupByHash == lookupByHash
      ensures this.maxLoadFactor == Clamp(maxLoadFactor, 0.2, 0.95) && this.minLoadFactor == Clamp(minLoadFactor, 0.0, 0.15)
      ensures !growOnNextInsert && !tryShrinkOnNextInsert && nbElements == 0
    {
      this.hash, this.storeHash, this.lookupByHash, this.maxAllocation := hash, storeHash, lookupByHash, maxAllocation;
      this.policy, this.bucketCount, this.nbElements := policy, bucketCount, 0;
      this.growOnNextInsert, this.tryShrinkOnNextInsert := false, false;
      var lo := Clamp(minLoadFactor, MINIMUM_MIN_LOAD_FACTOR, MAXIMUM_MIN_LOAD_FACTOR);
      var hi := Clamp(maxLoadFactor, MINIMUM_MAX_LOAD_FACTOR, MAXIMUM_MAX_LOAD_FACTOR);
      this.minLoadFactor, this.maxLoadFactor, this.loadThreshold := lo, hi, Threshold(bucketCount, hi);
      this.slot := map[];
      var n := if bucketCount == 0 then 1 else bucketCount;
      buckets := new Bucket<K, V>[n](j => Bucket(-1, j == n - 1, 0, None));
      new;
      EmptyTable(buckets[..], HashingFor(hash, bucketCount));
    }

    /** The public constructor: None where it throws. */
    static method Create(hash: K -> nat, storeHash: bool, lookupByHash: bool, maxAllocation: nat,
                         kind: GrowthPolicy, count: nat, minLoadFactor: real, maxLoadFactor: real)
      returns (r: Option<RobinHash<K, V>>)
      requires kind.WellFormed()
      ensures r == None <==> Refused(kind, count, maxAllocation)
      ensures r.Some? ==> r.value.Valid() && fresh(r.value) && fresh(r.value.buckets) && r.value.Model() == map[] && kind.Least(count, r.value.bucketCount)
      ensures r.Some? ==>
                && r.value.hash == hash && r.value.storeHash == storeHash && r.value.lookupByHash == lookupByHash
                && r.value.maxAllocation == maxAllocation && r.value.policy.SameKind(kind)
                && r.value.maxLoadFactor == Clamp(maxLoadFactor, 0.2, 0.95) && r.value.minLoadFactor == Clamp(minLoadFactor, 0.0, 0.15)
                && !r.value.growOnNextInsert && !r.value.tryShrinkOnNextInsert
    {
      var created := CreatePolicy(kind, count);
      if created.None? {
        return None;
      }
      var (p, n) := created.value;
      if n > maxAllocation && n > 0 {
        return None;
      }
      var t := new RobinHash(hash, storeHash, lookupByHash, maxAllocation, p, n, minLoadFactor, maxLoadFactor);
      return Some(t);
    }

    method SetMaxLoadFactor(factor: real)
      requires Valid()
      modifies `maxLoadFactor, `loadThreshold
      ensures Valid() && Model() == old(Model()) && buckets == old(buckets) && slot == old(slot)
      ensures maxLoadFactor == Clamp(factor, 0.2, 0.95) && minLoadFactor == old(minLoadFactor)
      ensures GrowthDue() <==> growOnNextInsert || !Fits(nbElements + 1, bucketCount, maxLoadFactor)
      ensures growOnNextInsert == old(growOnNextInsert) && tryShrinkOnNextInsert == old(tryShrinkOnNextInsert) && policy == old(policy)
    {
      maxLoadFactor := Clamp(factor, MINIMUM_MAX_LOAD_FACTOR, MAXIMUM_MAX_LOAD_FACTOR);
      loadThreshold := Threshold(bucketCount, maxLoadFactor);
    }

    method SetMinLoadFactor(factor: real)
      requires Valid()
      modifies `minLoadFactor
      ensures Valid() && Model() == old(Model()) && buckets == old(buckets) && slot == old(slot)
      ensures minLoadFactor == Clamp(factor, 0.0, 0.15) && maxLoadFactor == old(maxLoadFactor)
      ensures growOnNextInsert == old(growOnNextInsert) && tryShrinkOnNextInsert == old(tryShrinkOnNextInsert) && policy == old(policy)
    {
      minLoadFactor := Clamp(factor, MINIMUM_MIN_LOAD_FACTOR, MAXIMUM_MIN_LOAD_FACTOR);
    }
  }

  /** The table's layout forgets its history: two tables with the same hash function, the same bucket
      count and the same keys are occupied in the same buckets with the same probe lengths. */
  lemma HistoryIsForgotten<K, V>(s: RobinHash<K, V>, t: RobinHash<K, V>)
    requires s.Valid() && t.Valid()
    requires s.hash == t.hash && s.bucketCount == t.bucketCount
    requires s.Model().Keys == t.Model().Keys
    ensures s.buckets.Length == t.buckets.Length
    ensures forall x | 0 <= x < s.buckets.Length :: s.buckets[x].dist == t.buckets[x].dist
  {
    ContentsKeys(s.buckets[..], s.slot);
    ContentsKeys(t.buckets[..], t.slot);
    SameKeysSameLayout(s.buckets[..], s.slot, t.buckets[..], t.slot, HashingFor(s.hash, s.bucketCount));
    forall x | 0 <= x < s.buckets.Length
      ensures s.buckets[x].dist == t.buckets[x].dist
    {
      assert s.buckets[..][x].dist == t.buckets[..][x].dist;
    }
  }

  /** A range erase that loses an element: key 7 lives one bucket past its home 3, round the array end,
      and erasing the last bucket alone leaves it there. */
  lemma WrappedChainIsNotDetached() returns (b: seq<Bucket<nat, nat>>, f: Hashing<nat>)
    ensures |b| == 4 && RobinHood(b, f) && Indexed(b, map[3 := 3, 7 := 0])
    ensures !RangeDetached(b, 3, 4)
  {
    f := Hashing(k => k % 4, k => k);
    b := [Bucket(1, false, 7, Some((7, 70))), Bucket(-1, false, 0, None),
          Bucket(-1, false, 0, None), Bucket(0, true, 3, Some((3, 30)))];
    forall i | 0 <= i < 4
      ensures GoodBucket(b[i], i, 4, f)
      ensures b[Next(i, 4)].dist <= b[i].dist + 1
    {
      assert i == 0 || i == 1 || i == 2 || i == 3;
    }
  }

  // ---------------------------------------------------------------- whole runs

  datatype Operation<K, V> =
    | Inserting(key: K, value: V)
    | Assigning(key: K, value: V)
    | Erasing(key: K)
    | Rehashing(count: nat)
    | Reserving(count: nat)
    | Clearing
    | MaxLoad(factor: real)
    | MinLoad(factor: real)

  /** What an operation does to a finite map. */
  ghost function Effect<K, V>(m: map<K, V>, op: Operation<K, V>): map<K, V> {
    match op
    case Inserting(k, v) => if k in m then m else m[k := v]
    case Assigning(k, v) => m[k := v]
    case Erasing(k) => m - {k}
    case Clearing => map[]
    case _ => m
  }

  ghost function Effects<K, V>(m: map<K, V>, ops: seq<Operation<K, V>>): map<K, V> {
    if ops == [] then m else Effect(Effects(m, ops[..|ops| - 1]), ops[|ops| - 1])
  }

  /** Where the source throws on an operation. */
  ghost predicate Throws<K, V>(t: RobinHash<K, V>, op: Operation<K, V>)
    requires t.Valid()
    reads t, t.buckets
  {
    match op
    case Inserting(k, _) => k !in t.Model() && t.StuckWithoutFlag()
    case Assigning(k, _) => k !in t.Model() && t.StuckWithoutFlag()
    case Rehashing(n) => Refused(t.policy, t.RehashCount(n), t.maxAllocation)
    case Reserving(n) => Refused(t.policy, t.RehashCount(t.BucketsNeeded(n)), t.maxAllocation)
    case _ => false
  }

  method Perform<K, V>(t: RobinHash<K, V>, op: Operation<K, V>) returns (ok: bool)
    requires t.Valid()
    modifies t, t.buckets
    ensures t.Valid() && (t.buckets == old(t.buckets) || fresh(t.buckets))
    ensures t.Model() == if ok then Effect(old(t.Model()), op) else old(t.Model())
    ensures !ok ==> Throws(t, op)
  {
    match op {
      case Inserting(k, v) =>
        var r;
        ghost var before;
        r, before := t.Insert(k, v);
        ok := r.Some?;
      case Assigning(k, v) =>
        var r := t.InsertOrAssign(k, v);
        ok := r.Some?;
      case Erasing(k) =>
        var n := t.EraseKey(k);
        ok := true;
      case Rehashing(n) =>
        ok := t.Rehash(n);
      case Reserving(n) =>
        ok := t.Reserve(n);
      case Clearing =>
        t.Clear();
        ok := true;
      case MaxLoad(x) =>
        t.SetMaxLoadFactor(x);
        ok := true;
      case MinLoad(x) =>
        t.SetMinLoadFactor(x);
        ok := true;
    }
  }

  /** Over every run the table is the finite map of the operations performed so far; a run stops only
      at an operation that throws, which changes nothing. */
  method Run<K, V>(t: RobinHash<K, V>, ops: seq<Operation<K, V>>) returns (done: nat)
    requires t.Valid()
    modifies t, t.buckets
    ensures done <= |ops| && t.Valid() && t.Model() == Effects(old(t.Model()), ops[..done])
    ensures done < |ops| ==> Throws(t, ops[done])
    ensures t.buckets == old(t.buckets) || fresh(t.buckets)
  {
    done := 0;
    ghost var m := t.Model();
    while done < |ops|
      invariant done <= |ops| && t.Valid() && t.Model() == Effects(m, ops[..done])
      invariant t.buckets == old(t.buckets) || fresh(t.buckets)
    {
      hide RobinHood, Indexed, Contents, Threshold, GrowthPolicy.Serves, HashingFor;
      var ok := Perform(t, ops[done]);
      if !ok {
        return;
      }
      assert ops[..done + 1][..done] == ops[..done];
      done := done + 1;
    }
  }
}
