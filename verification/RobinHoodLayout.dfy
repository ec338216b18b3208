/** The bucket array of the Robin Hood table as a value: the invariant every operation relies on,
    and what one step of each in-place loop does to it. */
module RobinHoodLayout {
  import opened Wrappers
  import opened Cyclic
  import opened FiniteSets

  /** One bucket_entry. The truncated hash is always kept; the table decides when it consults it. */
  datatype Bucket<K, V> = Bucket(dist: int, last: bool, hash: nat, item: Option<(K, V)>) {
    predicate Empty() {
      dist == -1
    }

    function Cleared(): Bucket<K, V> {
      this.(dist := -1, item := None)
    }

    function Holding(d: int, h: nat, kv: (K, V)): Bucket<K, V> {
      this.(dist := d, hash := h, item := Some(kv))
    }
  }

  /** Where a key's probe sequence starts, and the truncated hash stored with it. */
  datatype Hashing<!K> = Hashing(home: K -> nat, stamp: K -> nat)

  // ---------------------------------------------------------------- the invariant

  ghost predicate GoodBucket<K, V>(x: Bucket<K, V>, i: nat, n: nat, f: Hashing<K>)
    requires i < n
  {
    && x.dist >= -1
    && (x.item.None? <==> x.dist == -1)
    && (x.last <==> i == n - 1)
    && (x.item.Some? ==>
          && f.home(x.item.value.0) < n
          && x.dist == Dist(f.home(x.item.value.0), i, n)
          && x.hash == f.stamp(x.item.value.0))
  }

  ghost predicate GoodBuckets<K, V>(b: seq<Bucket<K, V>>, f: Hashing<K>) {
    forall i | 0 <= i < |b| :: GoodBucket(b[i], i, |b|, f)
  }

  /** Distances grow by at most one from a bucket to the next, an empty bucket counting as -1. */
  ghost predicate Smooth<K, V>(b: seq<Bucket<K, V>>) {
    forall i {:trigger Next(i, |b|)} | 0 <= i < |b| :: b[Next(i, |b|)].dist <= b[i].dist + 1
  }

  ghost predicate RobinHood<K, V>(b: seq<Bucket<K, V>>, f: Hashing<K>) {
    |b| > 0 && GoodBuckets(b, f) && Smooth(b)
  }

  ghost predicate EmptyAt<K, V>(b: seq<Bucket<K, V>>, q: nat) {
    q < |b| && b[q].Empty()
  }

  /** slot tells in which bucket each stored key is: keys are unique and nothing else is stored. */
  ghost predicate Indexed<K, V>(b: seq<Bucket<K, V>>, slot: map<K, nat>) {
    && (forall i | 0 <= i < |b| && b[i].item.Some? ::
          b[i].item.value.0 in slot && slot[b[i].item.value.0] == i)
    && (forall k | k in slot ::
          slot[k] < |b| && b[slot[k]].item.Some? && b[slot[k]].item.value.0 == k)
  }

  /** The finite map a bucket array stands for. */
  ghost function Contents<K, V>(b: seq<Bucket<K, V>>, slot: map<K, nat>): map<K, V>
    requires Indexed(b, slot)
  {
    map k | k in slot :: b[slot[k]].item.value.1
  }

  // ---------------------------------------------------------------- probing

  /** Distances climb by at most the number of steps walked. */
  lemma {:induction false} Climb<K, V>(b: seq<Bucket<K, V>>, x: nat, y: nat)
    requires x < |b| && y < |b| && Smooth(b)
    ensures b[y].dist <= b[x].dist + Dist(x, y, |b|)
    decreases Dist(x, y, |b|)
  {
    if x != y {
      DistNext(x, y, |b|);
      Climb(b, Next(x, |b|), y);
    }
  }

  /** A probe for key k stands at bucket i, d steps from k's home, and has not passed k. */
  ghost predicate Probing<K, V>(b: seq<Bucket<K, V>>, f: Hashing<K>, slot: map<K, nat>, k: K, i: nat, d: nat) {
    && i < |b| && f.home(k) < |b|
    && d == Dist(f.home(k), i, |b|)
    && d <= b[Prev(i, |b|)].dist + 1
    && (k in slot ==> slot[k] < |b| && Dist(f.home(k), slot[k], |b|) >= d)
  }

  lemma ProbeStart<K, V>(b: seq<Bucket<K, V>>, f: Hashing<K>, slot: map<K, nat>, k: K)
    requires RobinHood(b, f) && Indexed(b, slot) && f.home(k) < |b|
    ensures Probing(b, f, slot, k, f.home(k), 0)
  {
    assert GoodBucket(b[Prev(f.home(k), |b|)], Prev(f.home(k), |b|), |b|, f);
  }

  /** Walking past a bucket that holds another key at a distance no smaller than d. */
  lemma ProbeStep<K, V>(b: seq<Bucket<K, V>>, f: Hashing<K>, slot: map<K, nat>, k: K, i: nat, d: nat, q: nat)
    requires RobinHood(b, f) && Indexed(b, slot) && EmptyAt(b, q)
    requires Probing(b, f, slot, k, i, d) && d <= b[i].dist
    requires b[i].item.Some? ==> b[i].item.value.0 != k
    ensures Probing(b, f, slot, k, Next(i, |b|), d + 1)
    ensures Dist(Next(i, |b|), q, |b|) < Dist(i, q, |b|)
  {
    Climb(b, q, i);
    DistNext(i, q, |b|);
    DistNext(f.home(k), i, |b|);
    DistNext(q, i, |b|);
  }

  /** The early stop: once d exceeds the distance found, k is nowhere in the array. */
  lemma ProbeStop<K, V>(b: seq<Bucket<K, V>>, f: Hashing<K>, slot: map<K, nat>, k: K, i: nat, d: nat)
    requires RobinHood(b, f) && Indexed(b, slot)
    requires Probing(b, f, slot, k, i, d) && d > b[i].dist
    ensures k !in slot
  {
    if k in slot {
      var x := slot[k];
      assert GoodBucket(b[x], x, |b|, f);
      Climb(b, i, x);
      DistVia(f.home(k), i, x, |b|);
      assert false;
    }
  }

  // ---------------------------------------------------------------- carrying an element forward

  /** Element kv, whose key is not stored, is looking for a place from bucket i at distance d. */
  ghost predicate Carrying<K, V>(b: seq<Bucket<K, V>>, f: Hashing<K>, slot: map<K, nat>, kv: (K, V), h: nat, i: nat, d: nat) {
    && i < |b| && f.home(kv.0) < |b|
    && d == Dist(f.home(kv.0), i, |b|)
    && d <= b[Prev(i, |b|)].dist + 1
    && h == f.stamp(kv.0)
    && kv.0 !in slot
  }

  lemma CarrySkip<K, V>(b: seq<Bucket<K, V>>, f: Hashing<K>, slot: map<K, nat>, kv: (K, V), h: nat, i: nat, d: nat, q: nat)
    requires RobinHood(b, f) && Indexed(b, slot) && EmptyAt(b, q)
    requires Carrying(b, f, slot, kv, h, i, d) && d <= b[i].dist
    ensures Carrying(b, f, slot, kv, h, Next(i, |b|), d + 1)
    ensures Dist(Next(i, |b|), q, |b|) < Dist(i, q, |b|)
  {
    ProbeStep(b, f, slot, kv.0, i, d, q);
  }

  ghost function Swapped<K, V>(b: seq<Bucket<K, V>>, i: nat, d: nat, h: nat, kv: (K, V)): seq<Bucket<K, V>>
    requires i < |b|
  {
    b[i := b[i].Holding(d, h, kv)]
  }

  lemma SwapKeepsContents<K, V>(b: seq<Bucket<K, V>>, slot: map<K, nat>, kv: (K, V), h: nat, i: nat, d: nat)
    requires Indexed(b, slot) && kv.0 !in slot
    requires i < |b| && b[i].item.Some?
    ensures Indexed(Swapped(b, i, d, h, kv), (slot - {b[i].item.value.0})[kv.0 := i])
    ensures Contents(Swapped(b, i, d, h, kv), (slot - {b[i].item.value.0})[kv.0 := i])[b[i].item.value.0 := b[i].item.value.1]
         == Contents(b, slot)[kv.0 := kv.1]
  {
  }

  /** Stealing the bucket of an element that is closer to its home; that element is carried on. */
  lemma CarrySwap<K, V>(b: seq<Bucket<K, V>>, f: Hashing<K>, slot: map<K, nat>, kv: (K, V), h: nat, i: nat, d: nat, q: nat)
    returns (b': seq<Bucket<K, V>>, slot': map<K, nat>)
    requires RobinHood(b, f) && Indexed(b, slot) && EmptyAt(b, q)
    requires Carrying(b, f, slot, kv, h, i, d) && d > b[i].dist && !b[i].Empty()
    ensures b[i].item.Some?
    ensures b' == Swapped(b, i, d, h, kv)
    ensures RobinHood(b', f) && Indexed(b', slot') && EmptyAt(b', q)
    ensures Carrying(b', f, slot', b[i].item.value, b[i].hash, Next(i, |b|), b[i].dist + 1)
    ensures Contents(b', slot')[b[i].item.value.0 := b[i].item.value.1] == Contents(b, slot)[kv.0 := kv.1]
    ensures Dist(Next(i, |b|), q, |b|) < Dist(i, q, |b|)
  {
    var n := |b|;
    assert GoodBucket(b[i], i, n, f);
    b' := Swapped(b, i, d, h, kv);
    slot' := (slot - {b[i].item.value.0})[kv.0 := i];
    SwapKeepsContents(b, slot, kv, h, i, d);
    SwapKeepsInvariant(b, f, slot, kv, h, i, d);
    Climb(b, q, i);
    DistNext(i, q, n);
    DistNext(f.home(b[i].item.value.0), i, n);
    DistNext(q, i, n);
  }

  lemma SwapKeepsInvariant<K, V>(b: seq<Bucket<K, V>>, f: Hashing<K>, slot: map<K, nat>, kv: (K, V), h: nat, i: nat, d: nat)
    requires RobinHood(b, f)
    requires Carrying(b, f, slot, kv, h, i, d) && d > b[i].dist
    ensures RobinHood(Swapped(b, i, d, h, kv), f)
  {
    var n := |b|;
    var b' := Swapped(b, i, d, h, kv);
    forall x | 0 <= x < n
      ensures GoodBucket(b'[x], x, n, f)
    {
      assert GoodBucket(b[x], x, n, f);
    }
    forall x {:trigger Next(x, n)} | 0 <= x < n
      ensures b'[Next(x, n)].dist <= b'[x].dist + 1
    {
      assert b[Next(x, n)].dist <= b[x].dist + 1;
    }
  }

  /** The carried element takes an empty bucket. */
  lemma CarryPlace<K, V>(b: seq<Bucket<K, V>>, f: Hashing<K>, slot: map<K, nat>, kv: (K, V), h: nat, i: nat, d: nat)
    returns (b': seq<Bucket<K, V>>, slot': map<K, nat>)
    requires RobinHood(b, f) && Indexed(b, slot)
    requires Carrying(b, f, slot, kv, h, i, d) && b[i].Empty()
    ensures b' == Swapped(b, i, d, h, kv)
    ensures slot' == slot[kv.0 := i]
    ensures RobinHood(b', f) && Indexed(b', slot')
    ensures Contents(b', slot') == Contents(b, slot)[kv.0 := kv.1]
  {
    assert GoodBucket(b[i], i, |b|, f);
    b' := Swapped(b, i, d, h, kv);
    slot' := slot[kv.0 := i];
    SwapKeepsInvariant(b, f, slot, kv, h, i, d);
  }

  // ---------------------------------------------------------------- backward shift

  /** Bucket p was emptied; everything else keeps the invariant and the bucket after p can still be
      two above the one before p. */
  ghost predicate HoleAt<K, V>(b: seq<Bucket<K, V>>, f: Hashing<K>, p: nat) {
    && p < |b| && |b| > 1
    && b[p].Empty()
    && GoodBuckets(b, f)
    && (forall i {:trigger Next(i, |b|)} | 0 <= i < |b| && i != p :: b[Next(i, |b|)].dist <= b[i].dist + 1)
    && b[Next(p, |b|)].dist <= b[Prev(p, |b|)].dist + 2
  }

  lemma HoleOpens<K, V>(b: seq<Bucket<K, V>>, f: Hashing<K>, slot: map<K, nat>, p: nat, q: nat)
    requires RobinHood(b, f) && Indexed(b, slot) && EmptyAt(b, q)
    requires p < |b| && b[p].item.Some?
    ensures HoleAt(b[p := b[p].Cleared()], f, p)
    ensures Indexed(b[p := b[p].Cleared()], slot - {b[p].item.value.0})
    ensures Contents(b[p := b[p].Cleared()], slot - {b[p].item.value.0}) == Contents(b, slot) - {b[p].item.value.0}
    ensures EmptyAt(b[p := b[p].Cleared()], q) && p != q
  {
    var n := |b|;
    assert GoodBucket(b[p], p, n, f);
    assert b[Next(p, n)].dist <= b[p].dist + 1;
    assert b[Next(Prev(p, n), n)].dist <= b[Prev(p, n)].dist + 1;
  }

  function OneBack<K, V>(b: seq<Bucket<K, V>>, p: nat): (b': seq<Bucket<K, V>>)
    requires p < |b| && b[Next(p, |b|)].item.Some?
  {
    var i := Next(p, |b|);
    b[p := b[p].Holding(b[i].dist - 1, b[i].hash, b[i].item.value)][i := b[i].Cleared()]
  }

  /** The element after the hole still knows its distance when it has moved back one bucket. */
  lemma MovedIsGood<K, V>(b: seq<Bucket<K, V>>, f: Hashing<K>, p: nat)
    requires HoleAt(b, f, p) && b[Next(p, |b|)].dist > 0
    ensures b[Next(p, |b|)].item.Some? && GoodBuckets(OneBack(b, p), f)
  {
    var n := |b|;
    var i := Next(p, n);
    assert GoodBucket(b[i], i, n, f);
    assert GoodBucket(b[p], p, n, f);
    DistNext(f.home(b[i].item.value.0), p, n);
    forall x | 0 <= x < n
      ensures GoodBucket(OneBack(b, p)[x], x, n, f)
    {
      assert GoodBucket(b[x], x, n, f);
    }
  }

  /** One round of the shift: the element after the hole moves back one bucket. */
  lemma HoleMoves<K, V>(b: seq<Bucket<K, V>>, f: Hashing<K>, p: nat, q: nat)
    requires HoleAt(b, f, p) && EmptyAt(b, q) && p != q
    requires b[Next(p, |b|)].dist > 0
    ensures b[Next(p, |b|)].item.Some?
    ensures HoleAt(OneBack(b, p), f, Next(p, |b|))
    ensures EmptyAt(OneBack(b, p), q) && Next(p, |b|) != q
    ensures Dist(Next(p, |b|), q, |b|) < Dist(p, q, |b|)
  {
    var n := |b|;
    var i := Next(p, n);
    assert GoodBucket(b[i], i, n, f);
    MovedIsGood(b, f, p);
    DistNext(p, q, n);
    hide GoodBucket, GoodBuckets;
    var b' := OneBack(b, p);
    forall x {:trigger Next(x, n)} | 0 <= x < n && x != i
      ensures b'[Next(x, n)].dist <= b'[x].dist + 1
    {
      assert x != p ==> b[Next(x, n)].dist <= b[x].dist + 1;
    }
    assert b[Next(i, n)].dist <= b[i].dist + 1;
  }

  lemma OneBackKeepsContents<K, V>(b: seq<Bucket<K, V>>, slot: map<K, nat>, p: nat)
    requires p < |b| && |b| > 1 && Indexed(b, slot)
    requires b[p].item.None? && b[Next(p, |b|)].item.Some?
    ensures Indexed(OneBack(b, p), slot[b[Next(p, |b|)].item.value.0 := p])
    ensures Contents(OneBack(b, p), slot[b[Next(p, |b|)].item.value.0 := p]) == Contents(b, slot)
  {
  }

  lemma HoleCloses<K, V>(b: seq<Bucket<K, V>>, f: Hashing<K>, p: nat)
    requires HoleAt(b, f, p) && b[Next(p, |b|)].dist <= 0
    ensures RobinHood(b, f)
  {
  }

  /** What a whole backward shift starting at pos and stopping with its hole at stop has done. */
  ghost predicate ShiftedBack<K, V>(b: seq<Bucket<K, V>>, b': seq<Bucket<K, V>>, pos: nat, stop: nat) {
    && |b| == |b'| && pos < |b| && stop < |b|
    && (forall x | 0 <= x < |b| ::
          b'[x].item ==
          if Dist(pos, x, |b|) < Dist(pos, stop, |b|) then b[Next(x, |b|)].item
          else if x == stop then None
          else b[x].item)
  }

  lemma ShiftedBackStart<K, V>(b: seq<Bucket<K, V>>, pos: nat)
    requires pos < |b|
    ensures ShiftedBack(b, b[pos := b[pos].Cleared()], pos, pos)
  {
  }

  lemma ShiftedBackNext<K, V>(b: seq<Bucket<K, V>>, c: seq<Bucket<K, V>>, pos: nat, p: nat, q: nat)
    requires ShiftedBack(b, c, pos, p) && |b| > 1
    requires q < |b| && p != q && Dist(pos, p, |b|) + Dist(p, q, |b|) == Dist(pos, q, |b|)
    requires c[Next(p, |b|)].item.Some?
    ensures ShiftedBack(b, OneBack(c, p), pos, Next(p, |b|))
    ensures Dist(pos, Next(p, |b|), |b|) + Dist(Next(p, |b|), q, |b|) == Dist(pos, q, |b|)
  {
    var n := |b|;
    var i := Next(p, n);
    DistNext(pos, p, n);
    DistNext(p, q, n);
    var d := OneBack(c, p);
    forall x | 0 <= x < n
      ensures d[x].item == if Dist(pos, x, n) < Dist(pos, i, n) then b[Next(x, n)].item else if x == i then None else b[x].item
    {
      assert c[x].item == if Dist(pos, x, n) < Dist(pos, p, n) then b[Next(x, n)].item else if x == p then None else b[x].item;
    }
  }

  /** The shift that started at pos has its hole at p and is still before the empty bucket q. */
  ghost predicate Shifting<K, V>(b: seq<Bucket<K, V>>, b': seq<Bucket<K, V>>, f: Hashing<K>, pos: nat, p: nat, q: nat) {
    && HoleAt(b', f, p) && EmptyAt(b', q) && p != q
    && ShiftedBack(b, b', pos, p)
    && Dist(pos, p, |b|) + Dist(p, q, |b|) == Dist(pos, q, |b|)
  }

  lemma ShiftingNext<K, V>(b: seq<Bucket<K, V>>, b': seq<Bucket<K, V>>, f: Hashing<K>, slot: map<K, nat>, pos: nat, p: nat, q: nat)
    requires Shifting(b, b', f, pos, p, q) && Indexed(b', slot)
    requires b'[Next(p, |b|)].dist > 0
    ensures b'[Next(p, |b|)].item.Some? && Next(p, |b|) != p
    ensures Shifting(b, OneBack(b', p), f, pos, Next(p, |b|), q)
    ensures var slot' := slot[b'[Next(p, |b|)].item.value.0 := p];
            && Indexed(OneBack(b', p), slot')
            && Contents(OneBack(b', p), slot') == Contents(b', slot)
            && |slot'| == |slot|
    ensures Dist(Next(p, |b|), q, |b|) < Dist(p, q, |b|)
  {
    HoleMoves(b', f, p, q);
    OneBackKeepsContents(b', slot, p);
    ShiftedBackNext(b, b', pos, p, q);
    var slot' := slot[b'[Next(p, |b|)].item.value.0 := p];
    assert slot'.Keys == slot.Keys;
  }

  /** Below pos, a bucket keeps its element, gets the one of the next bucket, also below pos, or is emptied. */
  ghost predicate KeptBefore<K, V>(b: seq<Bucket<K, V>>, b': seq<Bucket<K, V>>, pos: nat) {
    && |b| == |b'| && pos <= |b|
    && forall x | 0 <= x < pos :: b'[x].item == b[x].item || b'[x].item.None? || (x + 1 < pos && b'[x].item == b[x + 1].item)
  }

  /** Even when the shift goes round the array end, nothing from pos on is moved before pos. */
  lemma ShiftKeepsBefore<K, V>(b: seq<Bucket<K, V>>, b': seq<Bucket<K, V>>, pos: nat, stop: nat)
    requires ShiftedBack(b, b', pos, stop)
    ensures KeptBefore(b, b', pos)
  {
    forall x | 0 <= x < pos
      ensures b'[x].item == b[x].item || b'[x].item.None? || (x + 1 < pos && b'[x].item == b[x + 1].item)
    {
      assert b'[x].item == if Dist(pos, x, |b|) < Dist(pos, stop, |b|) then b[Next(x, |b|)].item else if x == stop then None else b[x].item;
    }
  }

  // ---------------------------------------------------------------- range erasure

  ghost function SlotsOutside<K>(slot: map<K, nat>, first: nat, last: nat): map<K, nat> {
    map k | k in slot && !(first <= slot[k] < last) :: slot[k]
  }

  /** What is left of the contents without the buckets from first up to last. */
  ghost function ContentsOutside<K, V>(b: seq<Bucket<K, V>>, slot: map<K, nat>, first: nat, last: nat): map<K, V>
    requires Indexed(b, slot)
  {
    map k | k in slot && !(first <= slot[k] < last) :: b[slot[k]].item.value.1
  }

  ghost predicate ClearedRange<K, V>(b: seq<Bucket<K, V>>, b': seq<Bucket<K, V>>, first: nat, last: nat) {
    |b| == |b'| && forall x | 0 <= x < |b| :: b'[x] == if first <= x < last then b[x].Cleared() else b[x]
  }

  lemma ClearedContents<K, V>(b: seq<Bucket<K, V>>, b': seq<Bucket<K, V>>, slot: map<K, nat>, first: nat, last: nat)
    requires Indexed(b, slot) && ClearedRange(b, b', first, last)
    ensures Indexed(b', SlotsOutside(slot, first, last))
    ensures Contents(b', SlotsOutside(slot, first, last)) == ContentsOutside(b, slot, first, last)
  {
  }

  lemma SlotsOutsideNext<K, V>(b: seq<Bucket<K, V>>, slot: map<K, nat>, first: nat, j: nat)
    requires Indexed(b, slot) && first <= j < |b|
    ensures b[j].item.None? ==> SlotsOutside(slot, first, j + 1) == SlotsOutside(slot, first, j)
    ensures b[j].item.Some? ==> |SlotsOutside(slot, first, j + 1)| == |SlotsOutside(slot, first, j)| - 1
  {
    if b[j].item.Some? {
      var k := b[j].item.value.0;
      assert SlotsOutside(slot, first, j) == SlotsOutside(slot, first, j + 1)[k := j];
    }
  }

  /** Smooth, except from the last bucket to the first one and into bucket to. */
  ghost predicate SmoothBut<K, V>(b: seq<Bucket<K, V>>, to: nat) {
    forall x {:trigger Next(x, |b|)} | 0 <= x < |b| - 1 && x + 1 != to :: b[Next(x, |b|)].dist <= b[x].dist + 1
  }

  /** The shift of the range erase has refilled the buckets before closer from those before to. */
  ghost predicate RangeShifting<K, V>(b: seq<Bucket<K, V>>, b': seq<Bucket<K, V>>, f: Hashing<K>, first: nat, last: nat, closer: nat, to: nat) {
    && |b'| == |b| && first <= closer < to <= |b| && last <= to
    && GoodBuckets(b', f) && SmoothBut(b', to)
    && (forall x | closer <= x < to :: b'[x].Empty())
    && (forall x | 0 <= x < |b| && (x < first || to <= x) :: b'[x] == b[x])
    && (to < |b| && closer > 0 ==> b'[to].dist - (to - closer) <= b'[closer - 1].dist + 1)
    && (closer == first <==> to == last)
    && (last < |b| && first == 0 ==> b'[0].Empty() || b'[0].dist <= b[last].dist - last)
  }

  lemma RangeShiftStarts<K, V>(b: seq<Bucket<K, V>>, b': seq<Bucket<K, V>>, f: Hashing<K>, first: nat, last: nat)
    requires RobinHood(b, f) && first < last <= |b| && ClearedRange(b, b', first, last)
    ensures RangeShifting(b, b', f, first, last, first, last)
  {
    var n := |b|;
    forall x | 0 <= x < n
      ensures GoodBucket(b'[x], x, n, f)
    {
      assert GoodBucket(b[x], x, n, f);
    }
    forall x {:trigger Next(x, n)} | 0 <= x < n - 1 && x + 1 != last
      ensures b'[Next(x, n)].dist <= b'[x].dist + 1
    {
      assert b[Next(x, n)].dist <= b[x].dist + 1;
      assert GoodBucket(b[x], x, n, f);
    }
    if last < n && first > 0 {
      Climb(b, first - 1, last);
    }
  }

  /** Where the element at to goes: its home, or the first bucket still free. */
  function CloserBucket(closer: nat, to: nat, d: nat): (t: nat)
    requires closer < to
    ensures closer <= t <= to
    ensures d > 0 ==> t < to
  {
    to - (if to - closer <= d then to - closer else d)
  }

  function MovedCloser<K, V>(b: seq<Bucket<K, V>>, t: nat, to: nat): seq<Bucket<K, V>>
    requires t < to < |b| && b[to].item.Some?
  {
    b[t := b[t].Holding(b[to].dist - (to - t), b[to].hash, b[to].item.value)][to := b[to].Cleared()]
  }

  lemma RangeShiftNext<K, V>(b: seq<Bucket<K, V>>, c: seq<Bucket<K, V>>, f: Hashing<K>, first: nat, last: nat, closer: nat, to: nat)
    requires RangeShifting(b, c, f, first, last, closer, to) && RobinHood(b, f)
    requires to < |b| && c[to].dist > 0
    ensures c[to].item.Some?
    ensures var t := CloserBucket(closer, to, c[to].dist);
            && c[t].Empty()
            && RangeShifting(b, MovedCloser(c, t, to), f, first, last, t + 1, to + 1)
  {
    var n := |b|;
    assert GoodBucket(c[to], to, n, f);
    var t := CloserBucket(closer, to, c[to].dist);
    var d := MovedCloser(c, t, to);
    assert c[t].Empty();
    forall x | 0 <= x < n
      ensures GoodBucket(d[x], x, n, f)
    {
      assert GoodBucket(c[x], x, n, f);
    }
    forall x {:trigger Next(x, n)} | 0 <= x < n - 1 && x + 1 != to + 1
      ensures d[Next(x, n)].dist <= d[x].dist + 1
    {
      assert x + 1 != to ==> c[Next(x, n)].dist <= c[x].dist + 1;
      assert GoodBucket(c[x], x, n, f);
    }
    assert to + 1 < n ==> b[Next(to, n)].dist <= b[to].dist + 1;
  }

  lemma MovedCloserContents<K, V>(b: seq<Bucket<K, V>>, slot: map<K, nat>, t: nat, to: nat)
    requires Indexed(b, slot) && t < to < |b| && b[t].item.None? && b[to].item.Some?
    ensures Indexed(MovedCloser(b, t, to), slot[b[to].item.value.0 := t])
    ensures Contents(MovedCloser(b, t, to), slot[b[to].item.value.0 := t]) == Contents(b, slot)
    ensures |slot[b[to].item.value.0 := t]| == |slot|
  {
    assert slot[b[to].item.value.0 := t].Keys == slot.Keys;
  }

  /** Nothing that was in front of the erased range depended on the range being full: the range starts
      the array, no chain comes round the array end, or the shift has where to stop before it. */
  ghost predicate RangeDetached<K, V>(b: seq<Bucket<K, V>>, first: nat, last: nat)
    requires |b| > 0
  {
    first == 0 || b[0].dist <= 0 || exists j :: last <= j < |b| && b[j].dist <= 0
  }

  /** The one link the shift cannot repair is the one from the array end to the array start. */
  lemma RangeShiftLink<K, V>(b: seq<Bucket<K, V>>, c: seq<Bucket<K, V>>, f: Hashing<K>, first: nat, last: nat, closer: nat, to: nat, q: nat)
    requires RobinHood(b, f) && EmptyAt(b, q) && first < last
    requires RangeShifting(b, c, f, first, last, closer, to)
    requires forall j | last <= j < to :: b[j].dist > 0
    requires to == |b| || c[to].dist <= 0
    ensures c[0].dist <= c[|b| - 1].dist + 1 <==> RangeDetached(b, first, last)
    ensures !RangeDetached(b, first, last) ==> c[0].dist > 0 && c[|b| - 1].Empty()
  {
    var n := |b|;
    assert GoodBucket(b[n - 1], n - 1, n, f) && GoodBucket(c[n - 1], n - 1, n, f) && GoodBucket(c[0], 0, n, f);
    assert Next(n - 1, n) == 0 && b[Next(n - 1, n)].dist <= b[n - 1].dist + 1;
    if last < n && first == 0 {
      if q < last {
        Climb(b, q, last);
      } else {
        assert to < n;
        Climb(b, 0, last);
      }
    }
  }

  /** When the shift stops, the array is a Robin Hood array again exactly for detached ranges. */
  lemma RangeShiftEnds<K, V>(b: seq<Bucket<K, V>>, c: seq<Bucket<K, V>>, f: Hashing<K>, first: nat, last: nat, closer: nat, to: nat, q: nat)
    requires RobinHood(b, f) && EmptyAt(b, q) && first < last
    requires RangeShifting(b, c, f, first, last, closer, to)
    requires forall j | last <= j < to :: b[j].dist > 0
    requires to == |b| || c[to].dist <= 0
    ensures RobinHood(c, f) <==> RangeDetached(b, first, last)
    ensures !RangeDetached(b, first, last) ==> c[0].dist > 0 && c[|b| - 1].Empty()
  {
    var n := |b|;
    RangeShiftLink(b, c, f, first, last, closer, to, q);
    if RobinHood(c, f) {
      assert Next(n - 1, n) == 0 && c[Next(n - 1, n)].dist <= c[n - 1].dist + 1;
    }
    if c[0].dist <= c[n - 1].dist + 1 {
      forall x {:trigger Next(x, n)} | 0 <= x < n
        ensures c[Next(x, n)].dist <= c[x].dist + 1
      {
        assert GoodBucket(c[x], x, n, f);
      }
    }
  }

  /** find walks from the home of the element in bucket x all the way to x. */
  ghost predicate Findable<K, V>(b: seq<Bucket<K, V>>, f: Hashing<K>, x: nat)
    requires x < |b| && b[x].item.Some? && f.home(b[x].item.value.0) < |b|
  {
    var h := f.home(b[x].item.value.0);
    forall y | 0 <= y < |b| && Dist(h, y, |b|) <= Dist(h, x, |b|) :: Dist(h, y, |b|) <= b[y].dist
  }

  lemma AllFindable<K, V>(b: seq<Bucket<K, V>>, f: Hashing<K>, x: nat)
    requires RobinHood(b, f) && x < |b| && b[x].item.Some?
    ensures f.home(b[x].item.value.0) < |b| && Findable(b, f, x)
  {
    assert GoodBucket(b[x], x, |b|, f);
    var h := f.home(b[x].item.value.0);
    forall y | 0 <= y < |b| && Dist(h, y, |b|) <= Dist(h, x, |b|)
      ensures Dist(h, y, |b|) <= b[y].dist
    {
      Climb(b, y, x);
      DistVia(h, y, x, |b|);
    }
  }

  /** An element left at the array start behind an emptied array end cannot be found any more. */
  lemma LostAtTheStart<K, V>(b: seq<Bucket<K, V>>, f: Hashing<K>)
    requires |b| > 0 && GoodBuckets(b, f) && b[0].dist > 0 && b[|b| - 1].Empty()
    ensures b[0].item.Some? && f.home(b[0].item.value.0) < |b| && !Findable(b, f, 0)
  {
    assert GoodBucket(b[0], 0, |b|, f);
    var h := f.home(b[0].item.value.0);
    assert Dist(h, |b| - 1, |b|) <= Dist(h, 0, |b|);
  }

  // ---------------------------------------------------------------- counting

  ghost function FullBuckets<K, V>(b: seq<Bucket<K, V>>): set<nat> {
    set i | 0 <= i < |b| && b[i].item.Some?
  }

  /** m_nb_elements is the number of non-empty buckets when it is the number of keys. */
  lemma FullBucketsCounted<K, V>(b: seq<Bucket<K, V>>, slot: map<K, nat>)
    requires Indexed(b, slot)
    ensures |FullBuckets(b)| == |slot|
  {
    var keyAt := map i | i in FullBuckets(b) :: b[i].item.value.0;
    SameCount(slot.Keys, FullBuckets(b), slot, keyAt);
  }

  /** Fewer elements than buckets leaves a bucket empty. */
  lemma SomeEmpty<K, V>(b: seq<Bucket<K, V>>, f: Hashing<K>, slot: map<K, nat>) returns (q: nat)
    requires GoodBuckets(b, f) && Indexed(b, slot) && |slot| < |b|
    ensures EmptyAt(b, q)
  {
    FullBucketsCounted(b, slot);
    if i: nat :| i < |b| && b[i].item.None? {
      q := i;
      assert GoodBucket(b[q], q, |b|, f);
    } else {
      SubsetCount(Below(|b|), FullBuckets(b));
      assert false;
    }
  }

  // ---------------------------------------------------------------- the layout is canonical

  /** The buckets holding elements whose home is h. */
  ghost function WithHome<K, V>(b: seq<Bucket<K, V>>, f: Hashing<K>, h: nat): set<nat> {
    set i | 0 <= i < |b| && b[i].item.Some? && f.home(b[i].item.value.0) == h
  }

  /** If c's element at x is closer to home than b's, c's elements with the home of b[x] lie strictly
      between that home and x. */
  lemma HomeBefore<J, K, U, V>(b: seq<Bucket<J, U>>, f: Hashing<J>, c: seq<Bucket<K, V>>, g: Hashing<K>, q: nat, x: nat, y: nat)
    requires RobinHood(b, f) && RobinHood(c, g) && |b| == |c|
    requires EmptyAt(b, q) && x < |b| && b[x].item.Some? && c[x].dist < b[x].dist
    requires y in WithHome(c, g, f.home(b[x].item.value.0))
    ensures f.home(b[x].item.value.0) < |b|
    ensures c[y].dist == Dist(f.home(b[x].item.value.0), y, |b|) < Dist(f.home(b[x].item.value.0), x, |b|)
    ensures Dist(q, y, |b|) < Dist(q, x, |b|)
  {
    var n := |b|;
    assert GoodBucket(b[x], x, n, f) && GoodBucket(c[y], y, n, g);
    var h := f.home(b[x].item.value.0);
    Climb(b, q, x);
    Climb(c, x, y);
    DistVia(h, x, y, n);
    DistVia(q, h, x, n);
  }

  /** An element between the home h of x's element and x, no further from h than the bucket is, has home h too. */
  lemma HomeAgrees<K, V>(b: seq<Bucket<K, V>>, f: Hashing<K>, h: nat, x: nat, y: nat)
    requires RobinHood(b, f) && x < |b| && y < |b| && h < |b|
    requires b[x].item.Some? && f.home(b[x].item.value.0) == h
    requires Dist(h, y, |b|) < Dist(h, x, |b|) && b[y].dist <= Dist(h, y, |b|)
    ensures y in WithHome(b, f, h) && y != x
  {
    var n := |b|;
    assert GoodBucket(b[x], x, n, f) && GoodBucket(b[y], y, n, f);
    Climb(b, y, x);
    DistVia(h, y, x, n);
  }

  /** From an empty bucket of b onwards, no element of b is further from home than what c has there. */
  lemma {:induction false} NoFurther<J, K, U, V>(b: seq<Bucket<J, U>>, f: Hashing<J>, c: seq<Bucket<K, V>>, g: Hashing<K>, q: nat, x: nat)
    requires RobinHood(b, f) && RobinHood(c, g) && |b| == |c|
    requires EmptyAt(b, q) && x < |b|
    requires forall h: nat :: |WithHome(b, f, h)| == |WithHome(c, g, h)|
    ensures b[x].dist <= c[x].dist
    decreases Dist(q, x, |b|)
  {
    var n := |b|;
    assert GoodBucket(b[x], x, n, f) && GoodBucket(c[x], x, n, g);
    if b[x].dist > c[x].dist {
      var h := f.home(b[x].item.value.0);
      Climb(b, q, x);
      forall y | y in WithHome(c, g, h)
        ensures y in WithHome(b, f, h) && y != x
      {
        HomeBefore(b, f, c, g, q, x, y);
        NoFurther(b, f, c, g, q, y);
        HomeAgrees(b, f, h, x, y);
      }
      assert x in WithHome(b, f, h);
      assert WithHome(c, g, h) <= WithHome(b, f, h) - {x};
      SubsetSmaller(WithHome(c, g, h), WithHome(b, f, h), x);
      assert false;
    }
  }

  lemma SubsetSmaller(s: set<nat>, t: set<nat>, x: nat)
    requires s <= t - {x} && x in t
    ensures |s| < |t|
  {
    SubsetCount(s, t - {x});
  }

  /** Two Robin Hood arrays of the same size whose elements have the same multiset of homes are
      occupied in the same buckets with the same probe lengths. */
  lemma LayoutIsCanonical<J, K, U, V>(b: seq<Bucket<J, U>>, f: Hashing<J>, c: seq<Bucket<K, V>>, g: Hashing<K>, q: nat, r: nat)
    requires RobinHood(b, f) && RobinHood(c, g) && |b| == |c|
    requires EmptyAt(b, q) && EmptyAt(c, r)
    requires forall h: nat :: |WithHome(b, f, h)| == |WithHome(c, g, h)|
    ensures forall x | 0 <= x < |b| :: b[x].dist == c[x].dist
    ensures FullBuckets(b) == FullBuckets(c)
  {
    forall x | 0 <= x < |b|
      ensures b[x].dist == c[x].dist && (b[x].item.Some? <==> c[x].item.Some?)
    {
      NoFurther(b, f, c, g, q, x);
      NoFurther(c, g, b, f, r, x);
      assert GoodBucket(b[x], x, |b|, f) && GoodBucket(c[x], x, |b|, g);
    }
  }

  /** Arrays holding the same keys have the same multiset of homes. */
  lemma SameKeysSameHomes<K, U, V>(b: seq<Bucket<K, U>>, slot: map<K, nat>, c: seq<Bucket<K, V>>, slot': map<K, nat>, f: Hashing<K>, h: nat)
    requires Indexed(b, slot) && Indexed(c, slot') && slot.Keys == slot'.Keys
    ensures |WithHome(b, f, h)| == |WithHome(c, f, h)|
  {
    var s, t := WithHome(b, f, h), WithHome(c, f, h);
    var to := map i | i in s :: slot'[b[i].item.value.0];
    var back := map j | j in t :: slot[c[j].item.value.0];
    SameCount(s, t, to, back);
  }

  /** The array two histories leave behind is the same, bucket for bucket in occupancy and probe length,
      whenever they leave the same keys. */
  lemma SameKeysSameLayout<K, U, V>(b: seq<Bucket<K, U>>, slot: map<K, nat>, c: seq<Bucket<K, V>>, slot': map<K, nat>, f: Hashing<K>)
    requires RobinHood(b, f) && RobinHood(c, f) && |b| == |c|
    requires Indexed(b, slot) && Indexed(c, slot') && slot.Keys == slot'.Keys
    requires |slot| < |b|
    ensures forall x | 0 <= x < |b| :: b[x].dist == c[x].dist
    ensures FullBuckets(b) == FullBuckets(c)
  {
    assert |slot| == |slot.Keys| == |slot'.Keys| == |slot'|;
    var q := SomeEmpty(b, f, slot);
    var r := SomeEmpty(c, f, slot');
    forall h: nat
      ensures |WithHome(b, f, h)| == |WithHome(c, f, h)|
    {
      SameKeysSameHomes(b, slot, c, slot', f, h);
    }
    LayoutIsCanonical(b, f, c, f, q, r);
  }
}
