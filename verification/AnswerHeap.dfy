/** The bounded heap that merges the answers of several indices. */
module AnswerHeap {
  import opened Queues

  // ---------------------------------------------------------------- std::push_heap and std::pop_heap

  predicate AtMost(a: Pair, b: Pair) {
    a == b || Less(a, b)
  }

  function Parent(i: nat): (p: nat)
    requires i > 0
    ensures p < i
  {
    (i - 1) / 2
  }

  ghost predicate IsHeap(s: seq<Pair>) {
    forall i {:trigger Parent(i)} | 0 < i < |s| :: AtMost(s[i], s[Parent(i)])
  }

  lemma {:induction false} FrontIsLargest(s: seq<Pair>, i: nat)
    requires IsHeap(s) && i < |s|
    ensures AtMost(s[i], s[0])
    ensures s[i].first < s[0].first || (s[i].first == s[0].first && s[i].second <= s[0].second)
  {
    if i > 0 {
      FrontIsLargest(s, Parent(i));
    }
  }

  /** A heap except that the element at i may be too large for its place. */
  ghost predicate HeapButUp(s: seq<Pair>, i: nat) {
    && i < |s|
    && (forall j {:trigger Parent(j)} | 0 < j < |s| && j != i :: AtMost(s[j], s[Parent(j)]))
    && (forall j {:trigger Parent(j)} | 0 < j < |s| && Parent(j) == i && i > 0 :: AtMost(s[j], s[Parent(i)]))
  }

  /** A heap except that the element at i may be too small for its place. */
  ghost predicate HeapButDown(s: seq<Pair>, i: nat) {
    && (forall j {:trigger Parent(j)} | 0 < j < |s| && Parent(j) != i :: AtMost(s[j], s[Parent(j)]))
    && (forall j {:trigger Parent(j)} | 0 < j < |s| && Parent(j) == i && i > 0 :: AtMost(s[j], s[Parent(i)]))
  }

  function Swap(s: seq<Pair>, i: nat, j: nat): (r: seq<Pair>)
    requires i < |s| && j < |s|
    ensures |r| == |s| && multiset(r) == multiset(s)
  {
    s[i := s[j]][j := s[i]]
  }

  lemma UpStep(s: seq<Pair>, i: nat)
    requires HeapButUp(s, i) && i > 0 && Less(s[Parent(i)], s[i])
    ensures HeapButUp(Swap(s, i, Parent(i)), Parent(i))
  {
    var p := Parent(i);
    var r := Swap(s, i, p);
    assert p > 0 ==> AtMost(s[p], s[Parent(p)]);
    forall j {:trigger Parent(j)} | 0 < j < |r| && j != p
      ensures AtMost(r[j], r[Parent(j)])
    {
      assert j != i ==> AtMost(s[j], s[Parent(j)]);
    }
    forall j {:trigger Parent(j)} | 0 < j < |r| && Parent(j) == p && p > 0
      ensures AtMost(r[j], r[Parent(p)])
    {
      assert j != i ==> AtMost(s[j], s[Parent(j)]);
    }
  }

  lemma UpDone(s: seq<Pair>, i: nat)
    requires HeapButUp(s, i) && (i == 0 || !Less(s[Parent(i)], s[i]))
    ensures IsHeap(s)
  {
  }

  method PushHeap(s: seq<Pair>) returns (r: seq<Pair>)
    requires |s| > 0 && IsHeap(s[..|s| - 1])
    ensures IsHeap(r) && multiset(r) == multiset(s) && |r| == |s|
  {
    r := s;
    var i: nat := |s| - 1;
    PushStarts(s);
    while i > 0 && Less(r[Parent(i)], r[i])
      invariant |r| == |s| && HeapButUp(r, i) && multiset(r) == multiset(s)
    {
      UpStep(r, i);
      hide HeapButUp;
      r := Swap(r, i, Parent(i));
      i := Parent(i);
    }
    UpDone(r, i);
  }

  lemma PushStarts(s: seq<Pair>)
    requires |s| > 0 && IsHeap(s[..|s| - 1])
    ensures HeapButUp(s, |s| - 1)
  {
    var t := s[..|s| - 1];
    forall j {:trigger Parent(j)} | 0 < j < |s| && j != |s| - 1
      ensures AtMost(s[j], s[Parent(j)])
    {
      assert t[j] == s[j] && t[Parent(j)] == s[Parent(j)] && AtMost(t[j], t[Parent(j)]);
    }
  }

  /** The child of i to compare with: the larger one. */
  predicate LargerChild(s: seq<Pair>, i: nat, c: nat) {
    0 < c < |s| && Parent(c) == i && (forall j: nat | 0 < j < |s| && Parent(j) == i :: AtMost(s[j], s[c]))
  }

  lemma DownStep(s: seq<Pair>, i: nat, c: nat)
    requires HeapButDown(s, i) && i < |s| && LargerChild(s, i, c) && !AtMost(s[c], s[i])
    ensures HeapButDown(Swap(s, i, c), c)
  {
    var r := Swap(s, i, c);
    forall j {:trigger Parent(j)} | 0 < j < |r| && Parent(j) != c
      ensures AtMost(r[j], r[Parent(j)])
    {
      assert Parent(j) != i ==> AtMost(s[j], s[Parent(j)]);
      assert Parent(j) == i ==> AtMost(s[j], s[c]);
    }
    forall j {:trigger Parent(j)} | 0 < j < |r| && Parent(j) == c && c > 0
      ensures AtMost(r[j], r[Parent(c)])
    {
      assert AtMost(s[j], s[Parent(j)]);
    }
  }

  lemma DownDone(s: seq<Pair>, i: nat, c: nat)
    requires HeapButDown(s, i) && i < |s|
    requires LargerChild(s, i, c) ==> AtMost(s[c], s[i])
    requires LargerChild(s, i, c) || forall j: nat | 0 < j < |s| :: Parent(j) != i
    ensures IsHeap(s)
  {
  }

  lemma ChildrenOf(s: seq<Pair>, i: nat)
    requires i < |s|
    ensures forall j: nat | 0 < j < |s| && Parent(j) == i :: j == 2 * i + 1 || j == 2 * i + 2
    ensures Parent(2 * i + 1) == i && Parent(2 * i + 2) == i
  {
  }

  /** The largest element goes to the back; the rest is a heap. */
  method PopHeap(s: seq<Pair>) returns (r: seq<Pair>)
    requires |s| > 0 && IsHeap(s)
    ensures |r| == |s| && multiset(r) == multiset(s)
    ensures r[|r| - 1] == s[0] && IsHeap(r[..|r| - 1])
  {
    var n := |s| - 1;
    var swapped := Swap(s, 0, n);
    var t := swapped[..n];
    assert swapped == t + [s[0]];
    PopStarts(s, t);
    t := SiftDown(t);
    r := t + [s[0]];
    assert r[..n] == t;
  }

  lemma PopStarts(s: seq<Pair>, t: seq<Pair>)
    requires |s| > 0 && IsHeap(s) && t == Swap(s, 0, |s| - 1)[..|s| - 1]
    ensures HeapButDown(t, 0)
  {
    forall j {:trigger Parent(j)} | 0 < j < |t| && Parent(j) != 0
      ensures AtMost(t[j], t[Parent(j)])
    {
      assert AtMost(s[j], s[Parent(j)]);
    }
  }

  lemma ChildChosen(s: seq<Pair>, i: nat, c: nat)
    requires 2 * i + 1 < |s|
    requires c == if 2 * i + 2 < |s| && Less(s[2 * i + 1], s[2 * i + 2]) then 2 * i + 2 else 2 * i + 1
    ensures LargerChild(s, i, c) && i < c < |s|
  {
    ChildrenOf(s, i);
  }

  lemma NoChildren(s: seq<Pair>, i: nat)
    requires HeapButDown(s, i) && |s| <= 2 * i + 1
    ensures IsHeap(s)
  {
  }

  method SiftDown(s: seq<Pair>) returns (t: seq<Pair>)
    requires HeapButDown(s, 0)
    ensures IsHeap(t) && multiset(t) == multiset(s) && |t| == |s|
  {
    t := s;
    var i: nat := 0;
    while 2 * i + 1 < |t|
      invariant |t| == |s| && HeapButDown(t, i) && multiset(t) == multiset(s)
      decreases |t| - i
    {
      hide HeapButDown, IsHeap, LargerChild, Parent;
      var c := 2 * i + 1;
      if c + 1 < |t| && Less(t[c], t[c + 1]) {
        c := c + 1;
      }
      ChildChosen(t, i, c);
      if AtMost(t[c], t[i]) {
        DownDone(t, i, c);
        return;
      }
      DownStep(t, i, c);
      t := Swap(t, i, c);
      i := c;
    }
    NoChildren(t, i);
  }

  // ---------------------------------------------------------------- the merge

  /** kept are k of the elements of all (all of them if there are fewer) and no other element is nearer. */
  ghost predicate IsNearest(kept: Bag, all: Bag, k: nat) {
    && kept <= all
    && |kept| == (if |all| < k then |all| else k)
    && forall x, y | x in all - kept && y in kept :: y.first <= x.first
  }

  lemma PartOfBag(a: Bag, u: Bag)
    requires a <= u
    ensures |u| == |a| + |u - a|
    ensures |a| == |u| ==> a == u
  {
    assert u == a + (u - a);
    assert |a| == |u| ==> u - a == multiset{};
  }

  /** Looking only at the k nearest of a part loses nothing. */
  lemma NearestOfUnion(a: Bag, u: Bag, b: Bag, r: Bag, k: nat)
    requires IsNearest(a, u, k) && IsNearest(r, a + b, k)
    ensures IsNearest(r, u + b, k)
  {
    PartOfBag(a, u);
    forall x, y | x in u + b - r && y in r
      ensures y.first <= x.first
    {
      if x !in a + b - r {
        assert x in u - a;
        if y !in a {
          if a <= r {
            PartOfBag(a, r);
          }
          var z :| a[z] > r[z];
          assert z in a + b - r && z in a;
        }
      }
    }
  }

  ghost function Sum(bags: seq<Bag>): Bag {
    if bags == [] then multiset{} else Sum(bags[..|bags| - 1]) + bags[|bags| - 1]
  }

  /** If every index answers with its k nearest, the k nearest of the answers are the k nearest of all
      elements of all indices. */
  lemma {:induction false} MergeIsBruteForce(answers: seq<Bag>, universes: seq<Bag>, other: Bag, r: Bag, k: nat)
    requires |answers| == |universes| && forall i | 0 <= i < |answers| :: IsNearest(answers[i], universes[i], k)
    requires IsNearest(r, Sum(answers) + other, k)
    ensures IsNearest(r, Sum(universes) + other, k)
  {
    if answers == [] {
    } else {
      var n := |answers| - 1;
      assert Sum(answers) + other == answers[n] + (Sum(answers[..n]) + other);
      NearestOfUnion(answers[n], universes[n], Sum(answers[..n]) + other, r, k);
      assert universes[n] + (Sum(answers[..n]) + other) == Sum(answers[..n]) + (universes[n] + other);
      MergeIsBruteForce(answers[..n], universes[..n], universes[n] + other, r, k);
      assert Sum(universes[..n]) + (universes[n] + other) == Sum(universes) + other;
    }
  }

  lemma OfferGrows(kept: Bag, all: Bag, k: nat, cur: Pair)
    requires IsNearest(kept, all, k) && |kept| < k
    ensures IsNearest(kept + multiset{cur}, all + multiset{cur}, k)
  {
    PartOfBag(kept, all);
    assert kept == all;
  }

  lemma OfferReplaces(kept: Bag, all: Bag, k: nat, cur: Pair, worst: Pair)
    requires IsNearest(kept, all, k) && |kept| == k
    requires worst in kept && (forall p | p in kept :: p.first <= worst.first) && cur.first <= worst.first
    ensures IsNearest(kept - multiset{worst} + multiset{cur}, all + multiset{cur}, k)
  {
    var kept', all' := kept - multiset{worst} + multiset{cur}, all + multiset{cur};
    forall x, y | x in all' - kept' && y in kept'
      ensures y.first <= x.first
    {
      assert x == worst || x in all - kept;
      assert y == cur || y in kept;
    }
  }

  lemma OfferRefused(kept: Bag, all: Bag, k: nat, cur: Pair)
    requires IsNearest(kept, all, k) && |kept| == k && forall p | p in kept :: p.first <= cur.first
    ensures IsNearest(kept, all + multiset{cur}, k)
  {
    forall x, y | x in all + multiset{cur} - kept && y in kept
      ensures y.first <= x.first
    {
      assert x == cur || x in all - kept;
    }
  }

  /** The far end of the heap is replaced: pop_heap, result_items.back() = cur, push_heap. */
  method ReplaceWorst(items: seq<Pair>, cur: Pair) returns (r: seq<Pair>)
    requires IsHeap(items) && |items| > 0
    ensures IsHeap(r) && |r| == |items| && multiset(r) == multiset(items) - multiset{items[0]} + multiset{cur}
  {
    hide IsHeap;
    var popped := PopHeap(items);
    var n := |popped| - 1;
    assert popped == popped[..n] + [items[0]];
    assert multiset(popped[..n]) == multiset(items) - multiset{items[0]};
    var replaced := popped[n := cur];
    assert replaced[..n] == popped[..n] && replaced == popped[..n] + [cur];
    r := PushHeap(replaced);
  }

  /** Body of the inner loop of search: the heap of the k nearest takes in one more answer. */
  method Offer(items: seq<Pair>, cur: Pair, k: nat, ghost all: Bag) returns (r: seq<Pair>)
    requires k > 0 && IsHeap(items) && IsNearest(multiset(items), all, k)
    ensures IsHeap(r) && IsNearest(multiset(r), all + multiset{cur}, k)
  {
    assert |items| <= k;
    hide IsHeap, IsNearest;
    if |items| < k {
      assert (items + [cur])[..|items|] == items;
      OfferGrows(multiset(items), all, k, cur);
      r := PushHeap(items + [cur]);
    } else {
      FrontLargest(items);
      if items[0].first >= cur.first {
        OfferReplaces(multiset(items), all, k, cur, items[0]);
        r := ReplaceWorst(items, cur);
      } else {
        OfferRefused(multiset(items), all, k, cur);
        r := items;
      }
    }
  }

  lemma FrontLargest(s: seq<Pair>)
    requires IsHeap(s) && |s| > 0
    ensures s[0] in multiset(s) && forall p | p in multiset(s) :: p.first <= s[0].first
  {
    forall p | p in multiset(s)
      ensures p.first <= s[0].first
    {
      var i: nat :| i < |s| && s[i] == p;
      FrontIsLargest(s, i);
    }
  }
}
