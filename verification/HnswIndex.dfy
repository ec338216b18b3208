/** Index::knnQuery: the result queue of a search is drained into arrays of ascending distance. */
module HnswIndex {
  import opened Queues
  import opened FiniteSets
  import opened BestFirst
  import opened BeamSearch
  import opened HnswGraph
  import opened Hnsw
  import opened AnswerHeap

  ghost function Zip(distances: seq<real>, items: seq<nat>): (r: seq<Pair>)
    requires |distances| == |items|
    ensures |r| == |items| && forall i | 0 <= i < |r| :: r[i] == Pair(distances[i], items[i])
  {
    seq(|items|, i requires 0 <= i < |items| => Pair(distances[i], items[i]))
  }

  ghost predicate Ascending(s: seq<real>) {
    forall i, j | 0 <= i < j < |s| :: s[i] <= s[j]
  }

  /** What has been written to the arrays and what is still in the queue. */
  ghost predicate Draining(results: Bag, rest: Bag, distances: seq<real>, items: seq<nat>) {
    && |distances| == |items|
    && multiset(Zip(distances, items)) + rest == results
    && Ascending(distances)
    && forall p, i | p in rest && 0 <= i < |distances| :: p.first <= distances[i]
  }

  lemma DrainNext(results: Bag, rest: Bag, distances: seq<real>, items: seq<nat>, e: Pair)
    requires Draining(results, rest, distances, items) && TopOfBag(rest, e)
    ensures Draining(results, rest - multiset{e}, [e.first] + distances, [e.second] + items)
  {
    assert Zip([e.first] + distances, [e.second] + items) == [e] + Zip(distances, items);
    assert rest == (rest - multiset{e}) + multiset{e};
  }

  lemma Drained(results: Bag, distances: seq<real>, items: seq<nat>)
    requires Draining(results, multiset{}, distances, items)
    ensures multiset(Zip(distances, items)) == results && Ascending(distances)
  {
  }

  method WriteResult(items: array<nat>, distances: array<real>, i: nat, n: nat, e: Pair)
    requires i < n <= items.Length && n <= distances.Length
    modifies items, distances
    ensures distances[i..n] == [e.first] + old(distances[i + 1..n])
    ensures items[i..n] == [e.second] + old(items[i + 1..n])
  {
    distances[i] := e.first;
    items[i] := e.second;
  }

  /** The descending loop of knnQuery. */
  method DrainAscending(results: Bag, items: array<nat>, distances: array<real>) returns (n: nat)
    requires |results| <= items.Length && |results| <= distances.Length
    modifies items, distances
    ensures n == |results| && multiset(Zip(distances[..n], items[..n])) == results
    ensures Ascending(distances[..n])
  {
    n := |results|;
    var i := n;
    var rest := results;
    assert distances[n..n] == [] && items[n..n] == [];
    assert Draining(results, rest, [], []);
    while i > 0
      invariant 0 <= i <= n && |rest| == i
      invariant Draining(results, rest, distances[i..n], items[i..n])
    {
      hide Draining, TopOfBag;
      var e, less := PopBag(rest);
      DrainNext(results, rest, distances[i..n], items[i..n], e);
      i := i - 1;
      WriteResult(items, distances, i, n, e);
      rest := less;
    }
    Drained(results, distances[0..n], items[0..n]);
    assert distances[0..n] == distances[..n] && items[0..n] == items[..n];
  }

  /** The nodes of a set with their distances. */
  ghost function WithDistances(ds: seq<real>, nodes: set<nat>): Queue {
    set v | v in nodes && v < |ds| :: Pair(ds[v], v)
  }

  /** A beam at least as wide as what is reachable from its start makes the answer exact: the k nearest
      of all reachable nodes. */
  lemma WideQueryIsExact(q: Query, found: Found, order: seq<Pair>, k: nat, reached: set<nat>)
    requires IsLayer(q.g, q.ds) && Delivered(q, found.top, found.visited, found.expanded) && KNearest(found.top, order, k)
    requires AllReached(q.g, q.s, reached) && |reached| <= Width(q.ef)
    ensures KNearest(WithDistances(q.ds, reached), order, k)
  {
    WideBeamIsExact(q, found.top, found.visited, found.expanded, reached);
    assert found.top == WithDistances(q.ds, reached);
  }

  /** knnQuery */
  method KnnQuery(alg: HierarchicalNSW, query: Vector, items: array<nat>, distances: array<real>, k: nat)
    returns (n: nat, ghost start: nat, ghost found: Found, ghost order: seq<Pair>)
    requires alg.Valid() && alg.count > 0 && items.Length >= k && distances.Length >= k
    requires items != alg.levels && items != alg.labels
    modifies items, distances
    ensures n == |order| <= k && start < alg.count
    ensures alg.Entered(query, start)
    ensures Ascending(distances[..n])
    ensures forall i | 0 <= i < |order| :: order[i].second < alg.count
    ensures multiset(Zip(distances[..n], items[..n])) == multiset(Relabelled(order, alg.labels[..alg.count]))
    ensures KNearest(found.top, order, k)
    ensures var q := alg.QueryAt(query, start, 0, if alg.ef >= k then alg.ef else k);
            IsLayer(q.g, q.ds) && Delivered(q, found.top, found.visited, found.expanded)
  {
    hide GoodGraph, Delivered, KNearest, LayerOf, DistancesTo, IsLayer, HierarchicalNSW.Entered, Relabelled;
    var status, results;
    status, results, start, found, order := alg.SearchKnn(query, k);
    ghost var q := alg.QueryAt(query, start, 0, if alg.ef >= k then alg.ef else k);
    LayerIsClosed(alg.AllLinks(), alg.Levels(), alg.m, 0, q.ds);
    KNearestAtMost(found.top, order, k);
    n := DrainAscending(results, items, distances);
  }

  lemma KNearestAtMost(top: Queue, order: seq<Pair>, k: nat)
    requires KNearest(top, order, k)
    ensures |order| <= k
  {
  }

  // ---------------------------------------------------------------- one answer

  ghost predicate AreDistances(ds: seq<real>, top: Queue) {
    forall p | p in top :: p.second < |ds| && p.first == ds[p.second]
  }

  /** Without ties the k nearest of a queue are determined, and so is their order. */
  lemma KNearestIsUnique(ds: seq<real>, top: Queue, a: seq<Pair>, b: seq<Pair>, k: nat)
    requires NoTies(ds) && AreDistances(ds, top) && KNearest(top, a, k) && KNearest(top, b, k)
    ensures a == b
  {
    SameKept(ds, top, a, b, k);
    SameKept(ds, top, b, a, k);
    SortedIsUnique(ds, a, b);
  }

  lemma {:induction false} CountDistinct<T>(s: seq<T>)
    requires forall i, j | 0 <= i < j < |s| :: s[i] != s[j]
    ensures |ToSet(s)| == |s|
  {
    if s != [] {
      var shorter, last := s[..|s| - 1], s[|s| - 1];
      CountDistinct(shorter);
      assert ToSet(s) == ToSet(shorter) + {last};
    }
  }

  lemma LeftOutIsFarther(top: Queue, order: seq<Pair>, k: nat, p: Pair, r: Pair)
    requires KNearest(top, order, k) && p in top && p !in order && r in order
    ensures r.first <= p.first
  {
    var i :| 0 <= i < |order| && order[i] == r;
  }

  lemma KeptCount(top: Queue, order: seq<Pair>, k: nat)
    requires KNearest(top, order, k)
    ensures |ToSet(order)| == |order| == (if |top| < k then |top| else k) && ToSet(order) <= top
  {
    CountDistinct(order);
  }

  lemma SameKept(ds: seq<real>, top: Queue, a: seq<Pair>, b: seq<Pair>, k: nat)
    requires NoTies(ds) && AreDistances(ds, top) && KNearest(top, a, k) && KNearest(top, b, k)
    ensures ToSet(a) <= ToSet(b)
  {
    hide KNearest;
    KeptCount(top, a, k);
    KeptCount(top, b, k);
    if p :| p in ToSet(a) && p !in ToSet(b) {
      if r :| r in ToSet(b) && r !in ToSet(a) {
        LeftOutIsFarther(top, a, k, r, p);
        LeftOutIsFarther(top, b, k, p, r);
      } else {
        SubsetCount(ToSet(b), ToSet(a) - {p});
      }
    }
  }

  ghost predicate Falling(s: seq<Pair>) {
    forall i, j | 0 <= i < j < |s| :: s[i] != s[j] && s[j].first <= s[i].first
  }

  lemma LastIsNearest(s: seq<Pair>, p: Pair)
    requires Falling(s) && p in s
    ensures s[|s| - 1].first <= p.first
  {
    var i :| 0 <= i < |s| && s[i] == p;
  }

  lemma WithoutLast(s: seq<Pair>)
    requires Falling(s) && s != []
    ensures Falling(s[..|s| - 1]) && ToSet(s[..|s| - 1]) == ToSet(s) - {s[|s| - 1]}
    ensures s == s[..|s| - 1] + [s[|s| - 1]]
  {
  }

  lemma {:induction false} SortedIsUnique(ds: seq<real>, a: seq<Pair>, b: seq<Pair>)
    requires NoTies(ds) && AreDistances(ds, ToSet(a)) && ToSet(a) == ToSet(b) && |a| == |b|
    requires Falling(a) && Falling(b)
    ensures a == b
  {
    if a != [] {
      var p := a[|a| - 1];
      assert p in ToSet(a) && p in b;
      var r := b[|b| - 1];
      assert r in ToSet(b) && r in a;
      LastIsNearest(a, r);
      LastIsNearest(b, p);
      assert p.second == r.second;
      WithoutLast(a);
      WithoutLast(b);
      hide Falling, NoTies;
      SortedIsUnique(ds, a[..|a| - 1], b[..|b| - 1]);
    }
  }

  // ---------------------------------------------------------------- exact answers

  /** full lists the elements of a queue, each once, in any order. */
  ghost predicate Enumerates(full: seq<Pair>, q: Queue) {
    && (forall i, j | 0 <= i < j < |full| :: full[i] != full[j])
    && forall p :: p in full <==> p in q
  }

  lemma RelabelledSum(a: seq<Pair>, b: seq<Pair>, labels: seq<nat>)
    requires forall i | 0 <= i < |a| :: a[i].second < |labels|
    requires forall i | 0 <= i < |b| :: b[i].second < |labels|
    ensures forall i | 0 <= i < |a + b| :: (a + b)[i].second < |labels|
    ensures Relabelled(a + b, labels) == Relabelled(a, labels) + Relabelled(b, labels)
  {
  }

  lemma WithoutOne(b: seq<Pair>, j: nat)
    requires j < |b|
    ensures multiset(b) == multiset{b[j]} + multiset(b[..j] + b[j + 1..])
  {
    assert b == b[..j] + [b[j]] + b[j + 1..];
  }

  lemma SameWithoutOne(a: seq<Pair>, b: seq<Pair>, j: nat)
    requires multiset(a) == multiset(b) && j < |b| && |a| > 0 && a[0] == b[j]
    ensures multiset(a[1..]) == multiset(b[..j] + b[j + 1..])
  {
    WithoutOne(a, 0);
    WithoutOne(b, j);
    assert a[..0] + a[0 + 1..] == a[1..];
    TakenAway(multiset(a), multiset(a[1..]), a[0]);
    TakenAway(multiset(b), multiset(b[..j] + b[j + 1..]), b[j]);
  }

  lemma TakenAway(all: Bag, rest: Bag, p: Pair)
    requires all == multiset{p} + rest
    ensures rest == all - multiset{p}
  {
  }

  /** The labels in a list, with their distances. */
  ghost function LabelBag(s: seq<Pair>, labels: seq<nat>): Bag
    requires forall i | 0 <= i < |s| :: s[i].second < |labels|
  {
    multiset(Relabelled(s, labels))
  }

  lemma LabelsWithoutOne(b: seq<Pair>, j: nat, rest: seq<Pair>, labels: seq<nat>)
    requires j < |b| && rest == b[..j] + b[j + 1..]
    requires forall i | 0 <= i < |b| :: b[i].second < |labels|
    ensures forall i | 0 <= i < |rest| :: rest[i].second < |labels|
    ensures LabelBag(b, labels) == multiset{Pair(b[j].first, labels[b[j].second])} + LabelBag(rest, labels)
  {
    var r := Relabelled(b, labels);
    WithoutOne(r, j);
    assert r[..j] + r[j + 1..] == Relabelled(rest, labels);
  }

  /** The order of a list does not matter for the labels in it. */
  lemma {:induction false} RelabelledPermuted(a: seq<Pair>, b: seq<Pair>, labels: seq<nat>)
    requires multiset(a) == multiset(b)
    requires forall i | 0 <= i < |a| :: a[i].second < |labels|
    requires forall i | 0 <= i < |b| :: b[i].second < |labels|
    ensures LabelBag(a, labels) == LabelBag(b, labels)
  {
    if a == [] {
      assert |multiset(a)| == |a| && |multiset(b)| == |b|;
    } else {
      hide LabelBag;
      assert a[0] in multiset(b);
      var j: nat :| j < |b| && b[j] == a[0];
      SameWithoutOne(a, b, j);
      var less, rest := a[1..], b[..j] + b[j + 1..];
      assert less == a[..0] + a[0 + 1..];
      LabelsWithoutOne(a, 0, less, labels);
      LabelsWithoutOne(b, j, rest, labels);
      RelabelledPermuted(less, rest, labels);
    }
  }

  /** The elements of full that are not in order. */
  ghost function Others(full: seq<Pair>, order: seq<Pair>): (rest: seq<Pair>)
    ensures forall p :: p in rest <==> p in full && p !in order
  {
    if full == [] then []
    else if full[0] in order then Others(full[1..], order)
    else [full[0]] + Others(full[1..], order)
  }

  lemma {:induction false} OthersOnce(full: seq<Pair>, order: seq<Pair>)
    requires forall i, j | 0 <= i < j < |full| :: full[i] != full[j]
    requires forall i, j | 0 <= i < j < |order| :: order[i] != order[j]
    requires forall p | p in order :: p in full
    ensures multiset(full) == multiset(order) + multiset(Others(full, order))
  {
    forall p
      ensures multiset(full)[p] == (multiset(order) + multiset(Others(full, order)))[p]
    {
      CountInDistinct(full, p);
      CountInDistinct(order, p);
      CountOfOthers(full, order, p);
    }
  }

  lemma {:induction false} CountInDistinct(s: seq<Pair>, p: Pair)
    requires forall i, j | 0 <= i < j < |s| :: s[i] != s[j]
    ensures multiset(s)[p] == if p in s then 1 else 0
  {
    if s != [] {
      assert s == [s[0]] + s[1..];
      CountInDistinct(s[1..], p);
    }
  }

  lemma {:induction false} CountOfOthers(full: seq<Pair>, order: seq<Pair>, p: Pair)
    ensures multiset(Others(full, order))[p] == if p in order then 0 else multiset(full)[p]
  {
    if full != [] {
      assert full == [full[0]] + full[1..];
      CountOfOthers(full[1..], order, p);
    }
  }

  lemma {:induction false} EnumeratedCount(full: seq<Pair>, q: Queue)
    requires Enumerates(full, q)
    ensures |full| == |q|
  {
    if full == [] {
      assert q == {};
    } else {
      assert full[0] in full;
      forall p
        ensures p in full[1..] <==> p in q - {full[0]}
      {
        assert p in full <==> p == full[0] || p in full[1..];
      }
      EnumeratedCount(full[1..], q - {full[0]});
    }
  }

  lemma OthersAreFarther(q: Queue, order: seq<Pair>, full: seq<Pair>, k: nat)
    requires KNearest(q, order, k) && Enumerates(full, q)
    ensures multiset(full) == multiset(order + Others(full, order)) && |full| == |order| + |Others(full, order)| == |q|
    ensures forall i, j | 0 <= i < |Others(full, order)| && 0 <= j < |order| :: order[j].first <= Others(full, order)[i].first
    ensures forall i | 0 <= i < |Others(full, order)| :: Others(full, order)[i] in q
  {
    EnumeratedCount(full, q);
    OthersOnce(full, order);
    var rest := Others(full, order);
    assert |multiset(full)| == |full| && |multiset(order)| == |order| && |multiset(rest)| == |rest|;
    forall i | 0 <= i < |rest|
      ensures rest[i] in q && rest[i] !in order
    {
      assert rest[i] in rest;
    }
  }

  /** The k nearest nodes of a queue, under their labels, are the k nearest of all its nodes under theirs. */
  lemma NearestRelabelled(q: Queue, order: seq<Pair>, full: seq<Pair>, labels: seq<nat>, k: nat)
    requires KNearest(q, order, k) && Enumerates(full, q) && forall p | p in q :: p.second < |labels|
    ensures forall i | 0 <= i < |order| :: order[i].second < |labels|
    ensures forall i | 0 <= i < |full| :: full[i].second < |labels|
    ensures IsNearest(multiset(Relabelled(order, labels)), multiset(Relabelled(full, labels)), k)
  {
    forall i | 0 <= i < |full| ensures full[i].second < |labels| { assert full[i] in full; }
    OthersAreFarther(q, order, full, k);
    var rest := Others(full, order);
    var size := |q|;
    assert |order| == (if size < k then size else k) && forall i | 0 <= i < |order| :: order[i].second < |labels|;
    hide Enumerates, KNearest, IsNearest, Others, Relabelled;
    RelabelledSplit(order, rest, full, labels, k);
  }

  lemma RelabelledSplit(order: seq<Pair>, rest: seq<Pair>, full: seq<Pair>, labels: seq<nat>, k: nat)
    requires multiset(full) == multiset(order + rest) && |order| == if |order| + |rest| < k then |order| + |rest| else k
    requires forall i, j | 0 <= i < |rest| && 0 <= j < |order| :: order[j].first <= rest[i].first
    requires forall i | 0 <= i < |order| :: order[i].second < |labels|
    requires forall i | 0 <= i < |rest| :: rest[i].second < |labels|
    requires forall i | 0 <= i < |full| :: full[i].second < |labels|
    ensures IsNearest(multiset(Relabelled(order, labels)), multiset(Relabelled(full, labels)), k)
  {
    hide IsNearest;
    RelabelledSum(order, rest, labels);
    RelabelledPermuted(full, order + rest, labels);
    SplitIsNearest(Relabelled(order, labels), Relabelled(rest, labels), k);
  }

  lemma SplitIsNearest(kept: seq<Pair>, others: seq<Pair>, k: nat)
    requires |kept| == if |kept| + |others| < k then |kept| + |others| else k
    requires forall i, j | 0 <= i < |others| && 0 <= j < |kept| :: kept[j].first <= others[i].first
    ensures IsNearest(multiset(kept), multiset(kept + others), k)
  {
    assert multiset(kept + others) == multiset(kept) + multiset(others);
    assert multiset(kept) + multiset(others) - multiset(kept) == multiset(others);
  }
}
