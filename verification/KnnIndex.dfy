/** KnnIndex: several HNSW indices behind one interface, with extra items in a hash table. */
module KnnIndexes {
  import opened Wrappers
  import opened Queues
  import opened BestFirst
  import opened BeamSearch
  import opened GreedyDescent
  import opened HnswGraph
  import opened Hnsw
  import opened HnswIndex
  import opened AnswerHeap
  import opened MachineBits
  import opened GrowthPolicies
  import opened RobinHoodLayout
  import opened LoadFactors
  import opened RobinHashTable

  /** What one index answered: the labelled pairs, and the search they come from. */
  datatype Answer = Answer(bag: Bag, start: nat, found: Found, order: seq<Pair>)

  ghost function Bags(answers: seq<Answer>): (r: seq<Bag>)
    ensures |r| == |answers| && forall i | 0 <= i < |r| :: r[i] == answers[i].bag
  {
    seq(|answers|, i requires 0 <= i < |answers| => answers[i].bag)
  }

  lemma OneMoreAnswer(answers: seq<Answer>, a: Answer)
    ensures Sum(Bags(answers + [a])) == Sum(Bags(answers)) + a.bag
  {
    assert Bags(answers + [a])[..|answers|] == Bags(answers);
  }

  /** The search of one index on its base layer. */
  ghost function QueryOf(alg: HierarchicalNSW, query: Vector, k: nat, start: nat): Query
    requires alg.Shape()
    reads alg, alg.vectors, alg.links
  {
    alg.QueryAt(query, start, 0, if alg.ef >= k then alg.ef else k)
  }

  /** The answer is the k nearest of what the index's search delivers, under their labels. */
  ghost predicate AnswerOf(alg: HierarchicalNSW, query: Vector, k: nat, answer: Answer)
    reads alg, alg.vectors, alg.links, alg.labels
  {
    && alg.Shape() && answer.start < alg.count && alg.Entered(query, answer.start)
    && (forall i | 0 <= i < |answer.order| :: answer.order[i].second < alg.count)
    && answer.bag == multiset(Relabelled(answer.order, alg.labels[..alg.count]))
    && KNearest(answer.found.top, answer.order, k)
    && var q := QueryOf(alg, query, k, answer.start);
       IsLayer(q.g, q.ds) && Delivered(q, answer.found.top, answer.found.visited, answer.found.expanded)
  }

  /** Without ties among the distances of its elements an index has one answer. */
  lemma AnswerIsUnique(alg: HierarchicalNSW, query: Vector, k: nat, a: Answer, b: Answer)
    requires AnswerOf(alg, query, k, a) && AnswerOf(alg, query, k, b)
    requires NoTies(DistancesTo(alg.dist, query, alg.Vectors()))
    ensures a == b
  {
    hide Delivered, KNearest, NoTies, Descends, DistancesTo, LayerOf, Explored;
    var ds, q := DistancesTo(alg.dist, query, alg.Vectors()), QueryOf(alg, query, k, a.start);
    DescentIsUnique(alg.AllLinks(), ds, alg.maxlevel, 0, alg.enterpoint, a.start, b.start);
    ResultIsUnique(q, a.found.top, a.found.visited, a.found.expanded, b.found.top, b.found.visited, b.found.expanded);
    DeliveredDistances(q, a.found.top, a.found.visited, a.found.expanded);
    KNearestIsUnique(ds, a.found.top, a.order, b.order, k);
  }

  /** Everything reachable from the start of an index's search fits in its beam; full lists it, with its
      distances. */
  ghost predicate WideEnough(alg: HierarchicalNSW, query: Vector, k: nat, start: nat, reached: set<nat>, full: seq<Pair>)
    reads alg, alg.vectors, alg.links
  {
    && alg.Shape()
    && var q := QueryOf(alg, query, k, start);
       AllReached(q.g, q.s, reached) && |reached| <= Width(q.ef) && Enumerates(full, WithDistances(q.ds, reached))
       && forall i | 0 <= i < |full| :: full[i].second < alg.count
  }

  /** With a beam that is wide enough, an index answers with the k nearest of all its reachable elements. */
  lemma WideAnswerIsExact(alg: HierarchicalNSW, query: Vector, k: nat, answer: Answer, reached: set<nat>, full: seq<Pair>)
    requires AnswerOf(alg, query, k, answer) && WideEnough(alg, query, k, answer.start, reached, full)
    ensures IsNearest(answer.bag, multiset(Relabelled(full, alg.labels[..alg.count])), k)
  {
    hide Delivered, AllReached, LayerOf, DistancesTo, KNearest, Enumerates, IsNearest, IsLayer;
    var q := QueryOf(alg, query, k, answer.start);
    WideQueryIsExact(q, answer.found, answer.order, k, reached);
    NearestRelabelled(WithDistances(q.ds, reached), answer.order, full, alg.labels[..alg.count], k);
  }

  /** Then the merge is a brute-force search over the reachable elements of all indices together. */
  lemma WideSearchIsExact(algs: seq<HierarchicalNSW>, query: Vector, k: nat, result: Bag, answers: seq<Answer>,
                          reached: seq<set<nat>>, full: seq<seq<Pair>>, universes: seq<Bag>)
    requires |answers| == |reached| == |full| == |universes| == |algs|
    requires IsNearest(result, Sum(Bags(answers)), k)
    requires forall i | 0 <= i < |algs| ::
               && AnswerOf(algs[i], query, k, answers[i])
               && WideEnough(algs[i], query, k, answers[i].start, reached[i], full[i])
               && universes[i] == multiset(Relabelled(full[i], algs[i].labels[..algs[i].count]))
    ensures IsNearest(result, Sum(universes), k)
  {
    hide IsNearest, AnswerOf, WideEnough;
    forall i | 0 <= i < |algs|
      ensures IsNearest(Bags(answers)[i], universes[i], k)
    {
      WideAnswerIsExact(algs[i], query, k, answers[i], reached[i], full[i]);
    }
    assert Sum(Bags(answers)) + multiset{} == Sum(Bags(answers));
    MergeIsBruteForce(Bags(answers), universes, multiset{}, result, k);
    assert Sum(universes) + multiset{} == Sum(universes);
  }

  class KnnIndex {
    var indexList: seq<HierarchicalNSW>
    const extraItems: RobinHash<nat, Vector>

    ghost predicate Valid()
      reads this, extraItems, extraItems.buckets, indexList
      reads set alg <- indexList :: alg.levels
      reads set alg <- indexList :: alg.links
      reads set alg <- indexList :: alg.labels
    {
      && extraItems.Valid() && extraItems.maxLoadFactor == 0.5
      && 2 * extraItems.nbElements <= extraItems.bucketCount
      && forall i | 0 <= i < |indexList| :: indexList[i].Valid()
    }

    /** extra_items starts without buckets, at the default load factors. */
    constructor (hash: nat -> nat, maxAllocation: nat)
      ensures Valid() && indexList == [] && extraItems.Model() == map[]
      ensures fresh(extraItems) && fresh(extraItems.buckets)
    {
      NoBuckets();
      indexList := [];
      extraItems := new RobinHash(hash, false, false, maxAllocation, PowerOfTwo(2, 0), 0, 0.0, 0.5);
    }

    method AddIndex(alg: HierarchicalNSW)
      requires Valid() && alg.Valid()
      modifies `indexList
      ensures Valid() && indexList == old(indexList) + [alg] && extraItems.Model() == old(extraItems.Model())
    {
      indexList := indexList + [alg];
    }

    /** add_extra_items: emplace keeps an item already there; false where the table throws. */
    method AddExtraItems(name: nat, vector: Vector) returns (ok: bool)
      requires Valid()
      modifies extraItems, extraItems.buckets
      ensures Valid() && indexList == old(indexList)
      ensures extraItems.Model() == if ok && name !in old(extraItems.Model()) then old(extraItems.Model())[name := vector] else old(extraItems.Model())
      ensures !ok <==> name !in old(extraItems.Model()) && old(extraItems.Stuck())
      ensures ok && name !in old(extraItems.Model()) ==>
                && extraItems.nbElements == old(extraItems.nbElements) + 1
                && extraItems.bucketCount >= 2 * extraItems.nbElements
    {
      hide RobinHood, Indexed, Contents, Threshold, Resized;
      var r;
      ghost var before;
      HalfFull(extraItems.nbElements, extraItems.bucketCount);
      hide Fits;
      r, before := extraItems.Insert(name, vector);
      HalfFull(1, extraItems.bucketCount);
      HalfFull(extraItems.nbElements, extraItems.bucketCount);
      ok := r.Some?;
    }

    /** get_item: an extra item, or else the item of the first index that knows the label. */
    method GetItem(name: nat) returns (item: Option<Vector>)
      requires Valid()
      ensures name in extraItems.Model() ==> item == Some(extraItems.Model()[name])
      ensures name !in extraItems.Model() ==> IsFirstItem(indexList, name, item)
    {
      assert forall i | 0 <= i < |indexList| :: indexList[i].Shape();
      hide RobinHood, Indexed, Contents, Threshold, HierarchicalNSW.Valid, IsFirstItem;
      var pos := extraItems.Find(name);
      if pos == extraItems.bucketCount {
        item := FindItem(indexList, name);
      } else {
        item := Some(extraItems.buckets[pos].item.value.1);
      }
    }

    /** search: the k nearest of what the indices answer, kept as a heap. */
    method Search(query: Vector, k: nat) returns (resultItems: seq<Pair>, ghost answers: seq<Answer>)
      requires Valid() && forall i | 0 <= i < |indexList| :: indexList[i].count > 0
      ensures |answers| == |indexList|
      ensures forall i | 0 <= i < |answers| :: AnswerOf(indexList[i], query, k, answers[i])
      ensures IsHeap(resultItems) && IsNearest(multiset(resultItems), Sum(Bags(answers)), k)
    {
      hide IsNearest, IsHeap, AnswerOf, RobinHash.Valid, HierarchicalNSW.Valid, Sum;
      resultItems, answers := [], [];
      NothingMerged(k);
      if |indexList| == 0 {
        return;
      }
      for j := 0 to |indexList|
        invariant |answers| == j
        invariant forall i | 0 <= i < j :: AnswerOf(indexList[i], query, k, answers[i])
        invariant IsHeap(resultItems) && IsNearest(multiset(resultItems), Sum(Bags(answers)), k)
      {
        ghost var answer;
        resultItems, answer := MergeIndex(indexList[j], query, k, resultItems, Sum(Bags(answers)));
        OneMoreAnswer(answers, answer);
        answers := answers + [answer];
      }
    }
  }

  /** What the indices have under a label: the item of the first one that knows it, nothing if none does. */
  ghost predicate IsFirstItem(algs: seq<HierarchicalNSW>, name: nat, item: Option<Vector>)
    reads algs
    reads set alg <- algs :: alg.vectors
  {
    if item == None then forall i | 0 <= i < |algs| :: !Knows(algs[i], name)
    else exists i ::
           && 0 <= i < |algs| && Knows(algs[i], name) && item.value == algs[i].Items()[name]
           && forall j | 0 <= j < i :: !Knows(algs[j], name)
  }

  ghost predicate Knows(alg: HierarchicalNSW, name: nat)
    reads alg, alg.vectors
  {
    alg.Shape() && name in alg.Items()
  }

  /** The loop of get_item over the indices. */
  method FindItem(algs: seq<HierarchicalNSW>, name: nat) returns (item: Option<Vector>)
    requires forall i | 0 <= i < |algs| :: algs[i].Shape() && algs[i].Valid()
    ensures IsFirstItem(algs, name, item)
  {
    hide HierarchicalNSW.Valid, HierarchicalNSW.Shape, ItemsOf;
    for j := 0 to |algs|
      invariant forall i | 0 <= i < j :: !Knows(algs[i], name)
    {
      item := algs[j].GetItem(name);
      if item.Some? {
        assert Knows(algs[j], name);
        return;
      }
    }
    return None;
  }

  /** The inner loop of search for one index. */
  method MergeAnswer(resultItems: seq<Pair>, items: array<nat>, distances: array<real>, n: nat, k: nat, ghost all: Bag)
    returns (r: seq<Pair>)
    requires n <= k && n <= items.Length && n <= distances.Length
    requires IsHeap(resultItems) && IsNearest(multiset(resultItems), all, k)
    ensures IsHeap(r) && IsNearest(multiset(r), all + multiset(Zip(distances[..n], items[..n])), k)
  {
    hide IsNearest, IsHeap;
    r := resultItems;
    ghost var answer := Zip(distances[..n], items[..n]);
    assert answer[..0] == [] && all + multiset(answer[..0]) == all;
    for i := 0 to n
      invariant IsHeap(r) && IsNearest(multiset(r), all + multiset(answer[..i]), k)
    {
      ghost var before := all + multiset(answer[..i]);
      r := Offer(r, Pair(distances[i], items[i]), k, before);
      assert answer[..i + 1] == answer[..i] + [answer[i]];
      assert before + multiset{answer[i]} == all + multiset(answer[..i + 1]);
    }
    assert answer[..n] == answer;
  }

  /** Body of the outer loop of search: one index is asked and its answer merged. */
  method MergeIndex(alg: HierarchicalNSW, query: Vector, k: nat, resultItems: seq<Pair>, ghost all: Bag)
    returns (r: seq<Pair>, ghost answer: Answer)
    requires alg.Valid() && alg.count > 0 && IsHeap(resultItems) && IsNearest(multiset(resultItems), all, k)
    ensures AnswerOf(alg, query, k, answer)
    ensures IsHeap(r) && IsNearest(multiset(r), all + answer.bag, k)
  {
    hide IsNearest, IsHeap, GoodGraph, Delivered, KNearest, IsLayer, LayerOf, DistancesTo, NobodyAlone;
    var items, distances := new nat[k], new real[k];
    var n;
    ghost var start, order;
    ghost var found;
    n, start, found, order := KnnQuery(alg, query, items, distances, k);
    answer := Answer(multiset(Zip(distances[..n], items[..n])), start, found, order);
    r := MergeAnswer(resultItems, items, distances, n, k, all);
  }

  lemma NoBuckets()
    ensures PowerOfTwo(2, 0).Serves(0)
  {
    assert Pow2(0) == 1 && Pow2(1) == 2;
  }

  lemma NothingMerged(k: nat)
    ensures IsHeap([]) && IsNearest(multiset([]), Sum([]), k)
  {
  }
}
