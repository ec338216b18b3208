/** Without ties among distances an insertion has one outcome: the contract of addPoint leaves nothing open. */
module UniqueInsertion {
  import opened Queues
  import opened BestFirst
  import opened BeamSearch
  import opened GreedyDescent
  import opened HnswGraph
  import opened NeighborHeuristic
  import opened Hnsw

  ghost predicate TieFree(q: Queue) {
    forall p, r | p in q && r in q && p.first == r.first :: p == r
  }

  /** No two of the first n elements are equally far from a third of them, measured from either side. */
  ghost predicate NoTiesAmong(dist: (Vector, Vector) -> real, vs: seq<Vector>, n: nat) {
    && n <= |vs|
    && forall x, u, v | 0 <= x < n && 0 <= u < n && 0 <= v < n && u != v ::
         dist(vs[x], vs[u]) != dist(vs[x], vs[v]) && dist(vs[u], vs[x]) != dist(vs[v], vs[x])
  }

  /** All lists hold existing elements only. */
  ghost predicate IdsBelow(links: Links, n: nat) {
    forall u, l, v | 0 <= u < |links| && 0 <= l < |links[u]| && v in ListAt(links[u], l) :: v < n
  }

  lemma GoodIdsBelow(links: Links, levels: seq<nat>, m: nat)
    requires GoodGraph(links, levels, m)
    ensures IdsBelow(links, |links|)
  {
    forall u, l, v | 0 <= u < |links| && 0 <= l < |links[u]| && v in ListAt(links[u], l)
      ensures v < |links|
    {
      assert GoodNode(links[u], m, u, levels) && GoodList(links[u][l], Capacity(m, l), u, l, levels);
    }
  }

  // ---------------------------------------------------------------- the heuristic

  /** The heuristic takes the same candidates in the same order. */
  lemma {:induction false} SameTaken(dist: (Vector, Vector) -> real, vs: seq<Vector>, q: Queue, a: seq<Pair>, b: seq<Pair>, m: nat, n: nat)
    requires InRange(q, |vs|) && TieFree(q) && Pruned(dist, vs, q, a, m) && Pruned(dist, vs, q, b, m) && n <= |a| && n <= |b|
    ensures a[..n] == b[..n]
  {
    hide Pruned;
    if n > 0 {
      SameTaken(dist, vs, q, a, b, m, n - 1);
      NoneNearer(dist, vs, q, a, b, m, n - 1);
      NoneNearer(dist, vs, q, b, a, m, n - 1);
      assert a[..n] == a[..n - 1] + [a[n - 1]] && b[..n] == b[..n - 1] + [b[n - 1]];
    }
  }

  /** After the same beginning the next one taken is nowhere nearer than elsewhere. */
  lemma NoneNearer(dist: (Vector, Vector) -> real, vs: seq<Vector>, q: Queue, a: seq<Pair>, b: seq<Pair>, m: nat, n: nat)
    requires InRange(q, |vs|) && Pruned(dist, vs, q, a, m) && Pruned(dist, vs, q, b, m) && n < |a| && n < |b| && a[..n] == b[..n]
    ensures b[n].first <= a[n].first && a[n] in q && b[n] in q
  {
    assert a[n] in Elements(a) && b[n] in Elements(b);
    if a[n].first < b[n].first {
      NotTaken(b, a[n], n, a);
      SparedBy(dist, vs, a, b, n);
    }
  }

  lemma NotTaken(b: seq<Pair>, r: Pair, n: nat, a: seq<Pair>)
    requires n < |b| && n < |a| && a[..n] == b[..n] && r == a[n] && r.first < b[n].first
    requires forall i, j | 0 <= i < j < |b| :: b[i] != b[j] && b[i].first <= b[j].first
    requires forall i, j | 0 <= i < j < |a| :: a[i] != a[j] && a[i].first <= a[j].first
    ensures r !in b
  {
    forall i | 0 <= i < |b|
      ensures b[i] != r
    {
      if i < n { assert b[i] == b[..n][i] == a[..n][i] == a[i]; }
    }
  }

  /** What comes next in a is shadowed by none of those that come before it in b. */
  lemma SparedBy(dist: (Vector, Vector) -> real, vs: seq<Vector>, a: seq<Pair>, b: seq<Pair>, n: nat)
    requires WellSpread(dist, vs, a) && WellSpread(dist, vs, b) && n < |a| && n <= |b| && a[..n] == b[..n]
    requires n < |b| ==> a[n].first < b[n].first
    ensures !Shadowed(dist, vs, b, a[n])
  {
    forall i | 0 <= i < |b| && b[i].first <= a[n].first
      ensures dist(vs[b[i].second], vs[a[n].second]) >= a[n].first
    {
      assert i < n;
      assert b[i] == b[..n][i] == a[..n][i] == a[i];
    }
  }

  lemma PrunedIsUnique(dist: (Vector, Vector) -> real, vs: seq<Vector>, q: Queue, a: seq<Pair>, b: seq<Pair>, m: nat)
    requires InRange(q, |vs|) && TieFree(q) && Pruned(dist, vs, q, a, m) && Pruned(dist, vs, q, b, m)
    ensures a == b
  {
    NoLonger(dist, vs, q, a, b, m);
    NoLonger(dist, vs, q, b, a, m);
    SameTaken(dist, vs, q, a, b, m, |a|);
    assert a[..|a|] == a && b[..|b|] == b;
  }

  lemma NoLonger(dist: (Vector, Vector) -> real, vs: seq<Vector>, q: Queue, a: seq<Pair>, b: seq<Pair>, m: nat)
    requires InRange(q, |vs|) && TieFree(q) && Pruned(dist, vs, q, a, m) && Pruned(dist, vs, q, b, m)
    ensures |a| <= |b|
  {
    if |a| > |b| {
      SameTaken(dist, vs, q, a, b, m, |b|);
      var n := |b|;
      assert a[n] in Elements(a) && b[..n] == b;
      NextIsNew(a, n);
      SparedBy(dist, vs, a, b, n);
    }
  }

  lemma NextIsNew(a: seq<Pair>, n: nat)
    requires n < |a| && forall i, j | 0 <= i < j < |a| :: a[i] != a[j]
    ensures a[n] !in a[..n]
  {
  }

  lemma ChosenIsUnique(dist: (Vector, Vector) -> real, vs: seq<Vector>, top: Queue, a: Queue, ordera: seq<Pair>, b: Queue, orderb: seq<Pair>, m: nat)
    requires InRange(top, |vs|) && TieFree(top) && ChosenFrom(dist, vs, top, a, ordera, m) && ChosenFrom(dist, vs, top, b, orderb, m)
    ensures a == b
  {
    hide Pruned, TieFree;
    if |top| >= m { PrunedIsUnique(dist, vs, top, ordera, orderb, m); }
  }

  // ---------------------------------------------------------------- the lists

  lemma LastId(q: Queue, ids: seq<nat>, p: Pair, r: Pair)
    requires FarthestFirst(ids, q) && ids != [] && p in q && r in q && p.second == ids[|ids| - 1] && r.second in ids && DistinctIds(q)
    ensures p.first <= r.first
  {
    var i :| 0 <= i < |ids| && ids[i] == r.second;
  }

  lemma WithoutLastId(q: Queue, ids: seq<nat>, p: Pair)
    requires FarthestFirst(ids, q) && Distinct(ids) && ids != [] && p in q && p.second == ids[|ids| - 1] && DistinctIds(q)
    requires forall v :: v in ids <==> v in Ids(q)
    ensures var less := ids[..|ids| - 1];
            FarthestFirst(less, q - {p}) && Distinct(less) && forall v :: v in less <==> v in Ids(q - {p})
    ensures DistinctIds(q - {p}) && ids == ids[..|ids| - 1] + [p.second]
  {
    var less := ids[..|ids| - 1];
    forall v
      ensures v in less <==> v in Ids(q - {p})
    {
      if v in Ids(q - {p}) {
        var r :| r in q - {p} && r.second == v;
        assert v in Ids(q) && v != p.second;
      }
      if v in less {
        assert v in Ids(q);
        var r :| r in q && r.second == v;
        assert r in q - {p};
      }
    }
  }

  lemma FirstIsCommon(q: Queue, a: seq<nat>, b: seq<nat>)
    requires (forall v :: v in a <==> v in Ids(q)) && forall v :: v in b <==> v in Ids(q)
    ensures b != [] ==> b[0] in a
  {
    if b != [] { assert b[0] in b; }
  }

  /** A queue hands its ids out in one order. */
  lemma {:induction false} HandedOutIsUnique(q: Queue, a: seq<nat>, b: seq<nat>)
    requires DistinctIds(q) && TieFree(q) && Distinct(a) && Distinct(b) && FarthestFirst(a, q) && FarthestFirst(b, q)
    requires (forall v :: v in a <==> v in Ids(q)) && forall v :: v in b <==> v in Ids(q)
    ensures a == b
    decreases |a|
  {
    if a == [] {
      FirstIsCommon(q, a, b);
    } else {
      assert a[|a| - 1] in Ids(q) && a[|a| - 1] in b;
      var p: Pair :| p in q && p.second == a[|a| - 1];
      assert b[|b| - 1] in Ids(q) && b[|b| - 1] in a;
      var r: Pair :| r in q && r.second == b[|b| - 1];
      LastId(q, a, p, r);
      LastId(q, b, r, p);
      assert p == r;
      WithoutLastId(q, a, p);
      WithoutLastId(q, b, p);
      hide FarthestFirst, Distinct, DistinctIds, Ids;
      HandedOutIsUnique(q - {p}, a[..|a| - 1], b[..|b| - 1]);
    }
  }

  lemma CandidatesTieFree(dist: (Vector, Vector) -> real, vs: seq<Vector>, n: nat, cur: nat, other: nat, ids: seq<nat>)
    requires NoTiesAmong(dist, vs, n) && cur < n && other < n && forall j | 0 <= j < |ids| :: ids[j] < n
    ensures TieFree(CandidatesOf(dist, vs, cur, other, ids)) && DistinctIds(CandidatesOf(dist, vs, cur, other, ids))
  {
  }

  lemma PartIsTieFree(q: Queue, part: Queue)
    requires TieFree(q) && DistinctIds(q) && part <= q
    ensures TieFree(part) && DistinctIds(part)
  {
  }

  lemma SameList(before: LinkList, a: LinkList, b: LinkList)
    requires Overwritten(before, a) && Overwritten(before, b) && a.data[..a.size] == b.data[..b.size]
    ensures a == b
  {
    assert a.size == |a.data[..a.size]| && b.size == |b.data[..b.size]|;
    assert a.data == a.data[..a.size] + a.data[a.size..] && b.data == b.data[..b.size] + b.data[b.size..];
  }

  lemma AnswerIsUnique(dist: (Vector, Vector) -> real, vs: seq<Vector>, n: nat, cur: nat, other: nat, capacity: nat, before: LinkList, a: LinkList, b: LinkList)
    requires NoTiesAmong(dist, vs, n) && cur < n && other < n
    requires before.size <= |before.data| ==> forall j | 0 <= j < before.size :: before.data[..before.size][j] < n
    requires BackLinked(dist, vs, cur, other, capacity, before, a) && BackLinked(dist, vs, cur, other, capacity, before, b)
    ensures a == b
  {
    assert a.size <= |a.data| && b.size <= |b.data|;
    hide Overwritten, PrunedTo, NoTiesAmong, CandidatesOf;
    if before.size >= capacity {
      var ids := before.data[..before.size];
      var q := CandidatesOf(dist, vs, cur, other, ids);
      var ordera :| PrunedTo(dist, vs, q, ordera, capacity, a);
      var orderb :| PrunedTo(dist, vs, q, orderb, capacity, b);
      CandidatesTieFree(dist, vs, n, cur, other, ids);
      RewrittenIsUnique(dist, vs, q, ordera, orderb, capacity, a, b);
    }
    SameList(before, a, b);
  }

  lemma RewrittenIsUnique(dist: (Vector, Vector) -> real, vs: seq<Vector>, q: Queue, ordera: seq<Pair>, orderb: seq<Pair>, capacity: nat, a: LinkList, b: LinkList)
    requires TieFree(q) && DistinctIds(q) && a.size <= |a.data| && b.size <= |b.data|
    requires PrunedTo(dist, vs, q, ordera, capacity, a) && PrunedTo(dist, vs, q, orderb, capacity, b)
    ensures a.data[..a.size] == b.data[..b.size]
  {
    PrunedIsUnique(dist, vs, q, ordera, orderb, capacity);
    PartIsTieFree(q, Elements(ordera));
    hide Pruned, TieFree, DistinctIds, Distinct, FarthestFirst, Elements;
    HandedOutIsUnique(Elements(ordera), a.data[..a.size], b.data[..b.size]);
  }

  // ---------------------------------------------------------------- one level

  lemma FoundTieFree(q: Query, found: Found)
    requires NoTies(q.ds) && Delivered(q, found.top, found.visited, found.expanded)
    ensures TieFree(found.top) && DistinctIds(found.top)
  {
    hide Known, Explored;
  }

  ghost function StepQuery(dist: (Vector, Vector) -> real, vs: seq<Vector>, width: nat, cur: nat, obj: nat, level: nat, a: Links): Query
    requires cur < |vs| && |a| <= |vs|
  {
    Query(LayerOf(a, level), DistancesTo(dist, vs[cur], vs[..|a|]), obj, width)
  }

  lemma StepFound(dist: (Vector, Vector) -> real, vs: seq<Vector>, m: nat, width: nat, cur: nat, obj: nat, level: nat, a: Links, b: Links, w: LevelWork)
    requires LevelStep(dist, vs, m, width, cur, obj, level, a, b, w)
    ensures |a| == |b| <= |vs| && cur < |a|
    ensures Delivered(StepQuery(dist, vs, width, cur, obj, level, a), w.found.top, w.found.visited, w.found.expanded)
    ensures InRange(w.found.top, |vs|) && ChosenFrom(dist, vs, w.found.top, w.chosen, w.order, m)
  {
    hide Delivered, LayerOf, DistancesTo, Answered, Linked, Overwritten, Pruned;
  }

  lemma StepList(dist: (Vector, Vector) -> real, vs: seq<Vector>, m: nat, width: nat, cur: nat, obj: nat, level: nat, a: Links, b: Links, w: LevelWork)
    requires LevelStep(dist, vs, m, width, cur, obj, level, a, b, w)
    ensures cur < |b| && FarthestFirst(ListAt(b[cur], level), w.chosen) && Distinct(ListAt(b[cur], level))
    ensures forall v :: v in ListAt(b[cur], level) <==> v in Ids(w.chosen)
  {
    hide Delivered, LayerOf, DistancesTo, Answered, Linked, Overwritten, ChosenFrom, ListAt, FarthestFirst, Distinct;
  }

  lemma NoTiesFrom(dist: (Vector, Vector) -> real, vs: seq<Vector>, cur: nat, n: nat)
    requires NoTiesAmong(dist, vs, n) && cur < n
    ensures NoTies(DistancesTo(dist, vs[cur], vs[..n]))
  {
  }

  /** The search and the choice of a level have one outcome. */
  lemma ChoiceIsUnique(dist: (Vector, Vector) -> real, vs: seq<Vector>, m: nat, width: nat, cur: nat, obj: nat, level: nat, a: Links, b: Links, w: LevelWork, b': Links, w': LevelWork)
    requires NoTiesAmong(dist, vs, |a|) && IdsBelow(a, |a|)
    requires LevelStep(dist, vs, m, width, cur, obj, level, a, b, w) && LevelStep(dist, vs, m, width, cur, obj, level, a, b', w')
    ensures w.chosen == w'.chosen && TieFree(w.chosen) && DistinctIds(w.chosen)
  {
    hide LevelStep, Delivered, NoTies, NoTiesAmong, ChosenFrom, LayerOf, DistancesTo, TieFree, DistinctIds;
    StepFound(dist, vs, m, width, cur, obj, level, a, b, w);
    StepFound(dist, vs, m, width, cur, obj, level, a, b', w');
    var q := StepQuery(dist, vs, width, cur, obj, level, a);
    NoTiesFrom(dist, vs, cur, |a|);
    ResultIsUnique(q, w.found.top, w.found.visited, w.found.expanded, w'.found.top, w'.found.visited, w'.found.expanded);
    FoundTieFree(q, w.found);
    ChosenIsUnique(dist, vs, w.found.top, w.chosen, w.order, w'.chosen, w'.order, m);
    ChosenAtMost(dist, vs, w.found.top, w.chosen, w.order, m);
    PartIsTieFree(w.found.top, w.chosen);
  }

  lemma OwnIsUnique(dist: (Vector, Vector) -> real, vs: seq<Vector>, m: nat, width: nat, cur: nat, obj: nat, level: nat, a: Links, b: Links, w: LevelWork, b': Links, w': LevelWork)
    requires NoTiesAmong(dist, vs, |a|) && IdsBelow(a, |a|)
    requires LevelStep(dist, vs, m, width, cur, obj, level, a, b, w) && LevelStep(dist, vs, m, width, cur, obj, level, a, b', w')
    ensures cur < |b| && cur < |b'| && level < |b[cur]| && level < |b'[cur]| && b[cur][level] == b'[cur][level]
  {
    ChoiceIsUnique(dist, vs, m, width, cur, obj, level, a, b, w, b', w');
    StepList(dist, vs, m, width, cur, obj, level, a, b, w);
    StepList(dist, vs, m, width, cur, obj, level, a, b', w');
    HandedOutIsUnique(w.chosen, ListAt(b[cur], level), ListAt(b'[cur], level));
    hide Delivered, LayerOf, DistancesTo, Answered, ChosenFrom, FarthestFirst, Distinct, TieFree, DistinctIds, Ids, NoTiesAmong;
    SameList(a[cur][level], b[cur][level], b'[cur][level]);
  }

  /** A level of an insertion leaves one graph. */
  lemma StepIsUnique(dist: (Vector, Vector) -> real, vs: seq<Vector>, m: nat, width: nat, cur: nat, obj: nat, level: nat, a: Links, b: Links, w: LevelWork, b': Links, w': LevelWork)
    requires NoTiesAmong(dist, vs, |a|) && IdsBelow(a, |a|)
    requires LevelStep(dist, vs, m, width, cur, obj, level, a, b, w) && LevelStep(dist, vs, m, width, cur, obj, level, a, b', w')
    ensures b == b'
  {
    hide LevelStep, NoTiesAmong, IdsBelow, Leaves, TieFree, DistinctIds, Ids;
    ChoiceIsUnique(dist, vs, m, width, cur, obj, level, a, b, w, b', w');
    OwnIsUnique(dist, vs, m, width, cur, obj, level, a, b, w, b', w');
    StepLeft(dist, vs, m, width, cur, obj, level, a, b, w);
    StepLeft(dist, vs, m, width, cur, obj, level, a, b', w');
    forall u | 0 <= u < |a|
      ensures b[u] == b'[u]
    {
      NodeIsUnique(dist, vs, m, cur, level, w.chosen, a, b, b', u);
    }
  }

  /** What a step of an insertion leaves at every node. */
  ghost predicate Leaves(dist: (Vector, Vector) -> real, vs: seq<Vector>, m: nat, cur: nat, level: nat, chosen: Queue, a: Links, b: Links) {
    && |b| == |a|
    && (forall u | 0 <= u < |a| :: |b[u]| == |a[u]| && forall l | 0 <= l < |a[u]| && l != level :: b[u][l] == a[u][l])
    && (forall u | u in Ids(chosen) ::
          u < |a| && level < |a[u]| && level < |b[u]| && BackLinked(dist, vs, cur, u, Capacity(m, level), a[u][level], b[u][level]))
    && forall u | 0 <= u < |a| && u != cur && u !in Ids(chosen) :: b[u] == a[u]
  }

  lemma StepLeft(dist: (Vector, Vector) -> real, vs: seq<Vector>, m: nat, width: nat, cur: nat, obj: nat, level: nat, a: Links, b: Links, w: LevelWork)
    requires LevelStep(dist, vs, m, width, cur, obj, level, a, b, w)
    ensures |b| == |a| && Leaves(dist, vs, m, cur, level, w.chosen, a, b)
  {
    hide Delivered, LayerOf, DistancesTo, ChosenFrom, FarthestFirst, Distinct, BackLinked, Overwritten, ListAt;
  }

  lemma OldIds(links: Links, u: nat, level: nat, n: nat)
    requires IdsBelow(links, n) && u < |links| && level < |links[u]|
    ensures var list := links[u][level];
            list.size <= |list.data| ==> forall j | 0 <= j < list.size :: list.data[..list.size][j] < n
  {
    var list := links[u][level];
    if list.size <= |list.data| {
      forall j | 0 <= j < list.size
        ensures list.data[..list.size][j] < n
      {
        assert list.data[..list.size][j] in ListAt(links[u], level);
      }
    }
  }

  lemma NodeIsUnique(dist: (Vector, Vector) -> real, vs: seq<Vector>, m: nat, cur: nat, level: nat, chosen: Queue, a: Links, b: Links, b': Links, u: nat)
    requires NoTiesAmong(dist, vs, |a|) && IdsBelow(a, |a|) && Leaves(dist, vs, m, cur, level, chosen, a, b) && Leaves(dist, vs, m, cur, level, chosen, a, b')
    requires u < |a| && cur < |a| && level < |b[cur]| && level < |b'[cur]| && b[cur][level] == b'[cur][level]
    ensures b[u] == b'[u]
  {
    hide NoTiesAmong, BackLinked, IdsBelow;
    if u in Ids(chosen) {
      OldIds(a, u, level, |a|);
      AnswerIsUnique(dist, vs, |a|, cur, u, Capacity(m, level), a[u][level], b[u][level], b'[u][level]);
    }
    assert u == cur || u in Ids(chosen) || b[u] == b'[u];
    assert forall l | 0 <= l < |a[u]| && l != level :: b[u][l] == a[u][l] && b'[u][l] == a[u][l];
  }

  /** A list that has answered holds the ids it held and the new one at most. */
  lemma AnswerBelow(dist: (Vector, Vector) -> real, vs: seq<Vector>, n: nat, cur: nat, other: nat, capacity: nat, before: LinkList, after: LinkList)
    requires BackLinked(dist, vs, cur, other, capacity, before, after) && cur < n
    requires before.size <= |before.data| ==> forall j | 0 <= j < before.size :: before.data[..before.size][j] < n
    ensures after.size <= |after.data| && forall v | v in after.data[..after.size] :: v < n
  {
    hide Pruned, Distinct, FarthestFirst;
    if before.size >= capacity {
      var q := CandidatesOf(dist, vs, cur, other, before.data[..before.size]);
      var order :| PrunedTo(dist, vs, q, order, capacity, after);
      PrunedPart(dist, vs, q, order, capacity);
    }
  }

  lemma PrunedPart(dist: (Vector, Vector) -> real, vs: seq<Vector>, q: Queue, order: seq<Pair>, m: nat)
    requires InRange(q, |vs|) && Pruned(dist, vs, q, order, m)
    ensures Elements(order) <= q
  {
  }

  lemma StillBelow(dist: (Vector, Vector) -> real, vs: seq<Vector>, m: nat, width: nat, cur: nat, obj: nat, level: nat, a: Links, b: Links, w: LevelWork)
    requires IdsBelow(a, |a|) && LevelStep(dist, vs, m, width, cur, obj, level, a, b, w)
    ensures IdsBelow(b, |b|)
  {
    StepLeft(dist, vs, m, width, cur, obj, level, a, b, w);
    StepList(dist, vs, m, width, cur, obj, level, a, b, w);
    StepFound(dist, vs, m, width, cur, obj, level, a, b, w);
    assert InRange(w.found.top, |a|);
    ChosenAtMost(dist, vs, w.found.top, w.chosen, w.order, m);
    hide LevelStep, BackLinked, FarthestFirst, Distinct, Delivered, ChosenFrom;
    forall u, l, v | 0 <= u < |b| && 0 <= l < |b[u]| && v in ListAt(b[u], l)
      ensures v < |b|
    {
      if l == level && u in Ids(w.chosen) {
        OldIds(a, u, level, |a|);
        assert BackLinked(dist, vs, cur, u, Capacity(m, level), a[u][level], b[u][level]);
        AnswerBelow(dist, vs, |a|, cur, u, Capacity(m, level), a[u][level], b[u][level]);
      } else if l == level && u == cur {
        assert v in Ids(w.chosen);
      } else {
        assert b[u][l] == a[u][l] && v in ListAt(a[u], l);
      }
    }
  }

  // ---------------------------------------------------------------- all levels

  lemma {:induction false} StepsAreUnique(dist: (Vector, Vector) -> real, vs: seq<Vector>, m: nat, width: nat, cur: nat, obj: nat, top: nat, s: Trace, t: Trace, k: nat)
    requires LevelSteps(dist, vs, m, width, cur, obj, top, s) && LevelSteps(dist, vs, m, width, cur, obj, top, t)
    requires NoTiesAmong(dist, vs, cur + 1) && |s.steps[0]| == cur + 1 && IdsBelow(s.steps[0], cur + 1)
    requires k <= |s.works| && k <= |t.works| && s.steps[0] == t.steps[0]
    ensures s.steps[k] == t.steps[k] && |s.steps[k]| == cur + 1 && IdsBelow(s.steps[k], cur + 1)
  {
    hide LevelStep, NoTiesAmong, IdsBelow, Delivered, ChosenFrom;
    if k > 0 {
      StepsAreUnique(dist, vs, m, width, cur, obj, top, s, t, k - 1);
      assert StepAt(dist, vs, m, width, cur, obj, top, s, k - 1) && StepAt(dist, vs, m, width, cur, obj, top, t, k - 1);
      hide LevelSteps;
      StepFound(dist, vs, m, width, cur, obj, top - (k - 1), s.steps[k - 1], s.steps[k], s.works[k - 1]);
      StillBelow(dist, vs, m, width, cur, obj, top - (k - 1), s.steps[k - 1], s.steps[k], s.works[k - 1]);
      StepIsUnique(dist, vs, m, width, cur, obj, top - (k - 1), s.steps[k - 1], s.steps[k], s.works[k - 1], t.steps[k], t.works[k - 1]);
    }
  }

  /** Without ties among the elements the contract of an insertion into a good graph admits one graph: from the same links, by the descent and the
      steps it describes, one comes to the same lists, slot by slot. */
  lemma InsertionIsUnique(dist: (Vector, Vector) -> real, vs: seq<Vector>, levels: seq<nat>, m: nat, width: nat, cur: nat, maxlevel: int, level: nat, entry: nat, before: Links,
                          obj: nat, after: Links, s: Trace, obj': nat, after': Links, t: Trace)
    requires NoTiesAmong(dist, vs, cur + 1) && maxlevel >= 0 && |before| == cur + 1 && GoodGraph(before, levels, m)
    requires Descends(before, DistancesTo(dist, vs[cur], vs[..cur + 1]), maxlevel, level, entry, obj)
    requires Descends(before, DistancesTo(dist, vs[cur], vs[..cur + 1]), maxlevel, level, entry, obj')
    requires Insertion(dist, vs, m, width, cur, obj, Smaller(level, maxlevel), before, after, s)
    requires Insertion(dist, vs, m, width, cur, obj', Smaller(level, maxlevel), before, after', t)
    ensures obj == obj' && after == after'
  {
    GoodIdsBelow(before, levels, m);
    hide LevelSteps, Descends, DistancesTo, NoTiesAmong, GoodGraph;
    DescentIsUnique(before, DistancesTo(dist, vs[cur], vs[..cur + 1]), maxlevel, level, entry, obj, obj');
    var top := Smaller(level, maxlevel);
    StepsAreUnique(dist, vs, m, width, cur, obj, top, s, t, top + 1);
  }
}
