/** The sequential HNSW index: insertion and search over arrays. */
module Hnsw {
  import opened FiniteSets
  import opened Wrappers
  import opened Queues
  import opened BeamSearch
  import opened HnswGraph
  import opened GreedyDescent
  import opened NeighborHeuristic

  /** The runtime errors insertion and search can throw. */
  datatype Status = Ok | Full | TooManyCandidates | NotBlank | MemoryCorruption | NoSuchLevel | BadListSize | SelfLink | CandidateError | LevelError

  /** What a queue has handed out so far, and what is left of it. */
  ghost predicate HandedOut(q: Queue, rest: Queue, ids: seq<nat>) {
    && rest <= q && |ids| + |rest| == |q| && Distinct(ids) && FarthestFirst(ids, q)
    && (forall i | 0 <= i < |ids| :: ids[i] in Ids(q) && ids[i] !in Ids(rest))
    && forall i, p, r | 0 <= i < |ids| && p in q && r in rest && p.second == ids[i] :: r.first <= p.first
  }

  lemma HandsOutNext(q: Queue, rest: Queue, ids: seq<nat>, e: Pair)
    requires HandedOut(q, rest, ids) && DistinctIds(q) && TopByFirst(rest, e)
    ensures HandedOut(q, rest - {e}, ids + [e.second])
  {
    assert e.second in Ids(q) && e.second in Ids(rest);
    StillFarthestFirst(q, rest, ids, e);
    hide FarthestFirst;
  }

  lemma StillFarthestFirst(q: Queue, rest: Queue, ids: seq<nat>, e: Pair)
    requires DistinctIds(q) && FarthestFirst(ids, q) && rest <= q && e in rest
    requires forall i, p, r | 0 <= i < |ids| && p in q && r in rest && p.second == ids[i] :: r.first <= p.first
    ensures FarthestFirst(ids + [e.second], q)
  {
  }

  /** Empties a queue into a vector of ids. */
  method DrainIds(q: Queue) returns (ids: seq<nat>)
    requires DistinctIds(q)
    ensures |ids| == |q| && Distinct(ids) && FarthestFirst(ids, q)
    ensures forall i | 0 <= i < |ids| :: ids[i] in Ids(q)
  {
    var rest := q;
    ids := [];
    while |rest| > 0
      invariant HandedOut(q, rest, ids)
      decreases |rest|
    {
      hide HandedOut, DistinctIds, TopByFirst;
      var e, less := PopByFirst(rest);
      HandsOutNext(q, rest, ids, e);
      ids := ids + [e.second];
      rest := less;
    }
  }

  /** Overwrites the front of a list's block with the ids of a queue. */
  method Refill(q: Queue, data0: seq<nat>) returns (data: seq<nat>, indx: nat)
    requires DistinctIds(q) && |q| <= |data0|
    ensures indx == |q| && |data| == |data0| && Distinct(data[..indx])
    ensures data[indx..] == data0[indx..] && FarthestFirst(data[..indx], q)
    ensures forall v :: v in data[..indx] <==> v in Ids(q)
  {
    var rest := q;
    data, indx := data0, 0;
    while |rest| > 0
      invariant indx + |rest| == |q| && |data| == |data0| && data[indx..] == data0[indx..]
      invariant HandedOut(q, rest, data[..indx])
      decreases |rest|
    {
      hide HandedOut, DistinctIds, TopByFirst;
      var e, less := PopByFirst(rest);
      ghost var ids := data[..indx];
      HandsOutNext(q, rest, ids, e);
      data := data[indx := e.second];
      assert data[..indx + 1] == ids + [e.second];
      indx := indx + 1;
      rest := less;
    }
    DrainedAll(q, data[..indx]);
  }

  /** What a full list of node other is pruned from: cur and the ids of the list, by their distance to other. */
  ghost function CandidatesOf(dist: (Vector, Vector) -> real, vs: seq<Vector>, cur: nat, other: nat, ids: seq<nat>): Queue
    requires cur < |vs| && other < |vs| && forall j | 0 <= j < |ids| :: ids[j] < |vs|
  {
    {Pair(dist(vs[cur], vs[other]), cur)} + set v | v in ids :: Pair(dist(vs[v], vs[other]), v)
  }

  /** A list rewritten from the front: the slots behind the new size keep what was in them. */
  predicate Overwritten(before: LinkList, after: LinkList) {
    after.size <= |after.data| == |before.data| && after.data[after.size..] == before.data[after.size..]
  }

  /** How the list of node other answers to cur's link: cur goes behind the last id while there is room; a
      full list becomes what the heuristic keeps of its ids and cur. */
  ghost predicate BackLinked(dist: (Vector, Vector) -> real, vs: seq<Vector>, cur: nat, other: nat, capacity: nat, before: LinkList, after: LinkList) {
    && cur < |vs| && other < |vs| && before.size <= |before.data| && Overwritten(before, after)
    && (forall j | 0 <= j < before.size :: before.data[..before.size][j] < |vs|)
    && if before.size < capacity then after.data[..after.size] == before.data[..before.size] + [cur]
       else exists order :: PrunedTo(dist, vs, CandidatesOf(dist, vs, cur, other, before.data[..before.size]), order, capacity, after)
  }

  ghost predicate PrunedTo(dist: (Vector, Vector) -> real, vs: seq<Vector>, q: Queue, order: seq<Pair>, capacity: nat, after: LinkList)
    requires after.size <= |after.data|
  {
    && InRange(q, |vs|) && Pruned(dist, vs, q, order, capacity)
    && Distinct(after.data[..after.size]) && FarthestFirst(after.data[..after.size], Elements(order))
    && forall v :: v in after.data[..after.size] <==> v in Ids(Elements(order))
  }

  /** cur and the ids of a list, each once. */
  ghost predicate CandidateQueue(q: Queue, cur: nat, ids: seq<nat>, n: nat) {
    |q| == |ids| + 1 && DistinctIds(q) && InRange(q, n) && forall p | p in q :: p.second == cur || p.second in ids
  }

  lemma CandidatesStart(x: real, cur: nat, n: nat)
    requires cur < n
    ensures CandidateQueue({Pair(x, cur)}, cur, [], n)
  {
  }

  lemma CandidatesGrow(q: Queue, cur: nat, ids: seq<nat>, n: nat, x: real, v: nat)
    requires CandidateQueue(q, cur, ids, n) && v < n && v != cur && v !in ids
    ensures Pair(x, v) !in q && CandidateQueue(q + {Pair(x, v)}, cur, ids + [v], n)
  {
    assert |q + {Pair(x, v)}| == |q| + 1;
  }

  lemma MoreCandidates(dist: (Vector, Vector) -> real, vs: seq<Vector>, cur: nat, other: nat, ids: seq<nat>, v: nat)
    requires cur < |vs| && other < |vs| && v < |vs| && forall j | 0 <= j < |ids| :: ids[j] < |vs|
    ensures CandidatesOf(dist, vs, cur, other, ids + [v]) == CandidatesOf(dist, vs, cur, other, ids) + {Pair(dist(vs[v], vs[other]), v)}
    ensures CandidatesOf(dist, vs, cur, other, []) == {Pair(dist(vs[cur], vs[other]), cur)}
  {
  }

  /** Ids kept from a good list and cur form a good list. */
  lemma PrunedIsGood(list: LinkList, q: Queue, list0: LinkList, capacity: nat, cur: nat, other: nat, level: nat, levels: seq<nat>, n: nat)
    requires GoodList(list0, capacity, other, level, levels) && CandidateQueue(q, cur, list0.data[..list0.size], n)
    requires cur < |levels| && cur != other && level <= levels[cur]
    requires |list.data| == capacity && list.size <= capacity && Distinct(list.data[..list.size])
    requires forall v | v in list.data[..list.size] :: v in Ids(q)
    ensures GoodList(list, capacity, other, level, levels)
  {
    forall j | 0 <= j < list.size
      ensures list.data[j] < |levels| && list.data[j] != other && level <= levels[list.data[j]]
    {
      assert list.data[j] in list.data[..list.size];
      assert list.data[j] == cur || list.data[j] in list0.data[..list0.size];
    }
  }

  lemma KeptDistinct(kept: Queue, q: Queue)
    requires kept <= q && DistinctIds(q)
    ensures DistinctIds(kept) && Ids(kept) <= Ids(q)
  {
  }

  lemma AppendKeepsGood(l: LinkList, capacity: nat, self: nat, level: nat, levels: seq<nat>, v: nat)
    requires GoodList(l, capacity, self, level, levels) && l.size < capacity
    requires v < |levels| && v != self && level <= levels[v] && v !in l.data[..l.size]
    ensures GoodList(LinkList(l.size + 1, l.data[l.size := v]), capacity, self, level, levels)
    ensures l.data[l.size := v][..l.size + 1] == l.data[..l.size] + [v]
  {
    var longer := l.data[l.size := v][..l.size + 1];
    assert longer == l.data[..l.size] + [v];
    forall i, j | 0 <= i < j < |longer|
      ensures longer[i] != longer[j]
    {
      assert j < l.size ==> l.data[..l.size][i] != l.data[..l.size][j];
      assert l.data[..l.size][i] == longer[i];
    }
  }

  /** The list that answers a link holds no id twice, and only the new id joins it. */
  lemma AnswerIsDistinct(dist: (Vector, Vector) -> real, vs: seq<Vector>, cur: nat, other: nat, capacity: nat, before: LinkList, after: LinkList)
    requires BackLinked(dist, vs, cur, other, capacity, before, after)
    requires Distinct(before.data[..before.size]) && cur !in before.data[..before.size]
    ensures Distinct(after.data[..after.size])
    ensures forall v | v in after.data[..after.size] :: v == cur || v in before.data[..before.size]
  {
    var ids, ids' := before.data[..before.size], after.data[..after.size];
    hide Pruned;
    if before.size >= capacity {
      var order :| PrunedTo(dist, vs, CandidatesOf(dist, vs, cur, other, ids), order, capacity, after);
      PrunedChooses(dist, vs, CandidatesOf(dist, vs, cur, other, ids), order, capacity);
      hide CandidatesOf;
      assert forall v | v in Ids(CandidatesOf(dist, vs, cur, other, ids)) :: v == cur || v in ids by { CandidateIds(dist, vs, cur, other, ids); }
    } else {
      assert forall i | 0 <= i < before.size :: ids'[i] == ids[i];
    }
  }

  lemma PrunedChooses(dist: (Vector, Vector) -> real, vs: seq<Vector>, q: Queue, order: seq<Pair>, m: nat)
    requires InRange(q, |vs|) && Pruned(dist, vs, q, order, m)
    ensures Ids(Elements(order)) <= Ids(q)
  {
  }

  lemma CandidateIds(dist: (Vector, Vector) -> real, vs: seq<Vector>, cur: nat, other: nat, ids: seq<nat>)
    requires cur < |vs| && other < |vs| && forall j | 0 <= j < |ids| :: ids[j] < |vs|
    ensures forall v | v in Ids(CandidatesOf(dist, vs, cur, other, ids)) :: v == cur || v in ids
  {
  }

  /** However a good list answers a new link, it stays good. */
  lemma AnswerIsGood(dist: (Vector, Vector) -> real, vs: seq<Vector>, cur: nat, other: nat, capacity: nat, before: LinkList, after: LinkList, level: nat, levels: seq<nat>)
    requires BackLinked(dist, vs, cur, other, capacity, before, after)
    requires GoodList(before, capacity, other, level, levels) && cur !in before.data[..before.size]
    requires cur < |levels| && cur != other && level <= levels[cur]
    ensures GoodList(after, capacity, other, level, levels)
    ensures forall v | v in after.data[..after.size] :: v == cur || v in before.data[..before.size]
  {
    AnswerIsDistinct(dist, vs, cur, other, capacity, before, after);
    assert |after.data| == capacity && after.size <= |after.data|;
    hide BackLinked, Distinct;
    var ids' := after.data[..after.size];
    forall j | 0 <= j < after.size
      ensures after.data[j] < |levels| && after.data[j] != other && level <= levels[after.data[j]]
    {
      assert after.data[j] == ids'[j] && ids'[j] in ids';
    }
  }

  lemma DrainedAll(q: Queue, ids: seq<nat>)
    requires DistinctIds(q) && |ids| == |q| && Distinct(ids) && forall i | 0 <= i < |ids| :: ids[i] in Ids(q)
    ensures forall v :: v in ids <==> v in Ids(q)
  {
    IdsCount(q);
    DistinctCount(ids);
    SubsetEqual(ToSet(ids), Ids(q));
  }

  lemma IdsCount(q: Queue)
    requires DistinctIds(q)
    ensures |Ids(q)| == |q|
  {
    var back := map p | p in q :: p.second;
    var to := map v | v in Ids(q) :: PairOf(q, v);
    SameCount(Ids(q), q, to, back);
  }

  ghost function PairOf(q: Queue, v: nat): (p: Pair)
    requires v in Ids(q)
    ensures p in q && p.second == v
  {
    var p :| p in q && p.second == v;
    p
  }

  lemma {:induction false} DistinctCount(ids: seq<nat>)
    requires Distinct(ids)
    ensures |ToSet(ids)| == |ids|
  {
    if ids == [] {
      assert ToSet(ids) == {};
    } else {
      var shorter, last := ids[..|ids| - 1], ids[|ids| - 1];
      DistinctCount(shorter);
      assert last !in shorter;
      assert ToSet(ids) == ToSet(shorter) + {last};
    }
  }

  lemma OwnListLinks(links: Links, cur: nat, level: nat, l: LinkList)
    requires cur < |links| && level < |links[cur]| && links[cur][level].size == 0
    ensures Linked(links, links[cur := links[cur][level := l]], cur, level)
  {
  }

  /** The results of a search from s on a level are different existing nodes of that level, other than a
      node nobody points to. */
  lemma DeliveredNodes(links: Links, levels: seq<nat>, m: nat, level: nat, q: Query, top: Queue, visited: set<nat>, expanded: set<nat>, cur: nat)
    requires GoodGraph(links, levels, m) && q.g == LayerOf(links, level) && q.s < |levels| && level <= levels[q.s]
    requires Delivered(q, top, visited, expanded) && Unseen(links, cur, level) && cur != q.s
    ensures DistinctIds(top) && InRange(top, |levels|)
    ensures forall p | p in top :: p.second != cur && p.second < |levels| && level <= levels[p.second]
  {
    forall p | p in top
      ensures p.second != cur && p.second < |levels| && level <= levels[p.second]
    {
      ReachedExists(links, levels, m, level, q.s, p.second);
    }
  }

  lemma PrunedSize(dist: (Vector, Vector) -> real, vs: seq<Vector>, q: Queue, order: seq<Pair>, capacity: nat)
    requires InRange(q, |vs|) && q != {}
    ensures Pruned(dist, vs, q, order, capacity) ==> |order| <= capacity && (capacity > 0 ==> |order| > 0)
  {
  }

  ghost function ItemsAfter(items: map<nat, Vector>, points: seq<(Vector, nat, int, nat)>): map<nat, Vector> {
    if points == [] then items
    else ItemsAfter(items, points[..|points| - 1])[points[|points| - 1].1 := points[|points| - 1].0]
  }

  /** From index start on, vectors, levels and labels are those of the points added. */
  ghost predicate Recorded(vs: seq<Vector>, levels: seq<nat>, names: seq<nat>, start: nat, points: seq<(Vector, nat, int, nat)>) {
    && |vs| == |levels| == |names| == start + |points|
    && forall i | 0 <= i < |points| ::
         && vs[start + i] == points[i].0 && names[start + i] == points[i].1
         && levels[start + i] == if points[i].2 > 0 then points[i].2 else points[i].3
  }

  lemma RecordedNext(vs: seq<Vector>, levels: seq<nat>, names: seq<nat>, start: nat, points: seq<(Vector, nat, int, nat)>, i: nat)
    requires i < |points| && Recorded(vs, levels, names, start, points[..i])
    ensures Recorded(vs + [points[i].0], levels + [if points[i].2 > 0 then points[i].2 else points[i].3], names + [points[i].1], start, points[..i + 1])
  {
  }

  lemma OneMoreItem(items: map<nat, Vector>, points: seq<(Vector, nat, int, nat)>, i: nat)
    requires i < |points|
    ensures ItemsAfter(items, points[..i + 1]) == ItemsAfter(items, points[..i])[points[i].1 := points[i].0]
  {
    assert points[..i + 1][..i] == points[..i];
  }

  ghost function ItemsOf(lookup: map<nat, nat>, vs: seq<Vector>): map<nat, Vector> {
    map l | l in lookup && lookup[l] < |vs| :: vs[lookup[l]]
  }

  lemma ItemStored(lookup: map<nat, nat>, vs: seq<Vector>, name: nat, point: Vector)
    requires forall l | l in lookup :: lookup[l] < |vs|
    ensures ItemsOf(lookup[name := |vs|], vs + [point]) == ItemsOf(lookup, vs)[name := point]
  {
  }

  /** The outcome of a search on one layer. */
  datatype Found = Found(top: Queue, visited: set<nat>, expanded: set<nat>)

  /** What one level of an insertion finds and chooses. */
  datatype LevelWork = LevelWork(found: Found, chosen: Queue, order: seq<Pair>)

  /** The chosen elements, and no others, have answered the link of cur. */
  ghost predicate Answered(dist: (Vector, Vector) -> real, vs: seq<Vector>, m: nat, cur: nat, level: nat, a: Links, b: Links, chosen: set<nat>) {
    && |a| == |b|
    && (forall u | u in chosen ::
          && u < |a| && level < |a[u]| && level < |b[u]|
          && BackLinked(dist, vs, cur, u, Capacity(m, level), a[u][level], b[u][level]))
    && forall u | 0 <= u < |a| && u != cur && u !in chosen :: a[u] == b[u]
  }

  /** The list of a neighbour that has not been asked is as it was. */
  lemma NotAskedYet(dist: (Vector, Vector) -> real, vs: seq<Vector>, m: nat, cur: nat, level: nat, a: Links, b: Links, selected: seq<nat>, idx: nat)
    requires idx < |selected| && Distinct(selected) && Answered(dist, vs, m, cur, level, a, b, ToSet(selected[..idx]))
    requires selected[idx] < |a| && selected[idx] != cur
    ensures b[selected[idx]] == a[selected[idx]]
  {
    assert selected[idx] !in selected[..idx];
  }

  lemma NeighborAnswered(dist: (Vector, Vector) -> real, vs: seq<Vector>, m: nat, cur: nat, level: nat, a: Links, b: Links, c: Links, selected: seq<nat>, idx: nat)
    requires idx < |selected| && Distinct(selected) && Answered(dist, vs, m, cur, level, a, b, ToSet(selected[..idx]))
    requires |c| == |b| && selected[idx] < |b| && selected[idx] != cur && forall u | 0 <= u < |b| && u != selected[idx] :: c[u] == b[u]
    requires level < |b[selected[idx]]| && level < |c[selected[idx]]|
    requires BackLinked(dist, vs, cur, selected[idx], Capacity(m, level), b[selected[idx]][level], c[selected[idx]][level])
    ensures Answered(dist, vs, m, cur, level, a, c, ToSet(selected[..idx + 1]))
  {
    hide BackLinked;
    NotAskedYet(dist, vs, m, cur, level, a, b, selected, idx);
    assert selected[..idx + 1] == selected[..idx] + [selected[idx]];
    assert ToSet(selected[..idx + 1]) == ToSet(selected[..idx]) + {selected[idx]};
    assert selected[idx] !in selected[..idx];
  }

  lemma FullListAnswers(dist: (Vector, Vector) -> real, vs: seq<Vector>, cur: nat, other: nat, capacity: nat, before: LinkList, after: LinkList, order: seq<Pair>)
    requires cur < |vs| && other < |vs| && before.size == |before.data| == capacity && Overwritten(before, after)
    requires forall j | 0 <= j < before.size :: before.data[..before.size][j] < |vs|
    requires PrunedTo(dist, vs, CandidatesOf(dist, vs, cur, other, before.data[..before.size]), order, capacity, after)
    ensures BackLinked(dist, vs, cur, other, capacity, before, after)
  {
  }

  /** Writing cur's own list first makes no difference to the answers. */
  lemma AnsweredAfterOwn(dist: (Vector, Vector) -> real, vs: seq<Vector>, m: nat, cur: nat, level: nat, before: Links, a: Links, b: Links, chosen: set<nat>)
    requires |before| == |a| && (forall u | 0 <= u < |a| && u != cur :: a[u] == before[u]) && cur !in chosen
    requires Answered(dist, vs, m, cur, level, a, b, chosen)
    ensures Answered(dist, vs, m, cur, level, before, b, chosen)
  {
    hide BackLinked;
  }

  /** One level of addPoint, from links a to links b: the search from node obj delivers candidates, the
      heuristic chooses neighbours, the new element's list holds exactly these, each of them answers, and no
      other list changes. */
  ghost predicate LevelStep(dist: (Vector, Vector) -> real, vs: seq<Vector>, m: nat, width: nat, cur: nat, obj: nat, level: nat, a: Links, b: Links, w: LevelWork) {
    && |a| == |b| <= |vs| && cur < |a|
    && Delivered(Query(LayerOf(a, level), DistancesTo(dist, vs[cur], vs[..|a|]), obj, width), w.found.top, w.found.visited, w.found.expanded)
    && InRange(w.found.top, |a|) && ChosenFrom(dist, vs, w.found.top, w.chosen, w.order, m)
    && cur !in Ids(w.chosen) && (forall v :: v in ListAt(b[cur], level) <==> v in Ids(w.chosen))
    && FarthestFirst(ListAt(b[cur], level), w.chosen) && Distinct(ListAt(b[cur], level))
    && level < |a[cur]| && level < |b[cur]| && Overwritten(a[cur][level], b[cur][level])
    && Answered(dist, vs, m, cur, level, a, b, Ids(w.chosen)) && Linked(a, b, cur, level)
  }

  lemma LevelStepMade(dist: (Vector, Vector) -> real, vs: seq<Vector>, m: nat, width: nat, cur: nat, obj: nat, level: nat, a: Links, b: Links, w: LevelWork)
    requires |a| == |b| <= |vs| && cur < |a| && InRange(w.found.top, |a|)
    requires Delivered(Query(LayerOf(a, level), DistancesTo(dist, vs[cur], vs[..|a|]), obj, width), w.found.top, w.found.visited, w.found.expanded)
    requires (forall p | p in w.found.top :: p.second != cur) && ChosenFrom(dist, vs, w.found.top, w.chosen, w.order, m)
    requires level < |b[cur]| && forall v :: v in ListAt(b[cur], level) <==> v in Ids(w.chosen)
    requires FarthestFirst(ListAt(b[cur], level), w.chosen) && Distinct(ListAt(b[cur], level))
    requires level < |a[cur]| && Overwritten(a[cur][level], b[cur][level])
    requires Answered(dist, vs, m, cur, level, a, b, Ids(w.chosen)) && Linked(a, b, cur, level)
    ensures LevelStep(dist, vs, m, width, cur, obj, level, a, b, w)
  {
    hide Delivered, LayerOf, DistancesTo, Answered, Linked, Overwritten, ListAt;
    ChosenAtMost(dist, vs, w.found.top, w.chosen, w.order, m);
  }

  /** The levels of an insertion, from the highest down to the base layer. */
  datatype Trace = Trace(steps: seq<Links>, works: seq<LevelWork>)

  ghost predicate LevelSteps(dist: (Vector, Vector) -> real, vs: seq<Vector>, m: nat, width: nat, cur: nat, obj: nat, top: nat, trace: Trace) {
    && |trace.steps| == |trace.works| + 1 && |trace.works| <= top + 1
    && forall k | 0 <= k < |trace.works| :: StepAt(dist, vs, m, width, cur, obj, top, trace, k)
  }

  /** A whole insertion into a non-empty index: one step for each level from top down to 0, all starting
      their search from node obj. */
  ghost predicate Insertion(dist: (Vector, Vector) -> real, vs: seq<Vector>, m: nat, width: nat, cur: nat, obj: nat, top: nat, before: Links, after: Links, trace: Trace) {
    && LevelSteps(dist, vs, m, width, cur, obj, top, trace) && |trace.works| == top + 1
    && trace.steps[0] == before && trace.steps[top + 1] == after
  }

  /** From two elements on, every element has a neighbour on the base layer, if M is at least 1. */
  ghost predicate NobodyAlone(links: Links, m: nat) {
    m > 0 && |links| > 1 ==> forall c | 0 <= c < |links| :: ListAt(links[c], 0) != []
  }

  /** A list that was not empty and whose element is still good is not empty. */
  lemma StillLinked(a: Links, b: Links, levels: seq<nat>, m: nat, c: nat)
    requires NoneEmptied(a, b) && GoodGraph(b, levels, m) && c < |a| && ListAt(a[c], 0) != []
    ensures ListAt(b[c], 0) != []
  {
    assert a[c][0].size > 0;
    assert GoodNode(b[c], m, c, levels);
  }

  /** An insertion leaves nobody alone. */
  lemma NobodyLeftAlone(dist: (Vector, Vector) -> real, vs: seq<Vector>, m: nat, width: nat, cur: nat, obj: nat, top: nat, before: Links, after: Links, levels: seq<nat>, trace: Trace)
    requires Insertion(dist, vs, m, width, cur, obj, top, before, after, trace) && |after| == |before| == cur + 1 && cur > 0
    requires NobodyAlone(before[..cur], m) && NoneEmptied(before, after) && GoodGraph(after, levels, m)
    ensures NobodyAlone(after, m)
  {
    hide LevelStep, GoodGraph, NoneEmptied;
    if m > 0 {
      forall c | 0 <= c < |after|
        ensures ListAt(after[c], 0) != []
      {
        if c == cur {
          ListSettled(dist, vs, m, width, cur, obj, top, trace, 0, top + 1);
        } else if cur > 1 {
          assert before[c] == before[..cur][c];
          StillLinked(before, after, levels, m, c);
        } else {
          assert StepAt(dist, vs, m, width, cur, obj, top, trace, top);
          FirstAnswers(dist, vs, m, width, obj, trace.steps[top], after, levels, trace.works[top]);
        }
      }
    }
  }

  /** When the second element has been linked on the base layer, the first has a neighbour. */
  lemma FirstAnswers(dist: (Vector, Vector) -> real, vs: seq<Vector>, m: nat, width: nat, obj: nat, a: Links, b: Links, levels: seq<nat>, w: LevelWork)
    requires LevelStep(dist, vs, m, width, 1, obj, 0, a, b, w) && m > 0 && |b| == 2 && GoodGraph(b, levels, m)
    ensures ListAt(b[0], 0) != []
  {
    assert |b[0]| == levels[0] + 1 && b[0][0].size <= |b[0][0].data| by {
      assert GoodNode(b[0], m, 0, levels) && GoodList(b[0][0], Capacity(m, 0), 0, 0, levels);
    }
    hide GoodGraph, Delivered, ChosenFrom, Answered, FarthestFirst, Distinct;
    assert |a[0]| == |b[0]| && (a[0][0].size > 0 ==> b[0][0].size > 0) by { LevelStepLinked(dist, vs, m, width, 1, obj, 0, a, b, w); }
    LevelStepLinks(dist, vs, m, width, 1, obj, 0, a, b, w);
    hide LevelStep;
  }

  ghost predicate StepAt(dist: (Vector, Vector) -> real, vs: seq<Vector>, m: nat, width: nat, cur: nat, obj: nat, top: nat, trace: Trace, k: nat)
    requires |trace.steps| == |trace.works| + 1 && k < |trace.works| <= top + 1
  {
    LevelStep(dist, vs, m, width, cur, obj, top - k, trace.steps[k], trace.steps[k + 1], trace.works[k])
  }

  function Smaller(x: nat, y: nat): (r: nat)
    ensures r <= x && r <= y && (r == x || r == y)
  {
    if x < y then x else y
  }

  ghost function Unworked(): LevelWork {
    LevelWork(Found({}, {}, {}), {}, [])
  }

  lemma NoSteps(dist: (Vector, Vector) -> real, vs: seq<Vector>, m: nat, width: nat, cur: nat, obj: nat, top: nat, a: Links)
    ensures LevelSteps(dist, vs, m, width, cur, obj, top, Trace([a], []))
  {
  }

  lemma LevelStepLinked(dist: (Vector, Vector) -> real, vs: seq<Vector>, m: nat, width: nat, cur: nat, obj: nat, level: nat, a: Links, b: Links, w: LevelWork)
    requires LevelStep(dist, vs, m, width, cur, obj, level, a, b, w)
    ensures Linked(a, b, cur, level)
  {
    hide Delivered, ChosenFrom, LayerOf, DistancesTo, Linked, Answered, Overwritten;
  }

  lemma LevelStepsGrow(dist: (Vector, Vector) -> real, vs: seq<Vector>, m: nat, width: nat, cur: nat, obj: nat, top: nat, trace: Trace, b: Links, w: LevelWork)
    requires LevelSteps(dist, vs, m, width, cur, obj, top, trace) && |trace.works| <= top
    requires LevelStep(dist, vs, m, width, cur, obj, top - |trace.works|, trace.steps[|trace.works|], b, w)
    ensures LevelSteps(dist, vs, m, width, cur, obj, top, Trace(trace.steps + [b], trace.works + [w]))
  {
    hide LevelStep;
    var longer := Trace(trace.steps + [b], trace.works + [w]);
    forall k | 0 <= k < |longer.works|
      ensures StepAt(dist, vs, m, width, cur, obj, top, longer, k)
    {
      if k < |trace.works| {
        assert StepAt(dist, vs, m, width, cur, obj, top, trace, k);
      }
    }
  }

  /** With M at least 1 somebody is chosen. */
  lemma SomebodyChosen(dist: (Vector, Vector) -> real, vs: seq<Vector>, top: Queue, chosen: Queue, order: seq<Pair>, m: nat)
    requires InRange(top, |vs|) && ChosenFrom(dist, vs, top, chosen, order, m) && top != {} && m > 0
    ensures chosen != {}
  {
    if |top| >= m {
      assert |order| > 0 && order[0] in order;
      assert order[0] in Elements(order);
    }
  }

  /** With M at least 1 the new element is linked on the level; the very first element answers the second. */
  lemma LevelStepLinks(dist: (Vector, Vector) -> real, vs: seq<Vector>, m: nat, width: nat, cur: nat, obj: nat, level: nat, a: Links, b: Links, w: LevelWork)
    requires LevelStep(dist, vs, m, width, cur, obj, level, a, b, w) && m > 0
    ensures ListAt(b[cur], level) != []
    ensures cur == 1 && |a| == 2 && level == 0 && 0 < |a[0]| && a[0][0].size == 0 ==> ListAt(b[0], 0) != []
  {
    hide LevelStep, Answered;
    var p := NeighborChosen(dist, vs, m, width, cur, obj, level, a, b, w);
    if cur == 1 && |a| == 2 && level == 0 && 0 < |a[0]| && a[0][0].size == 0 {
      LevelStepAnswered(dist, vs, m, width, cur, obj, level, a, b, w);
      EmptyAnswers(dist, vs, m, a, b, Ids(w.chosen));
    }
  }

  lemma LevelStepAnswered(dist: (Vector, Vector) -> real, vs: seq<Vector>, m: nat, width: nat, cur: nat, obj: nat, level: nat, a: Links, b: Links, w: LevelWork)
    requires LevelStep(dist, vs, m, width, cur, obj, level, a, b, w)
    ensures Answered(dist, vs, m, cur, level, a, b, Ids(w.chosen))
  {
    hide Delivered, ChosenFrom, LayerOf, DistancesTo, Linked, Answered, Overwritten;
  }

  lemma NeighborChosen(dist: (Vector, Vector) -> real, vs: seq<Vector>, m: nat, width: nat, cur: nat, obj: nat, level: nat, a: Links, b: Links, w: LevelWork) returns (p: Pair)
    requires LevelStep(dist, vs, m, width, cur, obj, level, a, b, w) && m > 0
    ensures p.second in Ids(w.chosen) && p.second in ListAt(b[cur], level) && p.second < |a| && p.second != cur
  {
    assert w.found.top != {};
    hide Delivered, LayerOf, DistancesTo, Linked, Answered, Overwritten, Pruned;
    assert w.chosen != {} by { SomebodyChosen(dist, vs, w.found.top, w.chosen, w.order, m); }
    p :| p in w.chosen;
    assert p in w.found.top;
    hide ChosenFrom, ListAt;
    assert p.second in Ids(w.chosen);
  }

  /** The empty list of the first element answers the second with its id. */
  lemma EmptyAnswers(dist: (Vector, Vector) -> real, vs: seq<Vector>, m: nat, a: Links, b: Links, chosen: set<nat>)
    requires Answered(dist, vs, m, 1, 0, a, b, chosen) && 0 in chosen && m > 0 && a[0][0].size == 0
    ensures ListAt(b[0], 0) != []
  {
    hide PrunedTo;
    assert BackLinked(dist, vs, 1, 0, Capacity(m, 0), a[0][0], b[0][0]);
  }

  /** A list of the new element stays as it is while lower levels are linked. */
  lemma {:induction false} ListSettled(dist: (Vector, Vector) -> real, vs: seq<Vector>, m: nat, width: nat, cur: nat, obj: nat, top: nat, trace: Trace, l: nat, k: nat)
    requires LevelSteps(dist, vs, m, width, cur, obj, top, trace) && |trace.works| == top + 1 && m > 0
    requires l <= top && top - l < k <= top + 1
    ensures cur < |trace.steps[k]| && ListAt(trace.steps[k][cur], l) != []
  {
    hide Delivered, ChosenFrom, LayerOf, DistancesTo, BackLinked;
    assert StepAt(dist, vs, m, width, cur, obj, top, trace, k - 1);
    if k == top - l + 1 {
      LevelStepLinks(dist, vs, m, width, cur, obj, l, trace.steps[k - 1], trace.steps[k], trace.works[k - 1]);
    } else {
      ListSettled(dist, vs, m, width, cur, obj, top, trace, l, k - 1);
    }
  }


  /** What an insertion has done to the lists of one level: the new element's list has been written, its ids
      have answered, and the others are as they were. */
  ghost predicate LevelDone(dist: (Vector, Vector) -> real, vs: seq<Vector>, m: nat, cur: nat, level: nat, a: Links, b: Links) {
    && |a| == |b| && cur < |a| && level < |a[cur]| && level < |b[cur]| && Overwritten(a[cur][level], b[cur][level])
    && (forall u | u in ListAt(b[cur], level) ::
          && u < |a| && level < |a[u]| && level < |b[u]|
          && BackLinked(dist, vs, cur, u, Capacity(m, level), a[u][level], b[u][level]))
    && forall u | 0 <= u < |a| && u != cur && u !in ListAt(b[cur], level) && level < |a[u]| :: level < |b[u]| && b[u][level] == a[u][level]
  }

  /** The lists of one level are the same. */
  ghost predicate SameOn(a: Links, b: Links, level: nat) {
    |a| == |b| && forall u | 0 <= u < |a| :: |a[u]| == |b[u]| && (level < |a[u]| ==> a[u][level] == b[u][level])
  }

  /** Up to step k only levels above top - k have been touched, and they are not touched again. */
  lemma {:induction false} StepsTouch(dist: (Vector, Vector) -> real, vs: seq<Vector>, m: nat, width: nat, cur: nat, obj: nat, top: nat, trace: Trace, l: nat, k: nat, n: nat)
    requires LevelSteps(dist, vs, m, width, cur, obj, top, trace) && k <= n <= |trace.works| && (n <= top - l || k > top - l)
    ensures SameOn(trace.steps[k], trace.steps[n], l)
  {
    hide LevelStep;
    if k < n {
      StepsTouch(dist, vs, m, width, cur, obj, top, trace, l, k, n - 1);
      assert StepAt(dist, vs, m, width, cur, obj, top, trace, n - 1);
      LevelStepLinked(dist, vs, m, width, cur, obj, top - (n - 1), trace.steps[n - 1], trace.steps[n], trace.works[n - 1]);
    }
  }

  /** The whole insertion does to each of its levels what the step on that level did. */
  lemma LevelSettled(dist: (Vector, Vector) -> real, vs: seq<Vector>, m: nat, width: nat, cur: nat, obj: nat, top: nat, before: Links, after: Links, trace: Trace, l: nat)
    requires Insertion(dist, vs, m, width, cur, obj, top, before, after, trace)
    ensures if l <= top then LevelDone(dist, vs, m, cur, l, before, after) else SameOn(before, after, l)
  {
    hide LevelStep;
    if l <= top {
      StepsTouch(dist, vs, m, width, cur, obj, top, trace, l, 0, top - l);
      StepsTouch(dist, vs, m, width, cur, obj, top, trace, l, top - l + 1, top + 1);
      assert StepAt(dist, vs, m, width, cur, obj, top, trace, top - l);
      StepDone(dist, vs, m, width, cur, obj, l, trace.steps[top - l], trace.steps[top - l + 1], trace.works[top - l]);
      DoneBetween(dist, vs, m, cur, l, before, trace.steps[top - l], trace.steps[top - l + 1], after);
    } else {
      StepsTouch(dist, vs, m, width, cur, obj, top, trace, l, 0, top + 1);
    }
  }

  lemma StepDone(dist: (Vector, Vector) -> real, vs: seq<Vector>, m: nat, width: nat, cur: nat, obj: nat, level: nat, a: Links, b: Links, w: LevelWork)
    requires LevelStep(dist, vs, m, width, cur, obj, level, a, b, w)
    ensures LevelDone(dist, vs, m, cur, level, a, b)
  {
    hide Delivered, ChosenFrom, LayerOf, DistancesTo, BackLinked, Overwritten;
  }

  lemma DoneBetween(dist: (Vector, Vector) -> real, vs: seq<Vector>, m: nat, cur: nat, level: nat, a0: Links, a: Links, b: Links, b0: Links)
    requires SameOn(a0, a, level) && LevelDone(dist, vs, m, cur, level, a, b) && SameOn(b, b0, level)
    ensures LevelDone(dist, vs, m, cur, level, a0, b0)
  {
    hide BackLinked, Overwritten;
    assert ListAt(b0[cur], level) == ListAt(b[cur], level);
  }
  /** order lists, farthest first, the k nearest elements of top (all of them if there are fewer). */
  ghost predicate KNearest(top: Queue, order: seq<Pair>, k: nat) {
    && |order| == (if |top| < k then |top| else k)
    && (forall i | 0 <= i < |order| :: order[i] in top)
    && (forall i, j | 0 <= i < j < |order| :: order[i] != order[j] && order[j].first <= order[i].first)
    && (forall p, i | p in top && p !in order && 0 <= i < |order| :: order[i].first <= p.first)
  }

  ghost function Relabelled(order: seq<Pair>, labels: seq<nat>): (r: seq<Pair>)
    requires forall i | 0 <= i < |order| :: order[i].second < |labels|
    ensures |r| == |order| && forall i | 0 <= i < |r| :: r[i] == Pair(order[i].first, labels[order[i].second])
  {
    seq(|order|, i requires 0 <= i < |order| => Pair(order[i].first, labels[order[i].second]))
  }

  lemma DeliveredDistances(q: Query, top: Queue, visited: set<nat>, expanded: set<nat>)
    requires Delivered(q, top, visited, expanded)
    ensures 0 < |top| <= Width(q.ef) && forall p | p in top :: p.second < |q.ds| && p.first == q.ds[p.second]
  {
  }

  lemma DeliveredInRange(q: Query, top: Queue, visited: set<nat>, expanded: set<nat>)
    requires Delivered(q, top, visited, expanded)
    ensures forall p | p in top :: p.second < |q.ds|
  {
  }

  /** Popping while more than k are left drops the farthest. */
  method KeepNearest(top: Queue, k: nat) returns (kept: Queue)
    ensures kept <= top && |kept| == if |top| < k then |top| else k
    ensures forall p, r | p in top && p !in kept && r in kept :: r.first <= p.first
  {
    kept := top;
    while |kept| > k
      invariant kept <= top && (|kept| >= k || kept == top)
      invariant forall p, r | p in top && p !in kept && r in kept :: r.first <= p.first
      decreases |kept|
    {
      var e, rest := PopByFirst(kept);
      kept := rest;
    }
  }

  method DrainDescending(q: Queue) returns (order: seq<Pair>)
    ensures |order| == |q| && forall p :: p in order <==> p in q
    ensures forall i, j | 0 <= i < j < |order| :: order[i] != order[j] && order[j].first <= order[i].first
  {
    var rest := q;
    order := [];
    while |rest| > 0
      invariant rest <= q && |order| + |rest| == |q|
      invariant forall p :: p in order <==> p in q - rest
      invariant forall i, j | 0 <= i < j < |order| :: order[i] != order[j] && order[j].first <= order[i].first
      invariant forall i, r | 0 <= i < |order| && r in rest :: r.first <= order[i].first
      decreases |rest|
    {
      var e, less := PopByFirst(rest);
      assert e !in order;
      order := order + [e];
      rest := less;
    }
  }

  method NearestInOrder(top: Queue, k: nat) returns (order: seq<Pair>)
    ensures KNearest(top, order, k)
    ensures forall i | 0 <= i < |order| :: order[i] in top
  {
    var kept := KeepNearest(top, k);
    order := DrainDescending(kept);
  }

  class HierarchicalNSW {
    const dist: (Vector, Vector) -> real
    const m: nat
    const efConstruction: nat
    const maxElements: nat
    const vectors: array<Vector>
    const labels: array<nat>
    const levels: array<nat>
    const links: array<seq<LinkList>>
    var count: nat
    var labelLookup: map<nat, nat>
    var enterpoint: int
    var maxlevel: int
    var ef: nat

    // -------------------------------------------------------------- the state as values

    ghost predicate Shape()
      reads `count
    {
      && count <= maxElements
      && vectors.Length == labels.Length == levels.Length == links.Length == maxElements
      && labels != levels
    }

    ghost function Vectors(): seq<Vector>
      requires Shape()
      reads `count, vectors
    {
      vectors[..count]
    }

    ghost function Levels(): seq<nat>
      requires Shape()
      reads `count, levels
    {
      levels[..count]
    }

    ghost function AllLinks(): Links
      requires Shape()
      reads `count, links
    {
      links[..count]
    }

    ghost predicate Good()
      reads `count, levels, links
    {
      Shape() && GoodGraph(AllLinks(), Levels(), m)
    }

    /** A search from ep on a layer, as a value. */
    ghost function QueryAt(query: Vector, ep: nat, layer: nat, width: nat): Query
      requires Shape()
      reads `count, vectors, links
    {
      Query(LayerOf(AllLinks(), layer), DistancesTo(dist, query, Vectors()), ep, width)
    }

    // -------------------------------------------------------------- searching

    /** searchBaseLayer and searchBaseLayerST: the beam search on one layer from node ep. */
    method SearchLayer(query: Vector, ep: nat, layer: nat, width: nat) returns (top: Queue, ghost visited: set<nat>, ghost expanded: set<nat>)
      requires Good() && ep < count && layer <= levels[ep]
      ensures Delivered(QueryAt(query, ep, layer, width), top, visited, expanded)
      ensures 0 < |top| <= Width(width)
      ensures forall p | p in top :: p.second < count && p.first == dist(query, vectors[p.second])
    {
      hide GoodGraph, Searching, Expanding, LayerOf, DistancesTo, IsLayer, Reaches, Delivered, Width, Tracked, Turning;
      ghost var q, order := QueryAt(query, ep, layer, width), [];
      LayerIsClosed(AllLinks(), Levels(), m, layer, q.ds);
      SearchStarts(q);
      TrackStarts(q);
      var d := dist(query, vectors[ep]);
      top := {Pair(d, ep)};
      var candidates := {Pair(-d, ep)};
      var seen: set<nat> := {ep};
      var lower := d;
      expanded := {};
      while |candidates| > 0
        invariant Searching(q, Beam(top, candidates, seen, expanded, lower))
        invariant Tracked(q, Beam(top, candidates, seen, expanded, lower), order)
        invariant seen <= Below(count) && |seen| <= count
        decreases count - |seen|, |candidates|
      {
        ghost var b := Beam(top, candidates, seen, expanded, lower);
        var c, rest := PopByFirst(candidates);
        if -c.first > lower {
          break;
        }
        candidates := rest;
        var cur := c.second;
        CandidateReached(q, b, c);
        ListReached(AllLinks(), Levels(), m, layer, ep, cur);
        ExpansionStarts(q, b, c);
        TurnStarts(q, b, order, c);
        var list := links[cur][layer];
        top, candidates, seen, lower := LookAtAll(q, expanded, order, query, cur, list, width, top, candidates, seen, lower);
        SubsetCount(seen, Below(count));
        ExpansionEnds(q, Beam(top, candidates, seen, expanded, lower), cur);
        TurnEnds(q, Beam(top, candidates, seen, expanded, lower), order, cur);
        expanded, order := expanded + {cur}, order + [cur];
      }
      visited := seen;
      SearchEnds(q, Beam(top, candidates, seen, expanded, lower), order);
      DeliveredDistances(q, top, seen, expanded);
    }

    /** The loop over the neighbours of one node. */
    method LookAtAll(ghost q: Query, ghost expanded: set<nat>, ghost order: seq<nat>, query: Vector, cur: nat, list: LinkList, width: nat,
                     top0: Queue, candidates0: Queue, seen0: set<nat>, lower0: real)
      returns (top: Queue, candidates: Queue, seen: set<nat>, lower: real)
      requires Shape() && q.ds == DistancesTo(dist, query, Vectors()) && IsLayer(q.g, q.ds) && q.ef == width
      requires Expanding(q, Beam(top0, candidates0, seen0, expanded, lower0), cur, 0) && seen0 <= Below(count)
      requires Turning(q, Beam(top0, candidates0, seen0, expanded, lower0), order, cur, 0)
      requires list.size <= |list.data| && cur < |q.g| && q.g[cur] == list.data[..list.size]
      requires forall j | 0 <= j < list.size :: list.data[j] < count
      ensures Expanding(q, Beam(top, candidates, seen, expanded, lower), cur, |q.g[cur]|) && seen <= Below(count)
      ensures Turning(q, Beam(top, candidates, seen, expanded, lower), order, cur, |q.g[cur]|)
      ensures (|seen| == |seen0| && candidates == candidates0) || |seen| > |seen0|
    {
      hide Expanding, IsLayer, Turning;
      top, candidates, seen, lower := top0, candidates0, seen0, lower0;
      for j := 0 to list.size
        invariant Expanding(q, Beam(top, candidates, seen, expanded, lower), cur, j) && seen <= Below(count)
        invariant Turning(q, Beam(top, candidates, seen, expanded, lower), order, cur, j)
        invariant (|seen| == |seen0| && candidates == candidates0) || |seen| > |seen0|
      {
        var v := list.data[j];
        ghost var b := Beam(top, candidates, seen, expanded, lower);
        if v in seen {
          AlreadyVisited(q, b, cur, j);
          TurnSkips(q, b, order, cur, j);
        } else {
          top, candidates, lower := LookAt(q, b, order, cur, j, width, v, dist(query, vectors[v]), top, candidates, lower);
          seen := seen + {v};
        }
      }
    }

    /** One level of the greedy descent. While a list is scanned the current node may already change; the
        scan goes on over the list it was started with. */
    method DescendLevel(query: Vector, start: nat, level: nat) returns (status: Status, obj: nat, ghost path: seq<nat>)
      requires Good() && start < count && level <= levels[start]
      ensures status == Ok && obj < count && level <= levels[obj]
      ensures IsWalk(LayerOf(AllLinks(), level), DistancesTo(dist, query, Vectors()), path) && path[0] == start && Last(path) == obj
    {
      hide GoodGraph, LayerOf, FirstNearest, Settled;
      ghost var g, ds := LayerOf(AllLinks(), level), DistancesTo(dist, query, Vectors());
      obj, path := start, [start];
      var curdist := dist(query, vectors[obj]);
      var changed := true;
      while changed
        invariant obj < count && level <= levels[obj] && curdist == dist(query, vectors[obj])
        invariant Hops(g, ds, path) && path[0] == start && Last(path) == obj
        invariant !changed ==> Settled(ds, g[obj], obj)
        decreases Nearer(ds, curdist), changed
      {
        ghost var obj0, dist0 := obj, curdist;
        status, obj, curdist, changed := Scan(query, obj, level, curdist);
        if changed {
          assert obj in Nearer(ds, dist0) && obj !in Nearer(ds, curdist);
          HopTaken(g, ds, path, obj);
          path := path + [obj];
        }
      }
      status := Ok;
    }

    /** One round: the list of node obj0 is scanned for a nearer node. */
    method Scan(query: Vector, obj0: nat, level: nat, dist0: real) returns (status: Status, obj: nat, curdist: real, changed: bool)
      requires Good() && obj0 < count && level <= levels[obj0] && dist0 == dist(query, vectors[obj0])
      ensures status == Ok && obj < count && level <= levels[obj] && curdist == dist(query, vectors[obj])
      ensures var g, ds := LayerOf(AllLinks(), level), DistancesTo(dist, query, Vectors());
              if changed then Hop(ds, g[obj0], obj0, obj) else obj == obj0 && Settled(ds, g[obj], obj)
    {
      ListOf(AllLinks(), Levels(), m, level, obj0);
      hide GoodGraph;
      obj, curdist, changed := obj0, dist0, false;
      var list := links[obj0][level];
      ghost var ds, ids := DistancesTo(dist, query, Vectors()), list.data[..list.size];
      ghost var at := 0;
      for i := 0 to list.size
        invariant obj < count && level <= levels[obj] && curdist == dist(query, vectors[obj])
        invariant if changed then curdist < dist0 && at < i && ids[at] == obj && forall j | 0 <= j < at :: curdist < ds[ids[j]]
                  else obj == obj0
        invariant forall j | 0 <= j < i :: ids[j] < count && curdist <= ds[ids[j]]
      {
        var cand := list.data[i];
        assert ids[i] == cand;
        if cand > maxElements {
          return CandidateError, obj, curdist, changed;
        }
        var d := dist(query, vectors[cand]);
        if d < curdist {
          curdist := d;
          obj := cand;
          changed := true;
          at := i;
        }
      }
      status := Ok;
      assert changed ==> FirstNearest(ds, ids, obj, at);
    }

    /** The descent from level top to just above level bottom. */
    method Descend(query: Vector, start: nat, top: nat, bottom: nat) returns (status: Status, obj: nat)
      requires Good() && start < count && (top > bottom ==> top <= levels[start])
      ensures status == Ok && obj < count && (top > bottom ==> bottom < levels[obj])
      ensures Descends(AllLinks(), DistancesTo(dist, query, Vectors()), top, bottom, start, obj)
    {
      hide GoodGraph, IsWalk, LayerOf;
      status, obj := Ok, start;
      ghost var ds := DistancesTo(dist, query, Vectors());
      ghost var paths := [];
      var level := top;
      while level > bottom
        invariant status == Ok && obj < count && (if top > bottom then bottom <= level <= top else level == top && paths == [])
        invariant level > bottom ==> level <= levels[obj]
        invariant top > level >= bottom ==> level < levels[obj]
        invariant if top > bottom then IsDescent(AllLinks(), ds, top, level, start, paths, obj) else obj == start
      {
        ghost var path;
        ghost var mid := obj;
        status, obj, path := DescendLevel(query, obj, level);
        WalkHasNodes(LayerOf(AllLinks(), level), ds, path);
        DescentGrows(AllLinks(), ds, top, level, start, paths, mid, path);
        paths := paths + [path];
        level := level - 1;
      }
      assert IsDescent(AllLinks(), ds, top, bottom, start, paths, obj);
    }

    // -------------------------------------------------------------- linking

    /** The candidates for the pruned list of node other: cur and everything it is linked to. */
    method Candidates(cur: nat, other: nat, list: LinkList) returns (q: Queue)
      requires Shape() && cur < count && other < count
      requires list.size <= |list.data| && Distinct(list.data[..list.size])
      requires forall j | 0 <= j < list.size :: list.data[j] < count && list.data[j] != cur
      ensures CandidateQueue(q, cur, list.data[..list.size], count)
      ensures q == CandidatesOf(dist, vectors[..], cur, other, list.data[..list.size])
    {
      hide CandidateQueue, CandidatesOf;
      MoreCandidates(dist, vectors[..], cur, other, [], cur);
      q := {Pair(dist(vectors[cur], vectors[other]), cur)};
      CandidatesStart(dist(vectors[cur], vectors[other]), cur, count);
      assert list.data[..0] == [];
      for j := 0 to list.size
        invariant CandidateQueue(q, cur, list.data[..j], count)
        invariant q == CandidatesOf(dist, vectors[..], cur, other, list.data[..j])
      {
        var v := list.data[j];
        assert v !in list.data[..j] by { assert forall i | 0 <= i < j :: list.data[..list.size][i] != list.data[..list.size][j]; }
        MoreCandidates(dist, vectors[..], cur, other, list.data[..j], v);
        CandidatesGrow(q, cur, list.data[..j], count, dist(vectors[v], vectors[other]), v);
        q := Emplace(q, dist(vectors[v], vectors[other]), v);
        assert list.data[..j + 1] == list.data[..j] + [v];
      }
    }

    /** The heuristic is run on the candidates, and what it keeps is written over the list. */
    method KeepPruned(q: Queue, list0: LinkList, capacity: nat) returns (list: LinkList, ghost order: seq<Pair>)
      requires InRange(q, vectors.Length) && DistinctIds(q) && |q| == capacity + 1 && |list0.data| == capacity
      ensures |list.data| == capacity && list.size <= capacity && Distinct(list.data[..list.size])
      ensures (capacity > 0 ==> list.size > 0) && forall v | v in list.data[..list.size] :: v in Ids(q)
      ensures PrunedTo(dist, vectors[..], q, order, capacity, list) && Overwritten(list0, list)
    {
      hide Pruned, Distinct;
      var kept;
      kept, order := GetNeighborsByHeuristic2(dist, vectors, q, capacity);
      PrunedSize(dist, vectors[..], q, order, capacity);
      KeptDistinct(kept, q);
      var data, indx := Refill(kept, list0.data);
      list := LinkList(indx, data);
    }

    /** A full list is rebuilt from what the heuristic keeps of its ids and cur. */
    method PrunedList(cur: nat, other: nat, level: nat, list0: LinkList, ghost lv: seq<nat>) returns (list: LinkList)
      requires Shape() && cur < count && other < count && cur != other
      requires lv == Levels() && level <= lv[other] && level <= lv[cur]
      requires GoodList(list0, Capacity(m, level), other, level, lv) && cur !in list0.data[..list0.size]
      requires list0.size == Capacity(m, level)
      ensures GoodList(list, Capacity(m, level), other, level, lv)
      ensures list0.size > 0 ==> list.size > 0
      ensures BackLinked(dist, vectors[..], cur, other, Capacity(m, level), list0, list)
    {
      var capacity := Capacity(m, level);
      assert forall j | 0 <= j < list0.size :: list0.data[..list0.size][j] == list0.data[j];
      var q := Candidates(cur, other, list0);
      hide Pruned, PrunedTo, CandidatesOf, GoodList;
      ghost var order;
      list, order := KeepPruned(q, list0, capacity);
      PrunedIsGood(list, q, list0, capacity, cur, other, level, lv, count);
      hide CandidateQueue, Distinct, BackLinked;
      FullListAnswers(dist, vectors[..], cur, other, capacity, list0, list, order);
    }

    /** The list of node other after cur asked to be linked: appended while there is room, pruned otherwise. */
    method LinkedList(cur: nat, other: nat, level: nat) returns (status: Status, list: LinkList)
      requires Good() && cur < count && other < count && cur != other
      requires level <= levels[other] && level <= levels[cur] && cur !in ListAt(links[other], level)
      ensures status == Ok && level < |links[other]|
      ensures GoodList(list, Capacity(m, level), other, level, Levels())
      ensures links[other][level].size > 0 ==> list.size > 0
      ensures BackLinked(dist, vectors[..], cur, other, Capacity(m, level), links[other][level], list)
    {
      ListOf(AllLinks(), Levels(), m, level, other);
      hide GoodGraph;
      list := links[other][level];
      var capacity := Capacity(m, level);
      if list.size > capacity {
        return BadListSize, list;
      }
      if other == cur {
        return SelfLink, list;
      }
      if level > levels[other] {
        return NoSuchLevel, list;
      }
      status := Ok;
      if list.size < capacity {
        AppendKeepsGood(list, capacity, other, level, Levels(), cur);
        list := LinkList(list.size + 1, list.data[list.size := cur]);
      } else {
        list := PrunedList(cur, other, level, list, Levels());
      }
    }

    /** Body of the second loop of mutuallyConnectNewElement. */
    method ConnectBack(cur: nat, other: nat, level: nat) returns (status: Status)
      requires Good() && cur < count && other < count && cur != other
      requires level <= levels[other] && level <= levels[cur] && cur !in ListAt(links[other], level)
      modifies links
      ensures status == Ok && Good() && Linked(old(AllLinks()), AllLinks(), cur, level)
      ensures forall u | 0 <= u < links.Length && u != other :: links[u] == old(links[u])
      ensures level < |old(links[other])| && level < |links[other]|
      ensures BackLinked(dist, vectors[..], cur, other, Capacity(m, level), old(links[other])[level], links[other][level])
    {
      hide GoodGraph, GoodList, BackLinked;
      var list;
      status, list := LinkedList(cur, other, level);
      ListReplaced(AllLinks(), Levels(), m, other, level, list);
      ghost var before := AllLinks();
      links[other] := links[other][level := list];
      assert AllLinks() == before[other := before[other][level := list]];
    }

    /** First loop of mutuallyConnectNewElement: the blank list of the new element receives its neighbours. */
    method OwnList(cur: nat, selected: seq<nat>, blank: LinkList, level: nat) returns (status: Status, list: LinkList)
      requires Shape() && cur < count && |selected| <= Capacity(m, level)
      requires blank == LinkList(0, seq(Capacity(m, level), _ => 0))
      requires Distinct(selected)
      requires forall i | 0 <= i < |selected| :: selected[i] < count && selected[i] != cur && level <= levels[selected[i]]
      ensures status == Ok && Overwritten(blank, list) && list.size == |selected| && list.data[..list.size] == selected
      ensures GoodList(list, Capacity(m, level), cur, level, Levels())
    {
      if blank.size != 0 {
        return NotBlank, blank;
      }
      var data := blank.data;
      for idx := 0 to |selected|
        invariant |data| == Capacity(m, level)
        invariant forall j | 0 <= j < idx :: data[j] == selected[j]
        invariant forall j | idx <= j < |data| :: data[j] == 0
      {
        if data[idx] != 0 {
          return MemoryCorruption, blank;
        }
        if level > levels[selected[idx]] {
          return NoSuchLevel, blank;
        }
        data := data[idx := selected[idx]];
      }
      assert data[..|selected|] == selected;
      return Ok, LinkList(|selected|, data);
    }

    /** The new element's own list is written. */
    method ConnectOwn(cur: nat, selected: seq<nat>, level: nat) returns (status: Status)
      requires Good() && cur < count && level <= levels[cur] && |selected| <= m && Distinct(selected)
      requires links[cur][level] == LinkList(0, seq(Capacity(m, level), _ => 0))
      requires forall i | 0 <= i < |selected| :: selected[i] < count && selected[i] != cur && level <= levels[selected[i]]
      modifies links
      ensures status == Ok && Good() && Linked(old(AllLinks()), AllLinks(), cur, level)
      ensures level < |links[cur]| && ListAt(links[cur], level) == selected && Overwritten(old(links[cur])[level], links[cur][level])
      ensures forall u | 0 <= u < links.Length && u != cur :: links[u] == old(links[u])
    {
      ListOf(AllLinks(), Levels(), m, level, cur);
      hide GoodGraph, GoodList, Linked;
      var own;
      status, own := OwnList(cur, selected, links[cur][level], level);
      ghost var before := AllLinks();
      ListReplaced(before, Levels(), m, cur, level, own);
      OwnListLinks(before, cur, level, own);
      links[cur] := links[cur][level := own];
      assert AllLinks() == before[cur := before[cur][level := own]];
    }

    /** Second loop of mutuallyConnectNewElement. */
    method ConnectBackAll(cur: nat, selected: seq<nat>, level: nat) returns (status: Status)
      requires Good() && cur < count && level <= levels[cur] && Distinct(selected)
      requires forall i | 0 <= i < |selected| ::
                 selected[i] < count && selected[i] != cur && level <= levels[selected[i]] && cur !in ListAt(links[selected[i]], level)
      modifies links
      ensures status == Ok && Good() && Linked(old(AllLinks()), AllLinks(), cur, level)
      ensures Answered(dist, vectors[..], m, cur, level, old(AllLinks()), AllLinks(), ToSet(selected))
      ensures links[cur] == old(links[cur])
    {
      hide GoodGraph, GoodList, Linked, BackLinked;
      ghost var before := AllLinks();
      LinkedToItself(before, cur, level);
      assert Answered(dist, vectors[..], m, cur, level, before, before, ToSet(selected[..0]));
      hide Answered;
      for idx := 0 to |selected|
        invariant Good() && Linked(before, AllLinks(), cur, level) && links[cur] == before[cur]
        invariant Answered(dist, vectors[..], m, cur, level, before, AllLinks(), ToSet(selected[..idx]))
      {
        var other := selected[idx];
        ghost var a := AllLinks();
        NotAskedYet(dist, vectors[..], m, cur, level, before, a, selected, idx);
        status := ConnectBack(cur, other, level);
        LinkedIsTransitive(before, a, AllLinks(), cur, level);
        NeighborAnswered(dist, vectors[..], m, cur, level, before, a, AllLinks(), selected, idx);
      }
      assert selected[..|selected|] == selected;
      status := Ok;
    }

    /** mutuallyConnectNewElement */
    method MutuallyConnectNewElement(cur: nat, top: Queue, level: nat)
      returns (status: Status, ghost chosen: Queue, ghost order: seq<Pair>)
      requires Good() && cur < count && level <= levels[cur]
      requires links[cur][level] == LinkList(0, seq(Capacity(m, level), _ => 0))
      requires DistinctIds(top) && InRange(top, count)
      requires forall p | p in top :: p.second != cur && level <= levels[p.second]
      requires Unseen(AllLinks(), cur, level)
      modifies links
      ensures status == Ok && Good() && Linked(old(AllLinks()), AllLinks(), cur, level)
      ensures InRange(top, vectors.Length) && ChosenFrom(dist, vectors[..], top, chosen, order, m)
      ensures level < |links[cur]| && Overwritten(old(links[cur])[level], links[cur][level])
      ensures FarthestFirst(ListAt(links[cur], level), chosen) && Distinct(ListAt(links[cur], level))
      ensures forall v :: v in ListAt(links[cur], level) <==> v in Ids(chosen)
      ensures Answered(dist, vectors[..], m, cur, level, old(AllLinks()), AllLinks(), Ids(chosen))
    {
      ListOf(AllLinks(), Levels(), m, level, cur);
      hide GoodGraph, Pruned, GoodList, Linked, BackLinked;
      assert InRange(top, vectors.Length);
      var kept;
      kept, order := GetNeighborsByHeuristic2(dist, vectors, top, m);
      chosen := kept;
      KeptDistinct(kept, top);
      ChosenAtMost(dist, vectors[..], top, kept, order, m);
      if |kept| > m {
        return TooManyCandidates, chosen, order;
      }
      var selected := DrainIds(kept);
      DrainedAll(kept, selected);
      ghost var before := AllLinks();
      status := ConnectOwn(cur, selected, level);
      ghost var a := AllLinks();
      hide Distinct, Capacity, Answered;
      forall i | 0 <= i < |selected|
        ensures cur !in ListAt(links[selected[i]], level)
      {
        assert selected[i] in Ids(kept) && cur !in ListAt(before[selected[i]], level);
      }
      status := ConnectBackAll(cur, selected, level);
      LinkedIsTransitive(before, a, AllLinks(), cur, level);
      assert ToSet(selected) == Ids(kept);
      AnsweredAfterOwn(dist, vectors[..], m, cur, level, before, a, AllLinks(), Ids(kept));
    }

    // -------------------------------------------------------------- insertion

    /** The entry point is an element of the highest level there is. */
    ghost predicate EntryOk()
      requires Shape()
      reads `count, `enterpoint, `maxlevel, levels
    {
      if count == 0 then enterpoint == -1 && maxlevel == -1
      else
        && 0 <= enterpoint < count && levels[enterpoint] == maxlevel
        && forall c | 0 <= c < count :: levels[c] <= maxlevel
    }

    /** Every label leads to the last element added under it. */
    ghost predicate LookupOk()
      requires Shape()
      reads `count, `labelLookup, labels
    {
      && (forall c | 0 <= c < count :: labels[c] in labelLookup && c <= labelLookup[labels[c]])
      && (forall l | l in labelLookup :: labelLookup[l] < count && labels[labelLookup[l]] == l)
    }

    /** The vectors under their labels. */
    ghost function Items(): map<nat, Vector>
      requires Shape()
      reads `count, `labelLookup, vectors
    {
      ItemsOf(labelLookup, Vectors())
    }

    ghost predicate Valid()
      reads this, levels, links, labels
    {
      Good() && EntryOk() && LookupOk() && NobodyAlone(AllLinks(), m)
    }

    constructor (dist: (Vector, Vector) -> real, maxElements: nat, m: nat, efConstruction: nat)
      ensures Valid() && count == 0 && labelLookup == map[]
      ensures fresh(vectors) && fresh(labels) && fresh(levels) && fresh(links)
      ensures this.dist == dist && this.m == m && this.maxElements == maxElements
      ensures this.efConstruction == (if efConstruction >= m then efConstruction else m) && ef == 10
      ensures enterpoint == -1 && maxlevel == -1
    {
      this.dist, this.maxElements, this.m := dist, maxElements, m;
      this.efConstruction := if efConstruction >= m then efConstruction else m;
      this.ef := 10;
      this.count, this.labelLookup, this.enterpoint, this.maxlevel := 0, map[], -1, -1;
      this.vectors := new Vector[maxElements];
      this.labels := new nat[maxElements];
      this.levels := new nat[maxElements];
      this.links := new seq<LinkList>[maxElements];
    }

    /** First part of addPoint: the element gets its id, its level, blank lists, its label and its vector. */
    method StoreElement(point: Vector, name: nat, curlevel: nat) returns (cur: nat)
      requires Valid() && count < maxElements
      modifies this`count, this`labelLookup, vectors, labels, levels, links
      ensures cur == old(count) && count == old(count) + 1 && labelLookup == old(labelLookup)[name := cur]
      ensures Good() && LookupOk()
      ensures Vectors() == old(Vectors()) + [point] && Levels() == old(Levels()) + [curlevel]
      ensures labels[..count] == old(labels[..count]) + [name]
      ensures AllLinks() == old(AllLinks()) + [BlankLists(m, curlevel)]
      ensures Items() == old(Items())[name := point]
      ensures Unseen(AllLinks(), cur, curlevel)
    {
      hide GoodGraph, Unseen, ItemsOf;
      cur := count;
      NodeAdded(AllLinks(), Levels(), m, curlevel);
      ItemStored(labelLookup, Vectors(), name, point);
      labelLookup := labelLookup[name := cur];
      count := count + 1;
      levels[cur] := curlevel;
      labels[cur] := name;
      vectors[cur] := point;
      links[cur] := BlankLists(m, curlevel);
      assert Levels() == old(Levels()) + [curlevel];
      assert Vectors() == old(Vectors()) + [point];
      assert AllLinks() == old(AllLinks()) + [BlankLists(m, curlevel)];
    }

    /** The search for the neighbours of cur on one level. */
    method SearchCandidates(cur: nat, point: Vector, obj: nat, level: nat) returns (top: Queue, ghost visited: set<nat>, ghost expanded: set<nat>)
      requires Good() && cur < count && obj < count && obj != cur && level <= levels[obj] && Unseen(AllLinks(), cur, level)
      ensures Delivered(QueryAt(point, obj, level, efConstruction), top, visited, expanded)
      ensures DistinctIds(top) && InRange(top, count) && forall p | p in top :: p.second != cur && level <= levels[p.second]
    {
      hide GoodGraph, Unseen, Delivered, LayerOf, DistancesTo;
      top, visited, expanded := SearchLayer(point, obj, level, efConstruction);
      DeliveredNodes(AllLinks(), Levels(), m, level, QueryAt(point, obj, level, efConstruction), top, visited, expanded, cur);
    }

    /** One level of addPoint: search, then link. */
    method ConnectLevel(cur: nat, point: Vector, obj: nat, level: nat) returns (status: Status, ghost work: LevelWork)
      requires Good() && cur < count && vectors[cur] == point && obj < count && obj != cur && level <= levels[obj] && level <= levels[cur]
      requires Unseen(AllLinks(), cur, level) && BlankUpTo(links[cur], m, level)
      modifies links
      ensures status == Ok && Good() && Linked(old(AllLinks()), AllLinks(), cur, level)
      ensures Unseen(AllLinks(), cur, level - 1) && BlankUpTo(links[cur], m, level - 1)
      ensures LevelStep(dist, vectors[..], m, efConstruction, cur, obj, level, old(AllLinks()), AllLinks(), work)
    {
      hide GoodGraph, Unseen, Delivered, Linked, LayerOf, DistancesTo, BackLinked, ChosenFrom, Pruned, BlankUpTo, Answered, Overwritten;
      ghost var before := AllLinks();
      assert links[cur][level] == LinkList(0, seq(Capacity(m, level), _ => 0)) by {
        ListOf(before, Levels(), m, level, cur);
        BlankAt(links[cur], m, level);
      }
      var top, visited, expanded := SearchCandidates(cur, point, obj, level);
      ghost var chosen, order;
      status, chosen, order := MutuallyConnectNewElement(cur, top, level);
      work := LevelWork(Found(top, visited, expanded), chosen, order);
      assert vectors[..][..count] == Vectors();
      LevelStepMade(dist, vectors[..], m, efConstruction, cur, obj, level, before, AllLinks(), work);
      UnseenBelow(before, AllLinks(), cur, level);
      StillBlank(before, AllLinks(), m, cur, level);
    }

    /** The levels of addPoint below and at the smaller of the two maximum levels. */
    method ConnectLevels(cur: nat, point: Vector, curlevel: nat, obj: nat, maxlevelcopy: nat) returns (status: Status, ghost trace: Trace)
      requires Good() && cur < count && obj < count && obj != cur && vectors[cur] == point && levels[cur] == curlevel
      requires Smaller(curlevel, maxlevelcopy) <= levels[obj]
      requires Unseen(AllLinks(), cur, curlevel) && links[cur] == BlankLists(m, curlevel)
      modifies links
      ensures status == Ok && Good() && NoneEmptied(old(AllLinks()), AllLinks())
      ensures Insertion(dist, vectors[..], m, efConstruction, cur, obj, Smaller(curlevel, maxlevelcopy), old(AllLinks()), AllLinks(), trace)
    {
      hide GoodGraph, Unseen, Linked, NoneEmptied, LevelStep, LevelSteps;
      ghost var before := AllLinks();
      NothingEmptied(before);
      status := Ok;
      trace := Trace([before], []);
      NoSteps(dist, vectors[..], m, efConstruction, cur, obj, Smaller(curlevel, maxlevelcopy), before);
      var level: int := Smaller(curlevel, maxlevelcopy);
      UnseenLess(AllLinks(), cur, curlevel, level);
      while level >= 0
        invariant status == Ok && -1 <= level <= Smaller(curlevel, maxlevelcopy)
        invariant Good() && Unseen(AllLinks(), cur, level) && BlankUpTo(links[cur], m, level)
        invariant NoneEmptied(before, AllLinks())
        invariant |trace.works| == Smaller(curlevel, maxlevelcopy) - level && |trace.steps| == |trace.works| + 1
        invariant trace.steps[0] == before && trace.steps[|trace.works|] == AllLinks()
        invariant LevelSteps(dist, vectors[..], m, efConstruction, cur, obj, Smaller(curlevel, maxlevelcopy), trace)
      {
        if level > maxlevelcopy || level < 0 {
          return LevelError, trace;
        }
        ghost var a, work := AllLinks(), Unworked();
        status, work := ConnectLevel(cur, point, obj, level);
        LevelStepLinked(dist, vectors[..], m, efConstruction, cur, obj, level, a, AllLinks(), work);
        LinkedEmptiesNone(before, a, AllLinks(), cur, level);
        LevelStepsGrow(dist, vectors[..], m, efConstruction, cur, obj, Smaller(curlevel, maxlevelcopy), trace, AllLinks(), work);
        trace := Trace(trace.steps + [AllLinks()], trace.works + [work]);
        level := level - 1;
      }
    }

    /** The middle part of addPoint, when there is an entry point already. */
    method ConnectElement(cur: nat, point: Vector, curlevel: nat) returns (status: Status, ghost obj: nat, ghost trace: Trace)
      requires Good() && cur == count - 1 && levels[cur] == curlevel && vectors[cur] == point
      requires 0 <= enterpoint < cur && levels[enterpoint] == maxlevel
      requires Unseen(AllLinks(), cur, curlevel) && links[cur] == BlankLists(m, curlevel)
      modifies links
      ensures status == Ok && Good() && NoneEmptied(old(AllLinks()), AllLinks())
      ensures obj < cur
      ensures Descends(old(AllLinks()), DistancesTo(dist, point, Vectors()), maxlevel, curlevel, enterpoint, obj)
      ensures Insertion(dist, vectors[..], m, efConstruction, cur, obj, Smaller(curlevel, maxlevel), old(AllLinks()), AllLinks(), trace)
    {
      hide GoodGraph, Unseen, Linked, NoneEmptied, Insertion, Descends;
      var maxlevelcopy := maxlevel;
      var start: nat := enterpoint;
      if curlevel < maxlevelcopy {
        status, start := Descend(point, start, maxlevelcopy, curlevel);
      } else {
        NoDescent(AllLinks(), DistancesTo(dist, point, Vectors()), maxlevelcopy, curlevel, start);
      }
      obj := start;
      status, trace := ConnectLevels(cur, point, curlevel, start, maxlevelcopy);
    }

    /** Second part of addPoint: linking, and the new entry point if the element is the highest. */
    method EnterGraph(cur: nat, point: Vector, curlevel: nat) returns (status: Status, ghost obj: nat, ghost trace: Trace)
      requires Good() && cur == count - 1 && levels[cur] == curlevel && vectors[cur] == point
      requires if cur == 0 then enterpoint == -1 && maxlevel == -1
               else 0 <= enterpoint < cur && levels[enterpoint] == maxlevel && forall c | 0 <= c < cur :: levels[c] <= maxlevel
      requires Unseen(AllLinks(), cur, curlevel) && links[cur] == BlankLists(m, curlevel)
      requires NobodyAlone(AllLinks()[..cur], m)
      modifies links, `enterpoint, `maxlevel
      ensures status == Ok && Good() && EntryOk() && NobodyAlone(AllLinks(), m) && NoneEmptied(old(AllLinks()), AllLinks())
      ensures cur == 0 ==> AllLinks() == old(AllLinks())
      ensures cur > 0 ==>
                && Descends(old(AllLinks()), DistancesTo(dist, point, Vectors()), old(maxlevel), curlevel, old(enterpoint), obj)
                && Insertion(dist, vectors[..], m, efConstruction, cur, obj, Smaller(curlevel, old(maxlevel)), old(AllLinks()), AllLinks(), trace)
      ensures enterpoint == (if curlevel > old(maxlevel) then cur else old(enterpoint))
      ensures maxlevel == (if curlevel > old(maxlevel) then curlevel else old(maxlevel))
    {
      hide GoodGraph, Unseen, NoneEmptied, Insertion, Descends;
      status := Ok;
      obj, trace := 0, Trace([], []);
      ghost var before := AllLinks();
      var maxlevelcopy := maxlevel;
      if enterpoint != -1 {
        status, obj, trace := ConnectElement(cur, point, curlevel);
        NobodyLeftAlone(dist, vectors[..], m, efConstruction, cur, obj, Smaller(curlevel, maxlevelcopy), before, AllLinks(), Levels(), trace);
      } else {
        NothingEmptied(AllLinks());
        enterpoint := 0;
        maxlevel := curlevel;
      }
      if curlevel > maxlevelcopy {
        enterpoint := cur;
        maxlevel := curlevel;
      }
    }

    /** addPoint: level is the level asked for, randomLevel the one drawn. */
    method AddPoint(point: Vector, name: nat, level: int, randomLevel: nat)
      returns (status: Status, cur: nat, ghost obj: nat, ghost trace: Trace)
      requires Valid()
      modifies this, vectors, labels, levels, links
      ensures Valid() && ef == old(ef)
      ensures status == if old(count) >= maxElements then Full else Ok
      ensures status == Full ==> unchanged(this) && unchanged(vectors) && unchanged(labels) && unchanged(levels) && unchanged(links)
      ensures status == Ok ==>
                && cur == old(count) && count == old(count) + 1 && labelLookup == old(labelLookup)[name := cur]
                && Vectors() == old(Vectors()) + [point]
                && Levels() == old(Levels()) + [if level > 0 then level else randomLevel]
                && Items() == old(Items())[name := point]
                && labels[..count] == old(labels[..count]) + [name]
                && NoneEmptied(old(AllLinks()), AllLinks())
      ensures status == Ok ==>
                var curlevel: nat := if level > 0 then level else randomLevel;
                && enterpoint == (if curlevel > old(maxlevel) then cur else old(enterpoint))
                && maxlevel == (if curlevel > old(maxlevel) then curlevel else old(maxlevel))
                && (cur == 0 ==> AllLinks() == [BlankLists(m, curlevel)])
      ensures status == Ok && old(count) > 0 ==>
                var curlevel: nat := if level > 0 then level else randomLevel;
                old(maxlevel) >= 0 && old(enterpoint) >= 0 &&
                Descends(old(AllLinks()) + [BlankLists(m, curlevel)], DistancesTo(dist, point, Vectors()), old(maxlevel), curlevel, old(enterpoint), obj) &&
                Insertion(dist, vectors[..], m, efConstruction, cur, obj, Smaller(curlevel, old(maxlevel)),
                          old(AllLinks()) + [BlankLists(m, curlevel)], AllLinks(), trace)
    {
      hide GoodGraph, Unseen, NoneEmptied, Insertion, HierarchicalNSW.LookupOk, HierarchicalNSW.EntryOk, NobodyAlone, ItemsOf, Descends;
      obj, trace := 0, Trace([], []);
      if count >= maxElements {
        return Full, 0, obj, trace;
      }
      status, cur, obj, trace := AddElement(point, name, if level > 0 then level else randomLevel);
    }

    /** addPoint where there is room. */
    method AddElement(point: Vector, name: nat, curlevel: nat) returns (status: Status, cur: nat, ghost obj: nat, ghost trace: Trace)
      requires Valid() && count < maxElements
      modifies this, vectors, labels, levels, links
      ensures Valid() && ef == old(ef) && status == Ok
      ensures cur == old(count) && count == old(count) + 1 && labelLookup == old(labelLookup)[name := cur]
      ensures Vectors() == old(Vectors()) + [point] && Levels() == old(Levels()) + [curlevel]
      ensures Items() == old(Items())[name := point] && labels[..count] == old(labels[..count]) + [name]
      ensures NoneEmptied(old(AllLinks()), AllLinks())
      ensures enterpoint == (if curlevel > old(maxlevel) then cur else old(enterpoint))
      ensures maxlevel == (if curlevel > old(maxlevel) then curlevel else old(maxlevel))
      ensures cur == 0 ==> AllLinks() == [BlankLists(m, curlevel)]
      ensures cur > 0 ==>
                old(maxlevel) >= 0 && old(enterpoint) >= 0 &&
                Descends(old(AllLinks()) + [BlankLists(m, curlevel)], DistancesTo(dist, point, Vectors()), old(maxlevel), curlevel, old(enterpoint), obj) &&
                Insertion(dist, vectors[..], m, efConstruction, cur, obj, Smaller(curlevel, old(maxlevel)),
                          old(AllLinks()) + [BlankLists(m, curlevel)], AllLinks(), trace)
    {
      hide GoodGraph, Unseen, NoneEmptied, Insertion, HierarchicalNSW.LookupOk, NobodyAlone, ItemsOf, Descends;
      ghost var before, lv := AllLinks(), Levels();
      cur := StoreElement(point, name, curlevel);
      assert forall c | 0 <= c < cur :: levels[c] == Levels()[c] == lv[c];
      ghost var blank := AllLinks();
      assert blank[..cur] == before;
      assert vectors[cur] == Vectors()[cur] == point;
      status, obj, trace := EnterGraph(cur, point, curlevel);
      StoredEmptiesNone(before, blank, AllLinks());
    }

    /** getItem: the vector most recently added under the label. */
    method GetItem(name: nat) returns (item: Option<Vector>)
      requires Valid()
      ensures item == if name in Items() then Some(Items()[name]) else None
    {
      if name in labelLookup {
        item := Some(vectors[labelLookup[name]]);
      } else {
        item := None;
      }
    }

    /** Any sequence of insertions keeps the graph valid; they all succeed until the index is full. */
    method AddPoints(points: seq<(Vector, nat, int, nat)>) returns (added: nat)
      requires Valid()
      modifies this, vectors, labels, levels, links
      ensures Valid() && added <= |points| && count == old(count) + added
      ensures added < |points| ==> count == maxElements
      ensures Items() == ItemsAfter(old(Items()), points[..added])
      ensures Recorded(Vectors(), Levels(), labels[..count], old(count), points[..added])
    {
      hide GoodGraph, NoneEmptied, HierarchicalNSW.LookupOk, HierarchicalNSW.EntryOk, Insertion, NobodyAlone, ItemsOf, Descends;
      added := 0;
      ghost var items0 := Items();
      assert Items() == ItemsAfter(items0, points[..0]);
      assert Recorded(Vectors(), Levels(), labels[..count], old(count), points[..0]);
      hide ItemsAfter, Recorded;
      while added < |points|
        invariant Valid() && added <= |points| && count == old(count) + added
        invariant Items() == ItemsAfter(items0, points[..added])
        invariant Recorded(Vectors(), Levels(), labels[..count], old(count), points[..added])
      {
        var p := points[added];
        ghost var vs, lvs, names := Vectors(), Levels(), labels[..count];
        ghost var obj, trace;
        var status, cur;
        status, cur, obj, trace := AddPoint(p.0, p.1, p.2, p.3);
        if status == Full {
          return;
        }
        OneMoreItem(items0, points, added);
        RecordedNext(vs, lvs, names, old(count), points, added);
        added := added + 1;
      }
    }

    // -------------------------------------------------------------- querying

    /** A search enters the base layer where the greedy descent from the entry point ends, down from the
        highest level. */
    ghost predicate Entered(query: Vector, start: nat)
      requires Shape()
      reads `count, `enterpoint, `maxlevel, vectors, links
    {
      enterpoint >= 0 && Descends(AllLinks(), DistancesTo(dist, query, Vectors()), maxlevel, 0, enterpoint, start)
    }

    /** That node is no farther than the entry point, and if there are higher levels, none of its neighbours on
        level 1 is nearer. */
    lemma EntryIsNear(query: Vector, start: nat)
      requires Shape() && Entered(query, start) && enterpoint < count
      ensures start < count && dist(query, vectors[start]) <= dist(query, vectors[enterpoint])
      ensures maxlevel > 0 ==> forall v | v in ListAt(links[start], 1) :: v < count && dist(query, vectors[start]) <= dist(query, vectors[v])
    {
      var ds := DistancesTo(dist, query, Vectors());
      var paths :| IsDescent(AllLinks(), ds, maxlevel, 0, enterpoint, paths, start);
      DescentEnds(AllLinks(), ds, maxlevel, 0, enterpoint, paths, start);
    }

    /** searchKnn: descend to level 1, search level 0, keep the k nearest under their labels. */
    method SearchKnn(query: Vector, k: nat) returns (status: Status, results: Bag, ghost start: nat, ghost found: Found, ghost order: seq<Pair>)
      requires Valid() && count > 0
      ensures status == Ok && start < count
      ensures Entered(query, start)
      ensures forall i | 0 <= i < |order| :: order[i].second < count
      ensures results == multiset(Relabelled(order, labels[..count]))
      ensures KNearest(found.top, order, k)
      ensures Delivered(QueryAt(query, start, 0, if ef >= k then ef else k), found.top, found.visited, found.expanded)
    {
      hide GoodGraph, Delivered, LayerOf, DistancesTo, KNearest, Relabelled, Descends;
      var obj;
      status, obj := Descend(query, enterpoint, maxlevel, 0);
      start := obj;
      var top, visited, expanded := SearchLayer(query, obj, 0, if ef >= k then ef else k);
      found := Found(top, visited, expanded);
      DeliveredInRange(QueryAt(query, obj, 0, if ef >= k then ef else k), top, visited, expanded);
      var pairs := NearestInOrder(top, k);
      order := pairs;
      results := PushLabels(pairs);
    }

    /** Last loop of searchKnn: the pairs go into the result queue under their labels. */
    method PushLabels(pairs: seq<Pair>) returns (results: Bag)
      requires Shape() && forall i | 0 <= i < |pairs| :: pairs[i].second < count
      ensures results == multiset(Relabelled(pairs, labels[..count]))
    {
      results := multiset{};
      ghost var all := Relabelled(pairs, labels[..count]);
      assert all[..0] == [];
      for i := 0 to |pairs|
        invariant results == multiset(all[..i])
      {
        assert all[..i + 1] == all[..i] + [all[i]];
        results := results + multiset{Pair(pairs[i].first, labels[pairs[i].second])};
      }
      assert all[..|all|] == all;
    }
  }
}
