/** getNeighborsByHeuristic2: pruning a set of candidates to at most m well-spread neighbours. */
module NeighborHeuristic {
  import opened Queues
  import opened HnswGraph

  /** Candidate r is closer to some already chosen element than to the query. */
  ghost predicate Shadowed(dist: (Vector, Vector) -> real, vs: seq<Vector>, order: seq<Pair>, r: Pair)
    requires r.second < |vs| && forall i | 0 <= i < |order| :: order[i].second < |vs|
  {
    exists i :: 0 <= i < |order| && order[i].first <= r.first && dist(vs[order[i].second], vs[r.second]) < r.first
  }

  ghost predicate InRange(q: Queue, n: nat) {
    forall p | p in q :: p.second < n
  }

  /** The chosen elements, in order of choice: nearest first, each at least as far from every earlier one
      as from the query. */
  ghost predicate WellSpread(dist: (Vector, Vector) -> real, vs: seq<Vector>, order: seq<Pair>) {
    && (forall i | 0 <= i < |order| :: order[i].second < |vs|)
    && (forall i, j | 0 <= i < j < |order| ::
          order[i] != order[j] && order[i].first <= order[j].first &&
          dist(vs[order[i].second], vs[order[j].second]) >= order[j].first)
  }

  /** The ids a queue holds; it holds each only once. */
  ghost function Ids(q: Queue): set<nat> {
    set p | p in q :: p.second
  }

  /** ids are in the order in which a queue hands them out: the farthest first. */
  ghost predicate FarthestFirst(ids: seq<nat>, q: Queue) {
    forall i, j, p, r | 0 <= i < j < |ids| && p in q && r in q && p.second == ids[i] && r.second == ids[j] :: r.first <= p.first
  }

  ghost predicate DistinctIds(q: Queue) {
    forall p, r | p in q && r in q && p.second == r.second :: p == r
  }

  ghost function Elements(order: seq<Pair>): Queue {
    set p | p in order
  }

  /** What the pruning promises for at least m candidates. */
  ghost predicate Pruned(dist: (Vector, Vector) -> real, vs: seq<Vector>, q: Queue, order: seq<Pair>, m: nat)
    requires InRange(q, |vs|)
  {
    && Elements(order) <= q && |order| <= m
    && WellSpread(dist, vs, order)
    && (m > 0 && q != {} ==> |order| > 0 && forall r | r in q :: order[0].first <= r.first)
    && (forall r | r in q && r !in order ::
          Shadowed(dist, vs, order, r) || (|order| == m && forall i | 0 <= i < |order| :: order[i].first <= r.first))
  }

  /** What getNeighborsByHeuristic2 keeps of a queue: all of it if it holds fewer than m. */
  ghost predicate ChosenFrom(dist: (Vector, Vector) -> real, vs: seq<Vector>, top: Queue, chosen: Queue, order: seq<Pair>, m: nat)
    requires InRange(top, |vs|)
  {
    && chosen <= top
    && (|top| < m ==> chosen == top)
    && (|top| >= m ==> Pruned(dist, vs, top, order, m) && chosen == Elements(order))
  }

  /** At most m are kept, so the caller's check for too many candidates never fails. */
  lemma ChosenAtMost(dist: (Vector, Vector) -> real, vs: seq<Vector>, top: Queue, chosen: Queue, order: seq<Pair>, m: nat)
    requires InRange(top, |vs|) && ChosenFrom(dist, vs, top, chosen, order, m)
    ensures chosen <= top && |chosen| <= m
  {
    if |top| >= m {
      ElementsCount(order);
    }
  }

  lemma {:induction false} ElementsCount(order: seq<Pair>)
    ensures |Elements(order)| <= |order|
  {
    if order == [] {
      assert Elements(order) == {};
    } else {
      var shorter, last := order[..|order| - 1], order[|order| - 1];
      ElementsCount(shorter);
      ElementsGrow(shorter, last);
      assert order == shorter + [last];
    }
  }

  /** The loop invariant: rest is what has not been looked at. */
  ghost predicate Pruning(dist: (Vector, Vector) -> real, vs: seq<Vector>, q: Queue, rest: Queue, order: seq<Pair>, m: nat)
    requires InRange(q, |vs|)
  {
    && rest <= q
    && Elements(order) <= q && |order| <= m
    && WellSpread(dist, vs, order)
    && (forall r, i | r in rest && 0 <= i < |order| :: order[i].first <= r.first && order[i] != r)
    && (m > 0 && rest != q ==> |order| > 0)
    && (|order| > 0 ==> forall r | r in q :: order[0].first <= r.first)
    && (forall r | r in q && r !in order && r !in rest :: Shadowed(dist, vs, order, r))
  }

  lemma PruningStarts(dist: (Vector, Vector) -> real, vs: seq<Vector>, q: Queue, m: nat)
    requires InRange(q, |vs|)
    ensures Pruning(dist, vs, q, q, [], m)
  {
  }

  lemma ShadowStays(dist: (Vector, Vector) -> real, vs: seq<Vector>, order: seq<Pair>, e: Pair, r: Pair)
    requires r.second < |vs| && e.second < |vs| && forall i | 0 <= i < |order| :: order[i].second < |vs|
    requires Shadowed(dist, vs, order, r)
    ensures Shadowed(dist, vs, order + [e], r)
  {
    var i :| 0 <= i < |order| && order[i].first <= r.first && dist(vs[order[i].second], vs[r.second]) < r.first;
    assert (order + [e])[i] == order[i];
  }

  lemma SpreadGrows(dist: (Vector, Vector) -> real, vs: seq<Vector>, order: seq<Pair>, e: Pair)
    requires WellSpread(dist, vs, order) && e.second < |vs|
    requires forall i | 0 <= i < |order| :: order[i].first <= e.first && order[i] != e
    requires forall i | 0 <= i < |order| :: dist(vs[order[i].second], vs[e.second]) >= e.first
    ensures WellSpread(dist, vs, order + [e])
  {
  }

  lemma ElementsGrow(order: seq<Pair>, e: Pair)
    ensures Elements(order + [e]) == Elements(order) + {e}
  {
    assert forall p :: p in order + [e] <==> p in order || p == e;
  }

  lemma PruningChooses(dist: (Vector, Vector) -> real, vs: seq<Vector>, q: Queue, rest: Queue, order: seq<Pair>, m: nat, e: Pair)
    requires InRange(q, |vs|) && Pruning(dist, vs, q, rest, order, m) && |order| < m
    requires e in rest && forall r | r in rest :: e.first <= r.first
    requires forall i | 0 <= i < |order| :: dist(vs[order[i].second], vs[e.second]) >= e.first
    ensures Pruning(dist, vs, q, rest - {e}, order + [e], m)
  {
    var longer := order + [e];
    ElementsGrow(order, e);
    SpreadGrows(dist, vs, order, e);
    forall r | r in q && r !in longer && r !in rest - {e}
      ensures Shadowed(dist, vs, longer, r)
    {
      assert r in Elements(longer) <==> r in longer;
      ShadowStays(dist, vs, order, e, r);
    }
    hide WellSpread, Shadowed, Elements;
  }

  lemma PruningRejects(dist: (Vector, Vector) -> real, vs: seq<Vector>, q: Queue, rest: Queue, order: seq<Pair>, m: nat, e: Pair, i: nat)
    requires InRange(q, |vs|) && Pruning(dist, vs, q, rest, order, m)
    requires e in rest && i < |order| && dist(vs[order[i].second], vs[e.second]) < e.first
    ensures Pruning(dist, vs, q, rest - {e}, order, m)
  {
  }

  lemma PruningEnds(dist: (Vector, Vector) -> real, vs: seq<Vector>, q: Queue, rest: Queue, order: seq<Pair>, m: nat)
    requires InRange(q, |vs|) && Pruning(dist, vs, q, rest, order, m)
    requires rest == {} || |order| >= m
    ensures Pruned(dist, vs, q, order, m)
  {
  }

  /** First loop: the queue is emptied into one ordered by nearness. */
  method Nearest(top: Queue) returns (closest: Queue)
    ensures closest == Negated(top)
  {
    var rest := top;
    closest := {};
    while |rest| > 0
      invariant rest <= top && closest == Negated(top - rest)
      decreases |rest|
    {
      var e, less := PopByFirst(rest);
      NegatedMember(top - rest, e);
      NegatedMinus(top - rest, e);
      closest := Emplace(closest, -e.first, e.second);
      assert top - less == (top - rest) + {e};
      rest := less;
    }
    assert top - rest == top;
  }

  /** Inner loop of the second one: is the candidate at least as far from all chosen elements as from the query? */
  method IsGood(dist: (Vector, Vector) -> real, vectors: array<Vector>, chosen: seq<Pair>, c: Pair) returns (good: bool, ghost i: nat)
    requires c.second < vectors.Length && forall j | 0 <= j < |chosen| :: chosen[j].second < vectors.Length
    ensures good ==> forall j | 0 <= j < |chosen| :: dist(vectors[chosen[j].second], vectors[c.second]) >= -c.first
    ensures !good ==> i < |chosen| && dist(vectors[chosen[i].second], vectors[c.second]) < -c.first
  {
    for j := 0 to |chosen|
      invariant forall x | 0 <= x < j :: dist(vectors[chosen[x].second], vectors[c.second]) >= -c.first
    {
      var curdist := dist(vectors[chosen[j].second], vectors[c.second]);
      if curdist < -c.first {
        return false, j;
      }
    }
    return true, 0;
  }

  /** Second loop: nearest first, an element is chosen if no chosen one is closer to it than the query. */
  method Choose(dist: (Vector, Vector) -> real, vectors: array<Vector>, ghost q: Queue, closest0: Queue, m: nat)
    returns (chosen: seq<Pair>, ghost order: seq<Pair>)
    requires InRange(q, vectors.Length) && closest0 == Negated(q)
    ensures Pruned(dist, vectors[..], q, order, m)
    ensures |chosen| == |order| && forall i | 0 <= i < |chosen| :: chosen[i] == Neg(order[i])
    ensures |chosen| <= m
  {
    hide Pruning, Negated, Pruned, Shadowed, WellSpread;
    var closest := closest0;
    ghost var rest := q;
    chosen, order := [], [];
    PruningStarts(dist, vectors[..], q, m);
    while |closest| > 0
      invariant Pruning(dist, vectors[..], q, rest, order, m) && closest == Negated(rest)
      invariant |chosen| == |order| && forall i | 0 <= i < |chosen| :: chosen[i] == Neg(order[i])
      invariant rest <= q && |chosen| <= m && forall i | 0 <= i < |chosen| :: chosen[i].second < vectors.Length
      decreases |closest|
    {
      if |chosen| >= m {
        break;
      }
      var c, less := PopByPair(closest);
      NegatedTop(rest, c);
      ghost var e := Neg(c);
      NegNeg(c);
      NegatedMinus(rest, e);
      var good, i := IsGood(dist, vectors, chosen, c);
      if good {
        PruningChooses(dist, vectors[..], q, rest, order, m, e);
        chosen := chosen + [c];
        order := order + [e];
      } else {
        PruningRejects(dist, vectors[..], q, rest, order, m, e, i);
      }
      rest := rest - {e};
      closest := less;
    }
    if |closest| == 0 && rest != {} {
      var r :| r in rest;
      NegatedMember(rest, r);
    }
    PruningEnds(dist, vectors[..], q, rest, order, m);
  }

  /** getNeighborsByHeuristic2 */
  method GetNeighborsByHeuristic2(dist: (Vector, Vector) -> real, vectors: array<Vector>, top: Queue, m: nat)
    returns (kept: Queue, ghost order: seq<Pair>)
    requires InRange(top, vectors.Length)
    ensures ChosenFrom(dist, vectors[..], top, kept, order, m)
    ensures |top| >= m ==> |kept| == |order|
  {
    if |top| < m {
      return top, [];
    }
    var closest := Nearest(top);
    var chosen;
    chosen, order := Choose(dist, vectors, top, closest, m);
    assert forall i, j | 0 <= i < j < |order| :: order[i] != order[j];
    kept := Collect(chosen, order);
  }

  /** Last loop: the chosen elements go back into the caller's queue. */
  method Collect(chosen: seq<Pair>, ghost order: seq<Pair>) returns (kept: Queue)
    requires |chosen| == |order| && forall i | 0 <= i < |chosen| :: chosen[i] == Neg(order[i])
    requires forall i, j | 0 <= i < j < |order| :: order[i] != order[j]
    ensures kept == Elements(order) && |kept| == |order|
  {
    kept := {};
    assert order[..0] == [];
    assert kept == Elements(order[..0]);
    hide Elements;
    for i := 0 to |chosen|
      invariant kept == Elements(order[..i]) && |kept| == i
    {
      ElementsGrow(order[..i], order[i]);
      NotYet(order, i);
      NegNeg(order[i]);
      assert order[..i + 1] == order[..i] + [order[i]];
      assert Pair(-chosen[i].first, chosen[i].second) == order[i];
      kept := Emplace(kept, -chosen[i].first, chosen[i].second);
    }
    assert order[..|chosen|] == order;
  }

  lemma NotYet(order: seq<Pair>, i: nat)
    requires i < |order| && forall j | 0 <= j < i :: order[j] != order[i]
    ensures order[i] !in Elements(order[..i])
  {
  }
}
