/** std::priority_queue by contract. The searches never hold the same pair twice, so a queue is the set of
    its pairs; which of several farthest pairs comes first is left open. */
module Queues {

  /** std::pair<dist_t, tableint>, or a label in place of the id. */
  datatype Pair = Pair(first: real, second: nat)

  type Queue = set<Pair>

  /** operator< on pairs. */
  predicate Less(a: Pair, b: Pair) {
    a.first < b.first || (a.first == b.first && a.second < b.second)
  }

  function Emplace(q: Queue, first: real, second: nat): (r: Queue)
    requires Pair(first, second) !in q
    ensures r == q + {Pair(first, second)} && |r| == |q| + 1
  {
    q + {Pair(first, second)}
  }

  /** e is on top of a queue ordered by CompareByFirst. */
  ghost predicate TopByFirst(q: Queue, e: Pair) {
    e in q && forall p | p in q :: p.first <= e.first
  }

  /** e is on top of a queue with the default order. */
  ghost predicate TopByPair(q: Queue, e: Pair) {
    e in q && forall p | p in q :: p == e || Less(p, e)
  }

  lemma {:induction false} SomeTop(q: Queue) returns (e: Pair)
    requires q != {}
    ensures TopByPair(q, e) && TopByFirst(q, e)
  {
    var p :| p in q;
    if q == {p} {
      e := p;
    } else {
      var r := SomeTop(q - {p});
      e := if Less(r, p) then p else r;
      forall x | x in q
        ensures x == e || Less(x, e)
      {
        assert x == p || x in q - {p};
      }
    }
  }

  method PopByFirst(q: Queue) returns (e: Pair, rest: Queue)
    requires q != {}
    ensures TopByFirst(q, e) && rest == q - {e} && |rest| == |q| - 1
  {
    ghost var w := SomeTop(q);
    e :| e in q && forall p | p in q :: p.first <= e.first;
    rest := q - {e};
  }

  method PopByPair(q: Queue) returns (e: Pair, rest: Queue)
    requires q != {}
    ensures TopByPair(q, e) && rest == q - {e} && |rest| == |q| - 1
  {
    ghost var w := SomeTop(q);
    e :| e in q && forall p | p in q :: p == e || Less(p, e);
    rest := q - {e};
  }

  /** top().first */
  method TopFirst(q: Queue) returns (x: real)
    requires q != {}
    ensures exists e :: TopByFirst(q, e) && x == e.first
  {
    ghost var w := SomeTop(q);
    var e :| e in q && forall p | p in q :: p.first <= e.first;
    assert TopByFirst(q, e);
    x := e.first;
  }

  /** Keeping a minimum in a max-queue: distances are negated. */
  function Neg(p: Pair): Pair {
    Pair(-p.first, p.second)
  }

  lemma NegNeg(p: Pair)
    ensures Neg(Neg(p)) == p
  {
    assert -(-p.first) == p.first;
  }

  ghost function Negated(q: Queue): Queue {
    set p | p in q :: Neg(p)
  }

  lemma NegatedMember(q: Queue, p: Pair)
    ensures Neg(p) in Negated(q) <==> p in q
    ensures p in Negated(q) <==> Neg(p) in q
  {
    NegNeg(p);
    forall x | x in q ensures Neg(Neg(x)) == x { NegNeg(x); }
  }

  lemma NegatedMinus(q: Queue, p: Pair)
    ensures Negated(q - {p}) == Negated(q) - {Neg(p)}
    ensures Negated(q + {p}) == Negated(q) + {Neg(p)}
  {
    forall x | x in q && x != p ensures Neg(x) != Neg(p) { NegNeg(x); NegNeg(p); }
  }

  /** The top of a negated queue is its nearest element. */
  lemma NegatedTop(q: Queue, c: Pair)
    requires TopByPair(Negated(q), c)
    ensures Neg(c) in q && forall r | r in q :: Neg(c).first <= r.first
  {
    NegatedMember(q, c);
    forall r | r in q
      ensures Neg(c).first <= r.first
    {
      NegatedMember(q, r);
      assert Neg(r) == c || Less(Neg(r), c);
    }
  }

  /** A queue that may hold equal pairs: two elements can carry the same label and distance. */
  type Bag = multiset<Pair>

  ghost predicate TopOfBag(b: Bag, e: Pair) {
    e in b && forall p | p in b :: p == e || Less(p, e)
  }

  method PopBag(b: Bag) returns (e: Pair, rest: Bag)
    requires |b| > 0
    ensures TopOfBag(b, e) && rest == b - multiset{e} && |rest| == |b| - 1
  {
    ghost var q := set p | p in b;
    ghost var x: Pair :| x in b;
    assert x in q;
    ghost var w := SomeTop(q);
    e :| e in b && forall p | p in b :: p == e || Less(p, e);
    rest := b - multiset{e};
  }
}
