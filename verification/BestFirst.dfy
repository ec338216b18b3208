/** Best-first exploration of one layer from a start node, with a beam of a given width: which node is
    expanded next and when the exploration is over, said of the nodes met alone, without any queue. */
module BestFirst {
  import opened FiniteSets

  /** A layer, the distances of its nodes to the query, the start and the width of the beam. */
  datatype Task = Task(g: seq<seq<nat>>, ds: seq<real>, s: nat, width: nat)

  ghost predicate InLayer(t: Task, nodes: seq<nat>) {
    |t.ds| == |t.g| && forall i | 0 <= i < |nodes| :: nodes[i] < |t.g|
  }

  /** The nodes met once those of order are expanded: the start and their neighbours. */
  ghost function SeenBy(t: Task, order: seq<nat>): set<nat>
    requires InLayer(t, order)
  {
    if order == [] then {t.s} else SeenBy(t, order[..|order| - 1]) + ToSet(t.g[order[|order| - 1]])
  }

  ghost function Ahead(ds: seq<real>, seen: set<nat>, x: real): set<nat> {
    set v | v in seen && v < |ds| && ds[v] < x
  }

  ghost function NoFarther(ds: seq<real>, seen: set<nat>, u: nat): set<nat>
    requires u < |ds|
  {
    set v | v in seen && v < |ds| && v != u && ds[v] <= ds[u]
  }

  /** As many other nodes as the beam is wide are no farther than u. */
  ghost predicate Beaten(t: Task, seen: set<nat>, u: nat) {
    u < |t.ds| && |NoFarther(t.ds, seen, u)| >= t.width
  }

  /** e is met and not yet expanded, no such node is nearer, and fewer nodes than the beam is wide are
      nearer than e. */
  ghost predicate NextBest(t: Task, order: seq<nat>, e: nat) {
    && InLayer(t, order) && e < |t.ds|
    && e in SeenBy(t, order) && e !in order
    && (forall v | v in SeenBy(t, order) && v !in order :: v < |t.ds| && t.ds[e] <= t.ds[v])
    && |Ahead(t.ds, SeenBy(t, order), t.ds[e])| < t.width
  }

  ghost predicate InOrder(t: Task, order: seq<nat>) {
    InLayer(t, order) && forall i | 0 <= i < |order| :: NextBest(t, order[..i], order[i])
  }

  /** Every node met is expanded, or beaten by as many others as the beam is wide. */
  ghost predicate Exhausted(t: Task, order: seq<nat>) {
    InLayer(t, order) && forall v | v in SeenBy(t, order) :: v in order || Beaten(t, SeenBy(t, order), v)
  }

  ghost predicate Explores(t: Task, order: seq<nat>) {
    InOrder(t, order) && Exhausted(t, order)
  }

  /** A complete exploration that meets the nodes of seen and expands those of expanded. */
  ghost predicate ExploresTo(t: Task, order: seq<nat>, seen: set<nat>, expanded: set<nat>) {
    Explores(t, order) && seen == SeenBy(t, order) && expanded == ToSet(order)
  }

  lemma SeenOnceMore(t: Task, order: seq<nat>, e: nat)
    requires InLayer(t, order) && e < |t.g|
    ensures InLayer(t, order + [e]) && SeenBy(t, order + [e]) == SeenBy(t, order) + ToSet(t.g[e])
  {
    assert (order + [e])[..|order|] == order;
  }

  lemma OrderGrows(t: Task, order: seq<nat>, e: nat)
    requires InOrder(t, order) && NextBest(t, order, e)
    ensures InOrder(t, order + [e])
  {
    var longer := order + [e];
    forall i | 0 <= i < |longer|
      ensures NextBest(t, longer[..i], longer[i])
    {
      assert longer[..i] == order[..i];
      assert i == |order| ==> order[..i] == order;
    }
  }

  /** A node that is beaten stays so while more nodes are met. */
  lemma BeatenStays(t: Task, seen: set<nat>, more: set<nat>, u: nat)
    requires Beaten(t, seen, u) && seen <= more
    ensures Beaten(t, more, u)
  {
    SubsetCount(NoFarther(t.ds, seen, u), NoFarther(t.ds, more, u));
  }

  /** With fewer nodes than the beam is wide nearer than x, no beaten node is. */
  lemma BeatenIsNoNearer(t: Task, seen: set<nat>, u: nat, x: real)
    requires Beaten(t, seen, u) && |Ahead(t.ds, seen, x)| < t.width
    ensures x <= t.ds[u]
  {
    if t.ds[u] < x {
      SubsetCount(NoFarther(t.ds, seen, u), Ahead(t.ds, seen, x));
    }
  }

  // ---------------------------------------------------------------- without ties it is unique

  ghost predicate NoTies(ds: seq<real>) {
    forall u, v | 0 <= u < |ds| && 0 <= v < |ds| && ds[u] == ds[v] :: u == v
  }

  /** Where nothing is left to expand, no node is next. */
  lemma NothingIsNext(t: Task, order: seq<nat>, e: nat)
    requires NoTies(t.ds) && Exhausted(t, order)
    ensures !NextBest(t, order, e)
  {
    var seen := SeenBy(t, order);
    if Beaten(t, seen, e) {
      SubsetCount(NoFarther(t.ds, seen, e), Ahead(t.ds, seen, t.ds[e]));
    }
  }

  lemma BestIsUnique(t: Task, order: seq<nat>, e: nat, f: nat)
    requires NoTies(t.ds) && NextBest(t, order, e) && NextBest(t, order, f)
    ensures e == f
  {
    hide SeenBy;
  }

  /** Two explorations agree step by step as long as both go on. */
  lemma {:induction false} StepsAgree(t: Task, a: seq<nat>, b: seq<nat>, n: nat)
    requires NoTies(t.ds) && InOrder(t, a) && InOrder(t, b) && n <= |a| && n <= |b|
    ensures a[..n] == b[..n]
  {
    hide NextBest;
    if n > 0 {
      StepsAgree(t, a, b, n - 1);
      BestIsUnique(t, a[..n - 1], a[n - 1], b[n - 1]);
      assert a[..n] == a[..n - 1] + [a[n - 1]] && b[..n] == b[..n - 1] + [b[n - 1]];
    }
  }

  /** Without ties the nodes are expanded in one order only, and the exploration ends at one place only. */
  lemma ExplorationIsUnique(t: Task, a: seq<nat>, b: seq<nat>)
    requires NoTies(t.ds) && Explores(t, a) && Explores(t, b)
    ensures a == b
  {
    var n := if |a| < |b| then |a| else |b|;
    StepsAgree(t, a, b, n);
    assert a[..|a|] == a && b[..|b|] == b;
    if n < |b| {
      NothingIsNext(t, a, b[n]);
    } else if n < |a| {
      NothingIsNext(t, b, a[n]);
    }
  }
}
