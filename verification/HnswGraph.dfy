/** The layered link lists of the index as values, and the invariant every insertion keeps. */
module HnswGraph {
  import opened BeamSearch

  type Vector = seq<real>

  /** One link list: its stored size and its fixed block of ids, of which the first size count. */
  datatype LinkList = LinkList(size: nat, data: seq<nat>)

  type Links = seq<seq<LinkList>>

  /** Capacities: maxM0 = 2 M on the base layer, maxM = M above. */
  function Capacity(m: nat, level: nat): nat {
    if level == 0 then 2 * m else m
  }

  function BlankLists(m: nat, top: nat): seq<LinkList> {
    seq(top + 1, l requires l >= 0 => LinkList(0, seq(Capacity(m, l), _ => 0)))
  }

  ghost predicate Distinct(s: seq<nat>) {
    forall i, j | 0 <= i < j < |s| :: s[i] != s[j]
  }

  /** The list of node self on a level: within its capacity, without repetitions or self loops, and only
      with targets that exist on that level. */
  ghost predicate GoodList(l: LinkList, capacity: nat, self: nat, level: nat, levels: seq<nat>) {
    && |l.data| == capacity && l.size <= capacity
    && Distinct(l.data[..l.size])
    && forall j | 0 <= j < l.size :: l.data[j] < |levels| && l.data[j] != self && level <= levels[l.data[j]]
  }

  ghost predicate GoodNode(lists: seq<LinkList>, m: nat, self: nat, levels: seq<nat>)
    requires self < |levels|
  {
    |lists| == levels[self] + 1 && forall l | 0 <= l < |lists| :: GoodList(lists[l], Capacity(m, l), self, l, levels)
  }

  ghost predicate GoodGraph(links: Links, levels: seq<nat>, m: nat) {
    |links| == |levels| && forall c | 0 <= c < |links| :: GoodNode(links[c], m, c, levels)
  }

  /** One layer as adjacency lists; nodes that do not reach up to it have none. */
  ghost function LayerOf(links: Links, level: nat): (g: Layer)
    ensures |g| == |links|
    ensures forall c | 0 <= c < |links| :: g[c] == ListAt(links[c], level)
  {
    seq(|links|, c requires 0 <= c < |links| => ListAt(links[c], level))
  }

  ghost function ListAt(lists: seq<LinkList>, level: nat): seq<nat> {
    if level < |lists| && lists[level].size <= |lists[level].data| then lists[level].data[..lists[level].size] else []
  }

  ghost function DistancesTo(dist: (Vector, Vector) -> real, query: Vector, vectors: seq<Vector>): (ds: seq<real>)
    ensures |ds| == |vectors| && forall i | 0 <= i < |ds| :: ds[i] == dist(query, vectors[i])
  {
    seq(|vectors|, i requires 0 <= i < |vectors| => dist(query, vectors[i]))
  }

  lemma LayerIsClosed(links: Links, levels: seq<nat>, m: nat, level: nat, ds: seq<real>)
    requires GoodGraph(links, levels, m) && |ds| == |links|
    ensures IsLayer(LayerOf(links, level), ds)
  {
    var g := LayerOf(links, level);
    forall u, j | 0 <= u < |g| && 0 <= j < |g[u]|
      ensures g[u][j] < |g|
    {
      assert GoodNode(links[u], m, u, levels);
    }
  }

  /** What is reached on a level is the start or somebody's neighbour. */
  lemma ReachedIsPointedTo(g: Layer, s: nat, v: nat)
    requires Reaches(g, s, v)
    ensures v < |g| && (v == s || exists u :: 0 <= u < |g| && v in g[u])
  {
    var path :| IsPath(g, path) && path[0] == s && path[|path| - 1] == v;
    if |path| > 1 {
      assert path[|path| - 2 + 1] in g[path[|path| - 2]];
    }
  }

  /** Nobody points to node c on any level up to top. */
  ghost predicate Unseen(links: Links, c: nat, top: int) {
    forall u, l | 0 <= u < |links| && 0 <= l <= top :: c !in ListAt(links[u], l)
  }

  /** A search on a level from a node of that level only sees nodes of that level, and never one that
      nobody points to. */
  lemma ReachedExists(links: Links, levels: seq<nat>, m: nat, level: nat, s: nat, v: nat)
    requires GoodGraph(links, levels, m) && s < |levels| && level <= levels[s]
    requires Reaches(LayerOf(links, level), s, v)
    ensures v < |levels| && level <= levels[v]
    ensures forall c | c != s && Unseen(links, c, level) :: v != c
  {
    var g := LayerOf(links, level);
    ReachedIsPointedTo(g, s, v);
    if v != s {
      var u :| 0 <= u < |g| && v in g[u];
      assert GoodNode(links[u], m, u, levels);
      assert v in ListAt(links[u], level);
    }
  }

  /** The list a search reads at a node it has reached. */
  lemma ListReached(links: Links, levels: seq<nat>, m: nat, level: nat, s: nat, v: nat)
    requires GoodGraph(links, levels, m) && s < |levels| && level <= levels[s]
    requires Reaches(LayerOf(links, level), s, v)
    ensures v < |links| == |levels| && level < |links[v]|
    ensures var l := links[v][level];
            && l.size <= |l.data| && LayerOf(links, level)[v] == l.data[..l.size]
            && forall j | 0 <= j < l.size :: l.data[j] < |links|
  {
    ReachedExists(links, levels, m, level, s, v);
    assert GoodNode(links[v], m, v, levels);
  }

  /** The list of an existing node on one of its levels. */
  lemma ListOf(links: Links, levels: seq<nat>, m: nat, level: nat, v: nat)
    requires GoodGraph(links, levels, m) && v < |levels| && level <= levels[v]
    ensures |links| == |levels| && level < |links[v]| == levels[v] + 1
    ensures GoodList(links[v][level], Capacity(m, level), v, level, levels)
    ensures ListAt(links[v], level) == links[v][level].data[..links[v][level].size]
  {
    assert GoodNode(links[v], m, v, levels);
  }

  /** The nodes nearer than x. */
  ghost function Nearer(ds: seq<real>, x: real): set<nat> {
    set v: nat | v < |ds| && ds[v] < x
  }

  // ---------------------------------------------------------------- changing one list

  /** Replacing one list by a good one keeps the graph good. */
  lemma ListReplaced(links: Links, levels: seq<nat>, m: nat, c: nat, level: nat, l: LinkList)
    requires GoodGraph(links, levels, m) && c < |links| && level < |links[c]|
    requires GoodList(l, Capacity(m, level), c, level, levels)
    ensures GoodGraph(links[c := links[c][level := l]], levels, m)
  {
    assert GoodNode(links[c], m, c, levels);
  }

  lemma NodeAdded(links: Links, levels: seq<nat>, m: nat, top: nat)
    requires GoodGraph(links, levels, m)
    ensures GoodGraph(links + [BlankLists(m, top)], levels + [top], m)
    ensures Unseen(links + [BlankLists(m, top)], |links|, top)
  {
    var links', levels' := links + [BlankLists(m, top)], levels + [top];
    forall c | 0 <= c < |links'|
      ensures GoodNode(links'[c], m, c, levels')
    {
      if c < |links| {
        assert GoodNode(links[c], m, c, levels);
      }
    }
    forall u, l | 0 <= u < |links'| && 0 <= l <= top
      ensures |links| !in ListAt(links'[u], l)
    {
      if u < |links| {
        assert GoodNode(links[u], m, u, levels);
      }
    }
  }

  /** From links to links' only lists of one level have changed, and none has become empty. */
  ghost predicate Linked(links: Links, links': Links, cur: nat, level: nat) {
    && |links'| == |links|
    && forall c | 0 <= c < |links| ::
         && |links'[c]| == |links[c]|
         && (forall l | 0 <= l < |links[c]| && l != level :: links'[c][l] == links[c][l])
         && (level < |links[c]| && links[c][level].size > 0 ==> links'[c][level].size > 0)
  }

  lemma LinkedToItself(links: Links, cur: nat, level: nat)
    ensures Linked(links, links, cur, level)
  {
  }

  lemma LinkedIsTransitive(a: Links, b: Links, c: Links, cur: nat, level: nat)
    requires Linked(a, b, cur, level) && Linked(b, c, cur, level)
    ensures Linked(a, c, cur, level)
  {
  }

  lemma UnseenLess(links: Links, c: nat, top: int, top': int)
    requires Unseen(links, c, top) && top' <= top
    ensures Unseen(links, c, top')
  {
  }

  lemma UnseenBelow(a: Links, b: Links, cur: nat, level: nat)
    requires Linked(a, b, cur, level) && Unseen(a, cur, level)
    ensures Unseen(b, cur, level - 1)
  {
    forall u, l | 0 <= u < |b| && 0 <= l <= level - 1
      ensures cur !in ListAt(b[u], l)
    {
      assert cur !in ListAt(a[u], l);
    }
  }

  /** No list that had an entry has lost all of them. */
  ghost predicate NoneEmptied(a: Links, b: Links) {
    && |a| <= |b|
    && forall c, l | 0 <= c < |a| && 0 <= l < |a[c]| && a[c][l].size > 0 :: l < |b[c]| && b[c][l].size > 0
  }

  lemma LinkedEmptiesNone(a: Links, b: Links, c: Links, cur: nat, level: nat)
    requires NoneEmptied(a, b) && Linked(b, c, cur, level)
    ensures NoneEmptied(a, c)
  {
    forall u, l | 0 <= u < |a| && 0 <= l < |a[u]| && a[u][l].size > 0
      ensures l < |c[u]| && c[u][l].size > 0
    {
      assert l < |b[u]| && b[u][l].size > 0;
    }
  }

  /** Levels below the one being linked are as they were for the new node. */
  ghost predicate BlankUpTo(lists: seq<LinkList>, m: nat, top: int) {
    forall l | 0 <= l <= top && l < |lists| :: lists[l] == LinkList(0, seq(Capacity(m, l), _ => 0))
  }

  lemma BlankAt(lists: seq<LinkList>, m: nat, level: nat)
    requires BlankUpTo(lists, m, level) && level < |lists|
    ensures lists[level] == LinkList(0, seq(Capacity(m, level), _ => 0))
  {
  }

  lemma StillBlank(a: Links, b: Links, m: nat, cur: nat, level: nat)
    requires Linked(a, b, cur, level) && cur < |a| && BlankUpTo(a[cur], m, level)
    ensures BlankUpTo(b[cur], m, level - 1)
  {
  }

  lemma NothingEmptied(a: Links)
    ensures NoneEmptied(a, a)
  {
  }

  lemma StoredEmptiesNone(a: Links, b: Links, c: Links)
    requires |a| < |b| && b[..|a|] == a && NoneEmptied(b, c)
    ensures NoneEmptied(a, c)
  {
    forall u, l | 0 <= u < |a| && 0 <= l < |a[u]| && a[u][l].size > 0
      ensures l < |c[u]| && c[u][l].size > 0
    {
      assert b[u] == b[..|a|][u];
    }
  }
}
