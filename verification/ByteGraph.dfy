/** The two forms of the index side by side: the link lists as values, which the algorithms are about, and
    the bytes they are written to. */
module ByteGraphs {
  import opened LittleEndian
  import opened HnswGraph
  import opened FlatMemory
  import opened FiniteSets
  import Hnsw

  /** The link lists in a node table. */
  ghost function ListsIn(table: seq<Node>): (links: Links)
    ensures |links| == |table| && forall c | 0 <= c < |links| :: links[c] == table[c].lists
  {
    seq(|table|, c requires 0 <= c < |table| => table[c].lists)
  }

  /** Between two states of the links: levels above l are as in b, the others as in a. */
  ghost predicate Between(lists: Links, a: Links, b: Links, l: int) {
    && |lists| == |a| == |b|
    && forall u | 0 <= u < |a| ::
         && |lists[u]| == |a[u]| == |b[u]|
         && forall k | 0 <= k < |a[u]| :: lists[u][k] == if k > l then b[u][k] else a[u][k]
  }

  /** The same with level l under way: node cur and the nodes in done are through. */
  ghost predicate UnderWay(lists: Links, a: Links, b: Links, l: nat, cur: nat, done: seq<nat>) {
    && |lists| == |a| == |b|
    && forall u | 0 <= u < |a| ::
         && |lists[u]| == |a[u]| == |b[u]|
         && forall k | 0 <= k < |a[u]| ::
              lists[u][k] == if k > l || (k == l && (u == cur || u in done)) then b[u][k] else a[u][k]
  }

  lemma WayGoesOn(table: seq<Node>, a: Links, b: Links, l: nat, cur: nat, done: seq<nat>, other: nat)
    requires UnderWay(ListsIn(table), a, b, l, cur, done) && other < |a| && l < |a[other]|
    ensures UnderWay(ListsIn(TableWith(table, other, l, b[other][l])), a, b, l, cur, done + [other])
  {
  }

  lemma WayBegins(table: seq<Node>, a: Links, b: Links, l: nat, cur: nat)
    requires Between(ListsIn(table), a, b, l) && cur < |a| && l < |a[cur]|
    ensures UnderWay(ListsIn(TableWith(table, cur, l, b[cur][l])), a, b, l, cur, [])
  {
  }

  lemma WayEnds(lists: Links, a: Links, b: Links, l: nat, cur: nat, done: seq<nat>)
    requires UnderWay(lists, a, b, l, cur, done)
    requires forall u | 0 <= u < |a| && u != cur && u !in done && l < |a[u]| :: b[u][l] == a[u][l]
    ensures Between(lists, a, b, l - 1)
  {
  }

  /** A list of different ids below 2^32 that leaves out its own element is shorter than 2^32. */
  lemma SizeFits(l: LinkList, capacity: nat, self: nat, level: nat, levels: seq<nat>)
    requires GoodList(l, capacity, self, level, levels) && self < |levels| <= Range(4)
    ensures l.size < Range(4)
  {
    hide Range;
    var ids := ToSet(l.data[..l.size]);
    Hnsw.DistinctCount(l.data[..l.size]);
    SubsetCount(ids + {self}, Below(|levels|));
    assert |ids + {self}| == |ids| + 1;
  }

  /** A list that has been rewritten from the front is known from its ids and the old list. */
  lemma FromTheFront(before: LinkList, after: LinkList, ids: seq<nat>)
    requires Hnsw.Overwritten(before, after) && ids == after.data[..after.size]
    ensures |ids| <= |before.data| && after == WithLinks(before.(size := |ids|), ids)
  {
    assert after.data == ids + after.data[after.size..];
  }

  /** A list that had room has the new id behind the others. */
  lemma BehindTheLast(before: LinkList, after: LinkList, v: nat)
    requires Hnsw.Overwritten(before, after) && before.size < |before.data|
    requires after.data[..after.size] == before.data[..before.size] + [v]
    ensures after == LinkList(before.size + 1, before.data[before.size := v])
  {
    assert after.data == after.data[..after.size] + after.data[after.size..];
    assert after.size == before.size + 1;
  }

  /** The bytes of every vector stand for the vector. */
  ghost predicate SameElements(added: seq<(nat, seq<byte>)>, vectors: seq<Vector>, labels: seq<nat>, valueOf: seq<byte> -> Vector) {
    && |added| == |vectors| == |labels|
    && forall c | 0 <= c < |added| :: labels[c] == added[c].0 && vectors[c] == valueOf(added[c].1)
  }

  /** What is needed for writing the new element's list on a level. */
  lemma OwnFits(dist: (Vector, Vector) -> real, vs: seq<Vector>, a: Links, b: Links, levels: seq<nat>, m: nat, cur: nat, l: nat)
    requires GoodGraph(a, levels, m) && GoodGraph(b, levels, m) && |levels| <= Range(4)
    requires Hnsw.LevelDone(dist, vs, m, cur, l, a, b)
    ensures cur < |b| == |levels| && l < |b[cur]| && b[cur][l].size <= |b[cur][l].data| == Capacity(m, l)
    ensures b[cur][l].size < Range(4) && Distinct(b[cur][l].data[..b[cur][l].size])
    ensures a[cur][l].size == 0 ==> b[cur][l] == WithLinks(a[cur][l].(size := b[cur][l].size), b[cur][l].data[..b[cur][l].size])
    ensures forall u | u in b[cur][l].data[..b[cur][l].size] :: u < |levels| && u != cur && l <= levels[u]
    ensures forall u | 0 <= u < |a| && u != cur && u !in b[cur][l].data[..b[cur][l].size] && l < |a[u]| :: b[u][l] == a[u][l]
  {
    ListOf(a, levels, m, l, cur);
    ListOf(b, levels, m, l, cur);
    hide GoodGraph, Hnsw.BackLinked, Range;
    SizeFits(b[cur][l], Capacity(m, l), cur, l, levels);
    FromTheFront(a[cur][l], b[cur][l], b[cur][l].data[..b[cur][l].size]);
  }

  /** What is needed for writing the answer of a selected neighbour. */
  lemma AnswerFits(dist: (Vector, Vector) -> real, vs: seq<Vector>, a: Links, b: Links, levels: seq<nat>, m: nat, cur: nat, l: nat, u: nat)
    requires GoodGraph(a, levels, m) && GoodGraph(b, levels, m) && |levels| <= Range(4)
    requires Hnsw.LevelDone(dist, vs, m, cur, l, a, b) && u in ListAt(b[cur], l)
    ensures u < |a| == |levels| && l < |a[u]| == |b[u]| == levels[u] + 1
    ensures a[u][l].size <= |a[u][l].data| == Capacity(m, l)
    ensures Hnsw.BackLinked(dist, vs, cur, u, Capacity(m, l), a[u][l], b[u][l])
    ensures b[u][l].size <= |b[u][l].data| && b[u][l].size < Range(4) && forall i | 0 <= i < b[u][l].size :: b[u][l].data[i] < Range(4)
  {
    assert u < |a| && l < |a[u]| && l < |b[u]| && Hnsw.BackLinked(dist, vs, cur, u, Capacity(m, l), a[u][l], b[u][l]);
    hide Hnsw.LevelDone, Hnsw.BackLinked, Range;
    assert GoodNode(a[u], m, u, levels) && GoodNode(b[u], m, u, levels);
    SizeFits(b[u][l], Capacity(m, l), u, l, levels);
  }

  /** On a level an insertion goes from a, where the list of the new element is blank, to b. */
  ghost predicate LevelPending(dist: (Vector, Vector) -> real, vs: seq<Vector>, m: nat, cur: nat, l: nat, a: Links, b: Links) {
    && Hnsw.LevelDone(dist, vs, m, cur, l, a, b)
    && a[cur][l] == LinkList(0, seq(Capacity(m, l), _ => 0))
  }

  lemma PendingNow(dist: (Vector, Vector) -> real, vs: seq<Vector>, m: nat, cur: nat, l: nat, a: Links, b: Links)
    requires LevelPending(dist, vs, m, cur, l, a, b)
    ensures Hnsw.LevelDone(dist, vs, m, cur, l, a, b) && cur < |a| && l < |a[cur]| && a[cur][l] == LinkList(0, seq(Capacity(m, l), _ => 0))
  {
  }

  /** After an insertion all levels from top down are to be written; above it nothing has changed. */
  lemma AllPending(dist: (Vector, Vector) -> real, vs: seq<Vector>, m: nat, width: nat, cur: nat, obj: nat, top: nat, curlevel: nat, links: Links, b: Links, trace: Hnsw.Trace)
    requires cur == |links| && top <= curlevel
    requires Hnsw.Insertion(dist, vs, m, width, cur, obj, top, links + [BlankLists(m, curlevel)], b, trace)
    ensures var a := links + [BlankLists(m, curlevel)];
            Between(a, a, b, top) && forall l | 0 <= l <= top :: LevelPending(dist, vs, m, cur, l, a, b)
  {
    hide Hnsw.Insertion, Hnsw.BackLinked;
    var a := links + [BlankLists(m, curlevel)];
    forall l: nat
      ensures if l <= top then Hnsw.LevelDone(dist, vs, m, cur, l, a, b) else Hnsw.SameOn(a, b, l)
    {
      Hnsw.LevelSettled(dist, vs, m, width, cur, obj, top, a, b, trace, l);
    }
    assert Hnsw.SameOn(a, b, top + 1);
    forall u, k | 0 <= u < |a| && top < k < |a[u]|
      ensures b[u][k] == a[u][k]
    {
      assert Hnsw.SameOn(a, b, k);
    }
    hide Hnsw.LevelDone;
  }

  /** Links that do not change at all. */
  lemma NothingPending(a: Links)
    ensures Between(a, a, a, -1)
  {
  }

  lemma NothingLeft(lists: Links, a: Links, b: Links)
    requires Between(lists, a, b, -1)
    ensures lists == b
  {
    assert forall u | 0 <= u < |b| :: lists[u] == b[u];
  }

  lemma SameElementsGrow(added: seq<(nat, seq<byte>)>, vectors: seq<Vector>, labels: seq<nat>, valueOf: seq<byte> -> Vector, point: seq<byte>, name: nat)
    requires SameElements(added, vectors, labels, valueOf)
    ensures SameElements(added + [(name, point)], vectors + [valueOf(point)], labels + [name], valueOf)
  {
  }

  lemma BlankIsBlank(lay: Layout, m: nat, level: nat, vector: seq<byte>, name: nat)
    requires lay.maxM == m && lay.maxM0 == 2 * m
    ensures BlankNode(lay, level, vector, name).lists == BlankLists(m, level) && |BlankLists(m, level)| == level + 1
  {
  }

  class ByteGraph {
    const graph: Hnsw.HierarchicalNSW
    const bytes: FlatIndex
    const valueOf: seq<byte> -> Vector

    /** Both forms hold the same elements, links and entry point. */
    ghost predicate Agrees()
      reads this, graph, graph.vectors, graph.labels, graph.levels, graph.links
      reads bytes, bytes.memory, bytes.linkLists, bytes.elementLevels
    {
      && Together() && ListsIn(bytes.Table()) == graph.AllLinks() && EntryAgrees()
    }

    /** Without elements the entry point is -1, which as an unsigned int is the largest one. */
    ghost predicate EntryAgrees()
      reads this, graph, bytes
    {
      && graph.maxlevel == bytes.maxlevel
      && bytes.enterpoint == if graph.enterpoint == -1 then Range(4) - 1 else graph.enterpoint
    }

    /** Both forms hold the same elements on the same levels under the same labels. */
    ghost predicate Together()
      reads this, graph, graph.vectors, graph.labels, graph.levels, graph.links
      reads bytes, bytes.memory, bytes.linkLists, bytes.elementLevels
    {
      && graph.Valid() && Apart() && bytes.Valid() && bytes.count == graph.count
      && bytes.elementLevels[..bytes.count] == graph.Levels() && bytes.labelLookup == graph.labelLookup
      && SameElements(bytes.added, graph.Vectors(), graph.labels[..graph.count], valueOf)
    }

    /** Same sizes, in different memory. An id is an unsigned int. */
    ghost predicate Apart() {
      && graph.maxElements == bytes.maxElements <= Range(4)
      && bytes.lay.maxM == graph.m && bytes.lay.maxM0 == 2 * graph.m
      && bytes.elementLevels != graph.levels && bytes.elementLevels != graph.labels
    }

    constructor (dist: (Vector, Vector) -> real, valueOf: seq<byte> -> Vector, maxElements: nat, m: nat, efConstruction: nat, mult: nat, dataSize: nat)
      requires maxElements <= Range(4)
      ensures Agrees() && graph.count == 0 && graph.maxElements == maxElements && graph.m == m && graph.dist == dist
      ensures this.valueOf == valueOf && bytes.lay.dataSize == dataSize
      ensures fresh(graph) && fresh(graph.vectors) && fresh(graph.labels) && fresh(graph.levels) && fresh(graph.links)
      ensures fresh(bytes) && fresh(bytes.memory) && fresh(bytes.linkLists) && fresh(bytes.elementLevels)
    {
      hide Range;
      graph := new Hnsw.HierarchicalNSW(dist, maxElements, m, efConstruction);
      bytes := new FlatIndex(m, efConstruction, mult, dataSize, maxElements);
      this.valueOf := valueOf;
    }

    /** What the list of node other does on the bytes when cur asks to be linked. */
    method AnswerLink(cur: nat, other: nat, l: nat, ghost vs: seq<Vector>, ghost before: LinkList, after: LinkList) returns (status: WriteStatus)
      requires bytes.Valid() && other < bytes.count && cur != other && l <= bytes.elementLevels[other] && cur < Range(4)
      requires before == bytes.Table()[other].lists[l] && before.size <= |before.data| == bytes.lay.Slots(l)
      requires Hnsw.BackLinked(graph.dist, vs, cur, other, bytes.lay.Slots(l), before, after)
      requires after.size < Range(4) && forall i | 0 <= i < after.size :: after.data[i] < Range(4)
      modifies bytes.memory, bytes.linkLists
      ensures bytes.Valid() && bytes.Table() == TableWith(old(bytes.Table()), other, l, after) && status == Written
    {
      hide Range, TableOf, TableWith, WithLinks, Fits, Records, Hnsw.PrunedTo;
      var ids := after.data[..after.size];
      OwnRemainder(after.size, Range(4));
      FromTheFront(before, after, ids);
      if before.size < |before.data| { BehindTheLast(before, after, cur); }
      hide Hnsw.BackLinked, Hnsw.Overwritten;
      status := bytes.AppendLink(other, l, cur);
      if status == ListFull {
        bytes.RewriteList(other, l, ids);
        status := Written;
      }
    }

    /** The bytes are between the links a and those of the graph, and can be written to reach them. */
    ghost predicate Writing(cur: nat, l: nat, a: Links)
      reads this, graph, graph.vectors, graph.labels, graph.levels, graph.links
      reads bytes, bytes.memory, bytes.linkLists, bytes.elementLevels
    {
      && Together() && cur < graph.count && GoodGraph(a, graph.Levels(), graph.m)
      && Hnsw.LevelDone(graph.dist, graph.vectors[..], graph.m, cur, l, a, graph.AllLinks())
    }

    /** The new element and the nodes in done are through with level l. */
    ghost predicate Answering(cur: nat, l: nat, a: Links, done: seq<nat>)
      reads this, graph, graph.vectors, graph.labels, graph.levels, graph.links
      reads bytes, bytes.memory, bytes.linkLists, bytes.elementLevels
    {
      Writing(cur, l, a) && UnderWay(ListsIn(bytes.Table()), a, graph.AllLinks(), l, cur, done)
    }

    /** The new element's list goes from blank to what it is in the graph. */
    method WriteOwn(cur: nat, l: nat, ghost a: Links) returns (status: WriteStatus, selected: seq<nat>)
      requires Writing(cur, l, a) && Between(ListsIn(bytes.Table()), a, graph.AllLinks(), l)
      requires l < |a[cur]| && a[cur][l] == LinkList(0, seq(Capacity(graph.m, l), _ => 0))
      modifies bytes.memory, bytes.linkLists
      ensures Answering(cur, l, a, []) && status == Written && selected == ListAt(graph.AllLinks()[cur], l)
      ensures Distinct(selected) && forall i | 0 <= i < |selected| :: selected[i] != cur
    {
      hide SameElements, Hnsw.HierarchicalNSW.EntryOk, Hnsw.HierarchicalNSW.LookupOk, Hnsw.NobodyAlone;
      hide GoodGraph, Hnsw.LevelDone, Fits, Records, Range, TableOf, TableWith, WithLinks, UnderWay;
      ghost var b, levels := graph.AllLinks(), graph.Levels();
      OwnFits(graph.dist, graph.vectors[..], a, b, levels, graph.m, cur, l);
      var own := graph.links[cur][l];
      assert own == b[cur][l];
      selected := own.data[..own.size];
      assert own.size % Range(4) == own.size by { OwnRemainder(own.size, Range(4)); }
      WayBegins(bytes.Table(), a, b, l, cur);
      assert bytes.Table()[cur].lists[l] == a[cur][l];
      hide Between;
      assert forall i | 0 <= i < |selected| :: selected[i] in selected && selected[i] != cur && bytes.elementLevels[selected[i]] == levels[selected[i]];
      ghost var bad;
      status, bad := bytes.WriteOwnList(cur, l, selected);
    }

    /** A selected neighbour's list goes from what it was to what it is in the graph. */
    method WriteAnswer(cur: nat, other: nat, l: nat, ghost a: Links, ghost done: seq<nat>) returns (status: WriteStatus)
      requires Answering(cur, l, a, done)
      requires other in ListAt(graph.AllLinks()[cur], l) && other != cur && other !in done
      modifies bytes.memory, bytes.linkLists
      ensures Answering(cur, l, a, done + [other]) && status == Written
    {
      hide SameElements, Hnsw.HierarchicalNSW.EntryOk, Hnsw.HierarchicalNSW.LookupOk, Hnsw.NobodyAlone;
      hide GoodGraph, Hnsw.LevelDone, Hnsw.BackLinked, Fits, Records, Range, TableOf, TableWith;
      ghost var b, levels := graph.AllLinks(), graph.Levels();
      AnswerFits(graph.dist, graph.vectors[..], a, b, levels, graph.m, cur, l, other);
      var after := graph.links[other][l];
      assert after == b[other][l];
      WayGoesOn(bytes.Table(), a, b, l, cur, done, other);
      assert bytes.Table()[other].lists[l] == a[other][l];
      hide UnderWay;
      assert bytes.elementLevels[other] == levels[other];
      status := AnswerLink(cur, other, l, graph.vectors[..], a[other][l], after);
    }

    /** All selected neighbours answer. */
    method WriteAnswers(cur: nat, l: nat, ghost a: Links, selected: seq<nat>) returns (status: WriteStatus)
      requires Answering(cur, l, a, []) && Distinct(selected) && selected == ListAt(graph.AllLinks()[cur], l)
      requires forall i | 0 <= i < |selected| :: selected[i] != cur
      modifies bytes.memory, bytes.linkLists
      ensures Answering(cur, l, a, selected) && status == Written
    {
      hide SameElements, Hnsw.HierarchicalNSW.EntryOk, Hnsw.HierarchicalNSW.LookupOk, Hnsw.NobodyAlone, GoodGraph, Hnsw.LevelDone, Fits, Records, TableOf, UnderWay;
      status := Written;
      assert selected[..0] == [];
      assert graph.Shape();
      hide Answering, ListAt;
      for i := 0 to |selected|
        invariant Answering(cur, l, a, selected[..i]) && status == Written
      {
        assert selected[i] !in selected[..i] && selected[..i + 1] == selected[..i] + [selected[i]];
        status := WriteAnswer(cur, selected[i], l, a, selected[..i]);
      }
      assert selected[..|selected|] == selected;
    }

    /** mutuallyConnectNewElement on the bytes, with the neighbours and the pruned lists of the graph: level l
        of every node goes from a to what it is in the graph. */
    method WriteLevel(cur: nat, l: nat, ghost a: Links) returns (status: WriteStatus)
      requires Writing(cur, l, a) && Between(ListsIn(bytes.Table()), a, graph.AllLinks(), l)
      requires l < |a[cur]| && a[cur][l] == LinkList(0, seq(Capacity(graph.m, l), _ => 0))
      modifies bytes.memory, bytes.linkLists
      ensures Writing(cur, l, a) && status == Written
      ensures Between(ListsIn(bytes.Table()), a, graph.AllLinks(), l - 1)
    {
      hide Answering, ListAt, Distinct, Between, GoodGraph, Hnsw.LevelDone, Fits, Records, TableOf;
      hide SameElements, Hnsw.HierarchicalNSW.EntryOk, Hnsw.HierarchicalNSW.LookupOk, Hnsw.NobodyAlone;
      var selected;
      status, selected := WriteOwn(cur, l, a);
      status := WriteAnswers(cur, l, a, selected);
      AllAnswered(cur, l, a, selected);
    }

    lemma AllAnswered(cur: nat, l: nat, a: Links, selected: seq<nat>)
      requires Answering(cur, l, a, selected) && selected == ListAt(graph.AllLinks()[cur], l)
      ensures Writing(cur, l, a) && Between(ListsIn(bytes.Table()), a, graph.AllLinks(), l - 1)
    {
      OwnFits(graph.dist, graph.vectors[..], a, graph.AllLinks(), graph.Levels(), graph.m, cur, l);
      hide SameElements, Hnsw.HierarchicalNSW.EntryOk, Hnsw.HierarchicalNSW.LookupOk, Hnsw.NobodyAlone;
      hide GoodGraph, Hnsw.LevelDone, Between, UnderWay, Fits, Records, TableOf;
      WayEnds(ListsIn(bytes.Table()), a, graph.AllLinks(), l, cur, selected);
    }

    /** The graph is done with element cur; on the bytes the levels up to top are still as in a, and blank for
        cur. */
    ghost predicate Pending(cur: nat, top: int, a: Links)
      reads this, graph, graph.vectors, graph.labels, graph.levels, graph.links
      reads bytes, bytes.memory, bytes.linkLists, bytes.elementLevels
    {
      && Together() && cur < graph.count && GoodGraph(a, graph.Levels(), graph.m)
      && (forall l: nat | l <= top :: LevelPending(graph.dist, graph.vectors[..], graph.m, cur, l, a, graph.AllLinks()))
      && Between(ListsIn(bytes.Table()), a, graph.AllLinks(), top)
    }

    /** The levels of addPoint on the bytes, from the highest down. */
    method WriteLevels(cur: nat, top: int, ghost a: Links) returns (status: WriteStatus)
      requires Pending(cur, top, a) && top >= -1
      modifies bytes.memory, bytes.linkLists
      ensures Pending(cur, -1, a) && status == Written
    {
      hide SameElements, Hnsw.HierarchicalNSW.EntryOk, Hnsw.HierarchicalNSW.LookupOk, Hnsw.NobodyAlone;
      hide GoodGraph, LevelPending, Between, Fits, Records, TableOf;
      status := Written;
      var l := top;
      while l >= 0
        invariant -1 <= l && Pending(cur, l, a) && status == Written
      {
        assert LevelPending(graph.dist, graph.vectors[..], graph.m, cur, l, a, graph.AllLinks());
        PendingNow(graph.dist, graph.vectors[..], graph.m, cur, l, a, graph.AllLinks());
        status := WriteLevel(cur, l, a);
        l := l - 1;
      }
    }

    /** The links of the graph are what an insertion of element cur makes of a: above level top nothing has
        changed, and on every level from top down the new list and its answers are there. */
    ghost predicate LevelsLinked(cur: nat, top: int, a: Links)
      requires graph.Shape()
      reads graph, graph.vectors, graph.levels, graph.links
    {
      && GoodGraph(a, graph.Levels(), graph.m) && Between(a, a, graph.AllLinks(), top)
      && forall l: nat | l <= top :: LevelPending(graph.dist, graph.vectors[..], graph.m, cur, l, a, graph.AllLinks())
    }

    /** addPoint on the graph. */
    method AddToGraph(point: Vector, name: nat, curlevel: nat) returns (status: Hnsw.Status, cur: nat, top: int, ghost a: Links)
      requires graph.Valid()
      modifies graph, graph.vectors, graph.labels, graph.levels, graph.links
      ensures graph.Valid() && top >= -1 && top == (if curlevel <= old(graph.maxlevel) then curlevel else old(graph.maxlevel))
      ensures status == if old(graph.count) >= graph.maxElements then Hnsw.Full else Hnsw.Ok
      ensures status == Hnsw.Full ==>
                && unchanged(graph) && unchanged(graph.vectors) && unchanged(graph.labels) && unchanged(graph.levels) && unchanged(graph.links)
      ensures status == Hnsw.Ok ==>
                && cur == old(graph.count) && graph.count == cur + 1 && graph.labelLookup == old(graph.labelLookup)[name := cur]
                && graph.Vectors() == old(graph.Vectors()) + [point] && graph.Levels() == old(graph.Levels()) + [curlevel]
                && graph.labels[..graph.count] == old(graph.labels[..graph.count]) + [name]
                && a == old(graph.AllLinks()) + [BlankLists(graph.m, curlevel)] && LevelsLinked(cur, top, a)
                && graph.enterpoint == (if curlevel > old(graph.maxlevel) then cur else old(graph.enterpoint))
                && graph.maxlevel == (if curlevel > old(graph.maxlevel) then curlevel else old(graph.maxlevel))
    {
      assert graph.maxlevel >= -1 && (graph.count == 0 ==> graph.maxlevel == -1);
      hide Hnsw.HierarchicalNSW.EntryOk, Hnsw.HierarchicalNSW.LookupOk, Hnsw.NobodyAlone;
      hide GoodGraph, LevelPending, Between, Hnsw.Insertion, NoneEmptied, Hnsw.ItemsOf, BlankLists;
      top := if curlevel <= graph.maxlevel then curlevel else graph.maxlevel;
      ghost var links, levels := graph.AllLinks(), graph.Levels();
      a := links + [BlankLists(graph.m, curlevel)];
      NodeAdded(links, levels, graph.m, curlevel);
      ghost var obj, trace;
      status, cur, obj, trace := graph.AddPoint(point, name, curlevel, curlevel);
      if status == Hnsw.Ok {
        ghost var b, vs := graph.AllLinks(), graph.vectors[..];
        if cur > 0 {
          AllPending(graph.dist, vs, graph.m, graph.efConstruction, cur, obj, top, curlevel, links, b, trace);
        } else {
          NothingPending(a);
        }
        assert GoodGraph(a, graph.Levels(), graph.m) && Between(a, a, b, top);
        assert forall l: nat | l <= top :: LevelPending(graph.dist, vs, graph.m, cur, l, a, b);
      }
    }

    /** The element is stored in both forms, and linked in the graph. */
    method StoreBoth(point: seq<byte>, name: nat, curlevel: nat) returns (status: Hnsw.Status, cur: nat, top: int, ghost a: Links)
      requires Agrees() && |point| == bytes.lay.dataSize && name < Range(8)
      modifies graph, graph.vectors, graph.labels, graph.levels, graph.links
      modifies bytes`count, bytes`labelLookup, bytes`added, bytes.memory, bytes.linkLists, bytes.elementLevels
      ensures status == if old(graph.count) >= graph.maxElements then Hnsw.Full else Hnsw.Ok
      ensures status == Hnsw.Full ==> Agrees() && bytes.added == old(bytes.added)
      ensures status == Hnsw.Ok ==>
                && cur == old(graph.count) && bytes.added == old(bytes.added) + [(name, point)] && Pending(cur, top, a)
                && a == old(graph.AllLinks()) + [BlankLists(graph.m, curlevel)] && LevelsLinked(cur, top, a)
                && top >= -1 && top == (if curlevel <= old(graph.maxlevel) then curlevel else old(graph.maxlevel))
                && if curlevel > old(graph.maxlevel) then graph.enterpoint == cur && graph.maxlevel == curlevel else EntryAgrees()
    {
      hide SameElements, Hnsw.HierarchicalNSW.EntryOk, Hnsw.HierarchicalNSW.LookupOk, Hnsw.NobodyAlone;
      hide GoodGraph, LevelPending, Between, Fits, Records, TableOf, Range, BlankNode, BlankLists;
      SameElementsGrow(bytes.added, graph.Vectors(), graph.labels[..graph.count], valueOf, point, name);
      status, cur, top, a := AddToGraph(valueOf(point), name, curlevel);
      if status == Hnsw.Full {
        hide Agrees, Together;
        return;
      }
      StoreBytes(point, name, curlevel);
      assert ListsIn(bytes.Table()) == a;
      assert Together();
    }

    /** The bytes of the element are stored. */
    method StoreBytes(point: seq<byte>, name: nat, curlevel: nat)
      requires bytes.Valid() && bytes.count < bytes.maxElements <= Range(4) && |point| == bytes.lay.dataSize && name < Range(8)
      requires bytes.lay.maxM == graph.m && bytes.lay.maxM0 == 2 * graph.m
      modifies bytes`count, bytes`labelLookup, bytes`added, bytes.memory, bytes.linkLists, bytes.elementLevels
      ensures bytes.Valid() && bytes.count == old(bytes.count) + 1 && bytes.added == old(bytes.added) + [(name, point)]
      ensures bytes.labelLookup == old(bytes.labelLookup)[name := old(bytes.count)]
      ensures bytes.elementLevels[..bytes.count] == old(bytes.elementLevels[..bytes.count]) + [curlevel]
      ensures ListsIn(bytes.Table()) == old(ListsIn(bytes.Table())) + [BlankLists(graph.m, curlevel)]
    {
      hide Fits, Records, TableOf, Range, BlankNode, BlankLists;
      BlankIsBlank(bytes.lay, graph.m, curlevel, point, name);
      OwnRemainder(bytes.count, Range(4));
      var id := bytes.Store(point, name, curlevel);
      assert |bytes.Table()[bytes.count - 1].lists| == curlevel + 1;
    }

    /** addPoint on both forms: level is the level asked for, randomLevel the one drawn. No write finds
        anything wrong, and the lists in the bytes change level by level as the graph's do. */
    method AddPoint(point: seq<byte>, name: nat, level: int, randomLevel: nat)
      returns (status: Hnsw.Status, cur: nat, written: WriteStatus)
      requires Agrees() && |point| == bytes.lay.dataSize && name < Range(8)
      modifies graph, graph.vectors, graph.labels, graph.levels, graph.links
      modifies bytes, bytes.memory, bytes.linkLists, bytes.elementLevels
      ensures Agrees() && written == Written
      ensures status == if old(graph.count) >= graph.maxElements then Hnsw.Full else Hnsw.Ok
      ensures status == Hnsw.Ok ==> cur == old(graph.count) && bytes.added == old(bytes.added) + [(name, point)]
      ensures status == Hnsw.Ok ==>
                var curlevel: nat := if level > 0 then level else randomLevel;
                LevelsLinked(cur, if curlevel <= old(graph.maxlevel) then curlevel else old(graph.maxlevel),
                              old(ListsIn(bytes.Table())) + [BlankLists(graph.m, curlevel)])
    {
      hide SameElements, Hnsw.HierarchicalNSW.EntryOk, Hnsw.HierarchicalNSW.LookupOk, Hnsw.NobodyAlone;
      hide GoodGraph, LevelPending, Fits, Records, TableOf, Range;
      assert ListsIn(bytes.Table()) == graph.AllLinks();
      var maxlevelcopy := graph.maxlevel;
      var curlevel: nat := if level > 0 then level else randomLevel;
      var top;
      ghost var a;
      status, cur, top, a := StoreBoth(point, name, curlevel);
      written := Written;
      hide Agrees, Together, Pending, LevelsLinked;
      if status == Hnsw.Full {
        return;
      }
      written := WriteLevels(cur, top, a);
      EnterBytes(cur, curlevel, maxlevelcopy, a);
      assert LevelsLinked(cur, top, a);
    }

    /** The new entry point on the bytes, if the element is the highest. */
    method EnterBytes(cur: nat, curlevel: nat, maxlevelcopy: int, ghost a: Links)
      requires Pending(cur, -1, a)
      requires if curlevel > maxlevelcopy then graph.enterpoint == cur && graph.maxlevel == curlevel else EntryAgrees()
      modifies bytes`enterpoint, bytes`maxlevel
      ensures Agrees()
    {
      hide SameElements, Hnsw.HierarchicalNSW.EntryOk, Hnsw.HierarchicalNSW.LookupOk, Hnsw.NobodyAlone;
      hide GoodGraph, LevelPending, Fits, Records, TableOf, Range;
      NothingLeft(ListsIn(bytes.Table()), a, graph.AllLinks());
      hide Between;
      if curlevel > maxlevelcopy {
        bytes.enterpoint := cur;
        bytes.maxlevel := curlevel;
      }
    }
  }
}
